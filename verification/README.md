# SnapShop session model

SnapShop is a single-image editor: the user opens an image, presses filter
buttons to transform it, saves it and closes it. All of its state lives in
the Swing frame `SnapShopGUI`: the current `PixelImage`, the three option
buttons (Open..., Save As..., Close image) and one button per filter. This
project models that frame as an immutable session record with pure
transition functions, and proves the enablement invariant the buttons keep:
Open is always enabled, and Save As, Close and every filter button are
enabled exactly when an image is loaded.

- `wrappers.dfy`: `Option`, for the frame's nullable image reference.
- `filters.dfy`: the seven filters, in the order of the frame's filter list, and the filter-to-button lookup.
- `session.dfy`: the session record, the invariant `Valid`, and the transitions Construct, Start, Open (as a flow over dialog rounds), Save, Close and ApplyFilter.
- `controller.dfy`: button presses, their delivery only when the button is enabled, and sequences of presses.

Images are a type parameter. Loading is a dialog outcome (`Cancel`,
`LoadFails`, `Loads(img)`), saving is `SaveCancelled | Saved | SaveFails`, and
filtering is an opaque function `(Filter, I) -> I` passed in by the caller.
The frame never clears its image reference on close, so the session keeps
an explicit `loaded` flag next to the reference.

The open handler re-presses Open after a failed load. `OpenFlow` models
this as recursion over the sequence of dialog rounds. It consumes rounds
until one is cancelled or loads, and it terminates because the sequence
shrinks.

Two behaviours of the frame matter for the model:
- Close does not release the image (gui/SnapShopGUI.java:186). It flushes it and keeps the reference, and only the `loaded` flag, the label and the flags of the buttons change.
- A new open does not flush the previous image (gui/SnapShopGUI.java:206). The reference is simply overwritten.

## Model

| member | source | states |
|---|---|---|
| Filters.ButtonIndex | gui/SnapShopGUI.java:75-81 | every filter of the catalog has exactly one button, at its position in the filter list |
| Filters.CatalogIsComplete | gui/SnapShopGUI.java:64-71 | the filter list holds seven distinct filters, one per filter class, filling the seven-row panel |
| Session.Construct | gui/SnapShopGUI.java:53-82 | the constructed frame has no image, an empty label, the seven-filter catalog and every button enabled |
| Session.ConstructedIsNotValid | gui/SnapShopGUI.java:56-76 | before the panels are built the enablement invariant does not hold |
| Session.Start | gui/SnapShopGUI.java:117-144 | building the panels disables every filter button and every option button but the first, and changes nothing else |
| Session.InitialState | gui/SnapShopGUI.java:117-141 | after start-up Open is enabled, Save As, Close and all seven filter buttons are disabled, no image is loaded, and the invariant holds |
| Session.EnablementFollowsLoaded | gui/SnapShopGUI.java:208-213 | in valid sessions every enabled flag is determined by whether an image is loaded |
| Session.Opened | gui/SnapShopGUI.java:206-213 | a successful load makes the image current and shown, enables every option and filter button, keeps the catalog, and establishes the invariant |
| Session.OpenFlow | gui/SnapShopGUI.java:201-224 | the open flow ends at the first round that is not a failed load; a cancel leaves the session unchanged, a load gives `Opened`, each failed load before it shows one error, if every round fails nothing changes, and the flow keeps the catalog and the invariant |
| Session.Save | gui/SnapShopGUI.java:229-239 | a save, cancelled, successful or failing with a swallowed exception, changes nothing; the image is written exactly when the save succeeds |
| Session.Close | gui/SnapShopGUI.java:184-196 | close clears the label and unloads the image but keeps the reference, disables option buttons from index 1 on and every filter button, leaves Open as it was, and keeps the invariant |
| Session.ApplyFilter | gui/SnapShopGUI.java:77-80 | pressing an enabled filter button replaces the image by that filter applied to it, shows it, keeps every flag, and keeps the invariant |
| Controller.Step | gui/SnapShopGUI.java:171-179 | a press is handled exactly when its button is enabled, and a handled press keeps the invariant and the catalog |
| Controller.Run | gui/SnapShopGUI.java:171-179 | any sequence of presses from a valid session ends in a valid session with the same catalog |
| Controller.FilterPressesCompose | gui/SnapShopGUI.java:77-80 | pressing filter buttons in any order composes the filters on the image and changes no flag |
| Controller.OnlyOpenWithoutImage | gui/SnapShopGUI.java:131-141 | with no image loaded, only a press of Open is delivered |
| Controller.CloseThenRejected | gui/SnapShopGUI.java:184-192 | after close, Save As, Close and every filter press are rejected and only Open is delivered |
| Controller.OpenTwice | gui/SnapShopGUI.java:206-213 | two successful opens in a row leave the second image current with everything enabled, whatever the first one was |

## Left out

- Layout and rendering: `start`'s panel placement, `setUpImagePanel`, `pack`, `setMinimumSize` and the icons. The label is modelled only as which image it shows.
- The file chooser and the message dialog. Only their outcomes are modelled: the dialog rounds and the count of error messages shown.
- `PixelImage.load`, `save` and `flush`, and the filter algorithms. Their source is not part of this model. They are a dialog outcome, a save outcome and an opaque function, so properties of single filters, such as a flip undoing itself, and the save-then-load round trip cannot be stated.
- Filter descriptions, used as button labels. `Filter.getDescription` is not part of this model.
- The iteration order of the filter-to-button hash map. Every filter button receives the same flag, so the order cannot matter.
- The frame being shown on the event thread. gui/SnapShopMain.java only schedules that, and presses are modelled as handled one at a time.
- Session.Save, Session.Close and Session.ApplyFilter: they require the image reference to be non-null. This holds at every press delivered after start-up, because `Valid` gives `loaded ==> image.Some?` and these buttons are enabled only when an image is loaded. A cancelled save would not need the image, but Save As is never enabled without one. Presses before `start()` are not modelled. That only matters for the filter listeners, which the constructor attaches (gui/SnapShopGUI.java:77-80). The option listener is attached only when the panels are built (gui/SnapShopGUI.java:140).
- Controller.Step: it requires the invariant, which holds from start-up on. Presses before the frame is shown are not modelled.
- Session.OpenFlow: if the supplied dialog rounds run out while loads keep failing, the flow stops with the session unchanged. The frame would prompt again.
