/**
  The editing session held by the SnapShop frame: the current image, whether
  an image is loaded, what the image label shows, and the enabled flag of
  every button. Each user action is a pure transition on this record.

  Images are a type parameter `I`: loading, saving and filtering are opaque,
  and only their outcomes enter the model.
 */
module Session {
  import opened Wrappers
  import opened Filters

  /** Positions in the option button list. */
  const OpenButton: nat := 0
  const SaveButton: nat := 1
  const CloseButton: nat := 2
  const OptionCount: nat := 3

  /**
    `image` is the frame's image reference: None until the first successful
    load, and never cleared afterwards, because closing only flushes it.
    `loaded` says whether an image is open. `display` is the icon of the image
    label. `options` holds the enabled flags of Open, Save As and Close, in
    that order; `filterButtons[i]` is the enabled flag of the button of
    `filters[i]`.
   */
  datatype Session<I> = Session(
    image: Option<I>,
    loaded: bool,
    display: Option<I>,
    options: seq<bool>,
    filters: seq<Filter>,
    filterButtons: seq<bool>)

  /** One round of the open dialog: cancelled, a file whose load throws, or a file that loads. */
  datatype DialogOutcome<I> = Cancel | LoadFails | Loads(img: I)

  /** One round of the save dialog. A failing save throws an exception the frame swallows. */
  datatype SaveOutcome = SaveCancelled | Saved | SaveFails

  /** What a run of the open flow leaves: the session, the unused dialog rounds, the error messages shown. */
  datatype OpenReply<I> = OpenReply(session: Session<I>, rest: seq<DialogOutcome<I>>, failures: nat)

  /** What a save leaves: the session, and the image written to disk, if any. */
  datatype SaveReply<I> = SaveReply(session: Session<I>, written: Option<I>)

  /** Layout of the session that every transition keeps: one button per filter, three option buttons. */
  predicate WellShaped<I>(s: Session<I>) {
    && s.filters == Catalog
    && |s.options| == OptionCount
    && |s.filterButtons| == |s.filters|
  }

  /**
    The enablement invariant: Open is always enabled, and Save As, Close and
    every filter button are enabled exactly when an image is loaded, which
    the label then shows.
   */
  ghost predicate Valid<I>(s: Session<I>) {
    && WellShaped(s)
    && s.options[OpenButton]
    && s.options[SaveButton] == s.loaded
    && s.options[CloseButton] == s.loaded
    && (forall i :: 0 <= i < |s.filterButtons| ==> s.filterButtons[i] == s.loaded)
    && (s.loaded ==> s.image.Some?)
    && s.display == (if s.loaded then s.image else None)
  }

  predicate SaveEnabled<I>(s: Session<I>) {
    |s.options| > SaveButton && s.options[SaveButton]
  }

  predicate CloseEnabled<I>(s: Session<I>) {
    |s.options| > CloseButton && s.options[CloseButton]
  }

  predicate FilterEnabled<I>(s: Session<I>, i: nat) {
    i < |s.filters| && i < |s.filterButtons| && s.filterButtons[i]
  }

  /** `flags` with every position at or beyond `from` switched off. */
  function DisableFrom(flags: seq<bool>, from: nat): (r: seq<bool>)
    ensures |r| == |flags|
    ensures forall i :: 0 <= i < from && i < |r| ==> r[i] == flags[i]
    ensures forall i :: from <= i < |r| ==> !r[i]
  {
    seq(|flags|, i requires 0 <= i < |flags| => i < from && flags[i])
  }

  /** `flags` with every position switched on. */
  function EnableAll(flags: seq<bool>): (r: seq<bool>)
    ensures |r| == |flags|
    ensures forall i :: 0 <= i < |r| ==> r[i]
  {
    seq(|flags|, _ => true)
  }

  /**
    The frame as its constructor leaves it: no image, an empty label, and
    every button in its default, enabled, state.
   */
  function Construct<I>(): (s: Session<I>)
    ensures WellShaped(s) && !s.loaded && s.image == None && s.display == None
    ensures forall i :: 0 <= i < |s.options| ==> s.options[i]
    ensures forall i :: 0 <= i < |s.filterButtons| ==> s.filterButtons[i]
  {
    Session(None, false, None, [true, true, true], Catalog, seq(|Catalog|, _ => true))
  }

  /**
    Building the panels: every filter button is disabled, and every option
    button except the first. Nothing else changes.
   */
  function Start<I>(s: Session<I>): (r: Session<I>)
    ensures r.image == s.image && r.loaded == s.loaded && r.display == s.display
    ensures r.filters == s.filters
    ensures |r.options| == |s.options|
    ensures |s.options| > OpenButton ==> r.options[OpenButton] == s.options[OpenButton]
    ensures forall i :: OpenButton < i < |r.options| ==> !r.options[i]
    ensures |r.filterButtons| == |s.filterButtons|
    ensures forall i :: 0 <= i < |r.filterButtons| ==> !r.filterButtons[i]
  {
    s.(options := DisableFrom(s.options, OpenButton + 1),
       filterButtons := DisableFrom(s.filterButtons, 0))
  }

  /** The session once the frame is shown. */
  function Initial<I>(): Session<I> {
    Start(Construct())
  }

  /**
    A successful load: the loaded image becomes current and is shown, and
    every option button and every filter button is enabled.
   */
  function Opened<I>(s: Session<I>, img: I): (r: Session<I>)
    ensures r.image == Some(img) && r.loaded && r.display == Some(img)
    ensures r.filters == s.filters
    ensures |r.options| == |s.options| && forall i :: 0 <= i < |r.options| ==> r.options[i]
    ensures |r.filterButtons| == |s.filterButtons|
    ensures forall i :: 0 <= i < |r.filterButtons| ==> r.filterButtons[i]
    ensures WellShaped(s) ==> Valid(r)
  {
    s.(image := Some(img), loaded := true, display := Some(img),
       options := EnableAll(s.options), filterButtons := EnableAll(s.filterButtons))
  }

  /** Every dialog round before position `k` was a file that failed to load. */
  ghost predicate FailedBefore<I>(outcomes: seq<DialogOutcome<I>>, k: int) {
    forall j :: 0 <= j < k && j < |outcomes| ==> outcomes[j].LoadFails?
  }

  /**
    The open flow. Each failed load shows one error message and presses Open
    again, so the flow reads dialog rounds until one is cancelled or loads.
    A cancel changes nothing; a load ends in `Opened`. Should the rounds run
    out while loads keep failing, nothing has changed either.
   */
  function OpenFlow<I>(s: Session<I>, outcomes: seq<DialogOutcome<I>>): (r: OpenReply<I>)
    ensures forall k :: 0 <= k < |outcomes| && FailedBefore(outcomes, k) && !outcomes[k].LoadFails? ==>
      && r.rest == outcomes[k + 1..]
      && r.failures == k
      && r.session == (if outcomes[k].Cancel? then s else Opened(s, outcomes[k].img))
    ensures FailedBefore(outcomes, |outcomes|) ==> r == OpenReply(s, [], |outcomes|)
    ensures r.session.filters == s.filters
    ensures Valid(s) ==> Valid(r.session)
    decreases |outcomes|
  {
    if |outcomes| == 0 then OpenReply(s, [], 0)
    else match outcomes[0]
      case Cancel => OpenReply(s, outcomes[1..], 0)
      case Loads(img) => OpenReply(Opened(s, img), outcomes[1..], 0)
      case LoadFails =>
        var r := OpenFlow(s, outcomes[1..]);
        OpenReply(r.session, r.rest, r.failures + 1)
  }

  /**
    Save As: whatever the dialog and the save do, neither the image nor any
    flag changes; the image reaches the disk only when the save succeeds.
   */
  function Save<I>(s: Session<I>, outcome: SaveOutcome): (r: SaveReply<I>)
    requires SaveEnabled(s) && s.image.Some?
    ensures r.session == s
    ensures r.written.Some? <==> outcome == Saved
    ensures r.written.Some? ==> r.written == s.image
  {
    match outcome
    case Saved => SaveReply(s, s.image)
    case SaveCancelled => SaveReply(s, None)
    case SaveFails => SaveReply(s, None)
  }

  /**
    Close: the label is cleared and the image flushed, but the reference is
    kept; every option button from Save As onwards and every filter button
    is disabled, and Open is left as it was.
   */
  function Close<I>(s: Session<I>): (r: Session<I>)
    requires CloseEnabled(s) && s.image.Some?
    ensures !r.loaded && r.display == None
    ensures r.image == s.image && r.filters == s.filters
    ensures |r.options| == |s.options| && r.options[OpenButton] == s.options[OpenButton]
    ensures forall i :: OpenButton < i < |r.options| ==> !r.options[i]
    ensures |r.filterButtons| == |s.filterButtons|
    ensures forall i :: 0 <= i < |r.filterButtons| ==> !r.filterButtons[i]
    ensures Valid(s) ==> Valid(r)
  {
    s.(loaded := false, display := None,
       options := DisableFrom(s.options, OpenButton + 1),
       filterButtons := DisableFrom(s.filterButtons, 0))
  }

  /**
    Pressing the button of filter `i`: the image is replaced by the filter
    applied to it and shown again. No enabled flag changes.
   */
  function ApplyFilter<I>(s: Session<I>, i: nat, apply: (Filter, I) -> I): (r: Session<I>)
    requires FilterEnabled(s, i) && s.image.Some?
    ensures r.image == Some(apply(s.filters[i], s.image.value)) && r.display == r.image
    ensures r.loaded == s.loaded && r.filters == s.filters
    ensures r.options == s.options && r.filterButtons == s.filterButtons
    ensures Valid(s) ==> Valid(r)
  {
    var img := apply(s.filters[i], s.image.value);
    s.(image := Some(img), display := Some(img))
  }

  /**
    Once the panels are built, Open is enabled while Save As, Close and all
    seven filter buttons are disabled, and the invariant holds.
   */
  lemma InitialState<I>()
    ensures var s: Session<I> := Initial();
      && Valid(s) && !s.loaded && s.image == None
      && s.options == [true, false, false]
      && |s.filterButtons| == |Catalog| && forall i :: 0 <= i < |s.filterButtons| ==> !s.filterButtons[i]
  {
  }

  /** Until the panels are built the invariant does not hold: every button starts enabled. */
  lemma ConstructedIsNotValid<I>()
    ensures !Valid(Construct<I>())
  {
  }

  /** Enablement is a function of the loaded flag alone: two valid sessions that agree on it agree on every flag. */
  lemma EnablementFollowsLoaded<I>(s: Session<I>, t: Session<I>)
    requires Valid(s) && Valid(t) && s.loaded == t.loaded
    ensures s.options == t.options && s.filterButtons == t.filterButtons
  {
  }
}
