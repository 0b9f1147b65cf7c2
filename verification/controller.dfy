/**
  Button presses delivered to the session one at a time, and the properties
  of whole sequences of them. A disabled button delivers nothing, so a press
  on one is rejected rather than handled.
 */
module Controller {
  import opened Wrappers
  import opened Filters
  import opened Session

  /** A press of one button, together with the dialog rounds it leads to. */
  datatype Action<I> =
    | PressOpen(dialogs: seq<DialogOutcome<I>>)
    | PressSave(outcome: SaveOutcome)
    | PressClose
    | PressFilter(index: nat)

  /** Whether the button the action presses is enabled, and so whether the press is delivered. */
  predicate Delivered<I>(s: Session<I>, a: Action<I>) {
    match a
    case PressOpen(_) => |s.options| > OpenButton && s.options[OpenButton]
    case PressSave(_) => SaveEnabled(s)
    case PressClose => CloseEnabled(s)
    case PressFilter(i) => FilterEnabled(s, i)
  }

  /**
    Handles one press: the session after it, or None when the button is
    disabled. Every delivered press keeps the enablement invariant and the
    filter catalog.
   */
  function Step<I>(s: Session<I>, a: Action<I>, apply: (Filter, I) -> I): (r: Option<Session<I>>)
    requires Valid(s)
    ensures r.Some? <==> Delivered(s, a)
    ensures r.Some? ==> Valid(r.value) && r.value.filters == s.filters
  {
    if !Delivered(s, a) then None
    else match a
      case PressOpen(dialogs) => Some(OpenFlow(s, dialogs).session)
      case PressSave(outcome) => Some(Save(s, outcome).session)
      case PressClose => Some(Close(s))
      case PressFilter(i) => Some(ApplyFilter(s, i, apply))
  }

  /** The session after a sequence of presses; rejected presses leave it as it was. */
  function Run<I>(s: Session<I>, actions: seq<Action<I>>, apply: (Filter, I) -> I): (r: Session<I>)
    requires Valid(s)
    ensures Valid(r) && r.filters == s.filters
    decreases |actions|
  {
    if |actions| == 0 then s
    else
      var next := match Step(s, actions[0], apply)
        case Some(t) => t
        case None => s;
      Run(next, actions[1..], apply)
  }

  /** The image after applying the filters at positions `indices`, in order. */
  function ApplyAll<I>(img: I, indices: seq<nat>, apply: (Filter, I) -> I): I
    requires forall k :: 0 <= k < |indices| ==> indices[k] < |Catalog|
    decreases |indices|
  {
    if |indices| == 0 then img
    else ApplyAll(apply(Catalog[indices[0]], img), indices[1..], apply)
  }

  /** The presses of the filter buttons at positions `indices`, in order. */
  function FilterPresses<I>(indices: seq<nat>): (r: seq<Action<I>>)
    ensures |r| == |indices|
    ensures forall k :: 0 <= k < |r| ==> r[k] == PressFilter(indices[k])
  {
    seq(|indices|, k requires 0 <= k < |indices| => PressFilter(indices[k]))
  }

  /**
    Pressing filter buttons in any order, any number of times, composes the
    filters on the current image and leaves every flag as it was.
   */
  lemma {:induction false} FilterPressesCompose<I>(s: Session<I>, img: I, indices: seq<nat>, apply: (Filter, I) -> I)
    requires Valid(s) && s.loaded && s.image == Some(img)
    requires forall k :: 0 <= k < |indices| ==> indices[k] < |Catalog|
    ensures Run(s, FilterPresses(indices), apply)
         == s.(image := Some(ApplyAll(img, indices, apply)), display := Some(ApplyAll(img, indices, apply)))
    decreases |indices|
  {
    var presses: seq<Action<I>> := FilterPresses(indices);
    if |indices| > 0 {
      var i := indices[0];
      var t := ApplyFilter(s, i, apply);
      assert Step(s, presses[0], apply) == Some(t);
      assert presses[1..] == FilterPresses(indices[1..]);
      FilterPressesCompose(t, apply(Catalog[i], img), indices[1..], apply);
    }
  }

  /**
    With no image loaded, Open is the only button that delivers: Save As,
    Close and every filter press are rejected.
   */
  lemma OnlyOpenWithoutImage<I>(s: Session<I>, a: Action<I>, apply: (Filter, I) -> I)
    requires Valid(s) && !s.loaded
    ensures Step(s, a, apply).Some? <==> a.PressOpen?
  {
  }

  /** After Close, Save As and every filter press are rejected until the next open. */
  lemma CloseThenRejected<I>(s: Session<I>, a: Action<I>, apply: (Filter, I) -> I)
    requires Valid(s) && s.loaded
    ensures Step(s, PressClose, apply).Some?
    ensures var t := Step(s, PressClose, apply).value;
      !t.loaded && (Step(t, a, apply).Some? <==> a.PressOpen?)
  {
  }

  /** Opening twice in a row leaves the second image current and everything enabled. */
  lemma OpenTwice<I>(s: Session<I>, first: I, second: I, apply: (Filter, I) -> I)
    requires Valid(s)
    ensures Run(s, [PressOpen([Loads(first)]), PressOpen([Loads(second)])], apply)
         == Opened(s, second)
  {
    var t := Opened(s, first);
    assert OpenFlow(s, [Loads(first)]).session == t;
    assert Step(s, PressOpen([Loads(first)]), apply) == Some(t);
    assert OpenFlow(t, [Loads(second)]).session == Opened(t, second);
    assert Opened(t, second) == Opened(s, second);
    assert Step(t, PressOpen([Loads(second)]), apply) == Some(Opened(s, second));
    var presses: seq<Action<I>> := [PressOpen([Loads(first)]), PressOpen([Loads(second)])];
    assert presses[1..] == [PressOpen([Loads(second)])];
    assert presses[1..][1..] == [];
    assert Run(Opened(s, second), [], apply) == Opened(s, second);
    assert Run(t, presses[1..], apply) == Opened(s, second);
    assert Run(s, presses, apply) == Run(t, presses[1..], apply);
  }
}
