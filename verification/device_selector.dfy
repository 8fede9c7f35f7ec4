/**
 * The webview's event handling over the fixed catalog: typing in the search
 * box re-runs the filter, and a click on a device row moves the single
 * selection pointer and shows that device's description.
 */
module DeviceSelector {
  import opened Wrappers
  import opened DeviceCatalog
  import opened DeviceFilter

  /** The picker's state; the catalog itself never changes. */
  datatype View = View(
    search: Option<string>,  // text of the last input event; None before the first one
    selected: Option<Pos>,   // the row the selection pointer refers to
    marked: set<Pos>,        // the rows that carry the `selected` class
    pane: Option<string>)    // description pane text; None while the initial prompt shows

  /** One user event the webview script listens for. */
  datatype Event =
    | Typed(text: string)         // an `input` event on the search box
    | Clicked(target: Option<Pos>) // a click; None when it landed outside every device row

  /** The state right after the page loads: no filter, no selection, the prompt in the pane. */
  function Start(): View {
    View(None, None, {}, None)
  }

  /** The rows a selection pointer refers to. */
  function PointerSet(p: Option<Pos>): set<Pos> {
    match p
    case None => {}
    case Some(q) => {q}
  }

  /** The text the description pane shows for row `p`. */
  function DescriptionText(c: Catalog, p: Pos): string
    requires ValidPos(c, p)
  {
    Render(c[p.group].devices[p.device].description)
  }

  /**
   * The invariant the handlers keep: exactly the pointed-to row carries the
   * `selected` class, the pointer refers to a rendered row, and the pane shows
   * that row's description (or the prompt when nothing was ever selected).
   */
  ghost predicate Consistent(c: Catalog, v: View) {
    && v.marked == PointerSet(v.selected)
    && (v.selected.Some? ==> ValidPos(c, v.selected.value) && v.pane == Some(DescriptionText(c, v.selected.value)))
    && (v.selected.None? ==> v.pane.None?)
  }

  /** The `input` listener: records the text to filter by and touches nothing else. */
  function Input(v: View, text: string): (r: View)
    ensures r.search == Some(text)
    ensures r.selected == v.selected && r.marked == v.marked && r.pane == v.pane
  {
    v.(search := Some(text))
  }

  /**
   * The `click` listener. A click outside every device row is ignored;
   * otherwise the previous row loses `selected`, the clicked row gains it,
   * the pointer moves to it and the pane shows its description.
   */
  function Click(c: Catalog, v: View, target: Option<Pos>): (r: View)
    ensures target.None? || !ValidPos(c, target.value) ==> r == v
    ensures target.Some? && ValidPos(c, target.value) ==>
              && r.selected == target
              && target.value in r.marked
              && r.pane == Some(DescriptionText(c, target.value))
              && r.search == v.search
    ensures target.Some? && ValidPos(c, target.value) ==>
              forall q :: q != target.value ==> (q in r.marked <==> q in v.marked && Some(q) != v.selected)
  {
    match target
    case None => v
    case Some(p) =>
      if !ValidPos(c, p) then v
      else View(v.search, Some(p), v.marked - PointerSet(v.selected) + {p}, Some(DescriptionText(c, p)))
  }

  /** Dispatches one event to its listener. */
  function Step(c: Catalog, v: View, e: Event): View {
    match e
    case Typed(text) => Input(v, text)
    case Clicked(target) => Click(c, v, target)
  }

  /** The state after a sequence of events, starting from `v`. */
  function RunFrom(c: Catalog, v: View, es: seq<Event>): View
    decreases |es|
  {
    if |es| == 0 then v else RunFrom(c, Step(c, v, es[0]), es[1..])
  }

  /** What the page shows: nothing is hidden until the first input event. */
  function Shown(c: Catalog, v: View): (r: seq<GroupView>)
    ensures |r| == |c|
    ensures forall i :: 0 <= i < |c| ==> |r[i].devices| == |c[i].devices|
    ensures v.search.None? ==>
              forall i :: 0 <= i < |c| ==> r[i].shown && forall j :: 0 <= j < |c[i].devices| ==> r[i].devices[j]
    ensures v.search.Some? ==> r == Visibility(c, v.search.value)
  {
    match v.search
    case None => seq(|c|, i requires 0 <= i < |c| => GroupView(true, seq(|c[i].devices|, _ => true)))
    case Some(text) => Visibility(c, text)
  }

  // ---------------------------------------------------------------------------
  // Selection.
  // ---------------------------------------------------------------------------

  /** Both listeners keep the invariant. */
  lemma StepKeepsConsistent(c: Catalog, v: View, e: Event)
    requires Consistent(c, v)
    ensures Consistent(c, Step(c, v, e))
  {
  }

  /** Every sequence of events keeps the invariant. */
  lemma {:induction false} RunKeepsConsistent(c: Catalog, v: View, es: seq<Event>)
    requires Consistent(c, v)
    ensures Consistent(c, RunFrom(c, v, es))
    decreases |es|
  {
    if |es| > 0 {
      StepKeepsConsistent(c, v, es[0]);
      RunKeepsConsistent(c, Step(c, v, es[0]), es[1..]);
    }
  }

  /** From page load on, at most one row carries `selected`, and it is the pointed-to one. */
  lemma AtMostOneSelected(c: Catalog, es: seq<Event>)
    ensures |RunFrom(c, Start(), es).marked| <= 1
    ensures RunFrom(c, Start(), es).marked == PointerSet(RunFrom(c, Start(), es).selected)
  {
    RunKeepsConsistent(c, Start(), es);
  }

  /** Clicking the selected row again changes nothing. */
  lemma ClickOnSelectedChangesNothing(c: Catalog, v: View, p: Pos)
    requires Consistent(c, v) && v.selected == Some(p)
    ensures Click(c, v, Some(p)) == v
  {
  }

  /** A second click on the same target has no further effect. */
  lemma ClickIdempotent(c: Catalog, v: View, target: Option<Pos>)
    ensures Click(c, Click(c, v, target), target) == Click(c, v, target)
  {
  }

  // ---------------------------------------------------------------------------
  // Filtering and selection are independent.
  // ---------------------------------------------------------------------------

  /**
   * The click listener has no visibility guard: what a click does is the same
   * whatever text the view is filtered by.
   */
  lemma ClickHasNoVisibilityGuard(c: Catalog, v: View, target: Option<Pos>, search: Option<string>)
    ensures Click(c, v.(search := search), target) == Click(c, v, target).(search := search)
  {
  }

  /** Any run of input events leaves the pointer, the `selected` classes and the pane alone. */
  lemma {:induction false} TypingKeepsSelection(c: Catalog, v: View, es: seq<Event>)
    requires forall k :: 0 <= k < |es| ==> es[k].Typed?
    ensures var r := RunFrom(c, v, es);
      r.selected == v.selected && r.marked == v.marked && r.pane == v.pane
    decreases |es|
  {
    if |es| > 0 {
      TypingKeepsSelection(c, Step(c, v, es[0]), es[1..]);
    }
  }

  /** Any run of clicks leaves the filter, and so what is shown, alone. */
  lemma {:induction false} ClicksKeepFilter(c: Catalog, v: View, es: seq<Event>)
    requires forall k :: 0 <= k < |es| ==> es[k].Clicked?
    ensures RunFrom(c, v, es).search == v.search
    ensures Shown(c, RunFrom(c, v, es)) == Shown(c, v)
    decreases |es|
  {
    if |es| > 0 {
      ClicksKeepFilter(c, Step(c, v, es[0]), es[1..]);
    }
  }

  /** What is shown after typing depends only on the text typed last. */
  lemma {:induction false} LastInputDecides(c: Catalog, v: View, es: seq<Event>, text: string)
    ensures Shown(c, RunFrom(c, v, es + [Typed(text)])) == Visibility(c, text)
    decreases |es|
  {
    if |es| == 0 {
      assert es + [Typed(text)] == [Typed(text)];
    } else {
      assert (es + [Typed(text)])[1..] == es[1..] + [Typed(text)];
      LastInputDecides(c, Step(c, v, es[0]), es[1..], text);
    }
  }

  /**
   * A group without devices shows on page load but disappears on the first
   * input event, even when the typed text is empty.
   */
  lemma EmptyGroupHiddenOnceFiltered(c: Catalog, i: nat)
    requires i < |c| && |c[i].devices| == 0
    ensures Shown(c, Start())[i].shown
    ensures !Shown(c, Input(Start(), ""))[i].shown
  {
  }
}
