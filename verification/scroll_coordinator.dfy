/**
 * The scroll listener the carousel attaches to its list: a drag cancels the
 * pending tick, a fling is cut short and snapped to a page chosen by the 45 %
 * threshold, and an idle list is snapped to its last completely visible page;
 * in the last two cases a tick is posted again.
 */
module ScrollCoordinator {
  import opened JavaInt
  import opened Wrappers
  import opened Config
  import opened Carousel
  import Autoplay

  /** `RecyclerView.SCROLL_STATE_IDLE`, `_DRAGGING` and `_SETTLING`. */
  datatype ScrollState = Idle | Dragging | Settling

  /** `RecyclerView.NO_POSITION`. */
  const NoPosition: int32 := -1

  /** The right and bottom edges of a child view, in the list's coordinates. */
  datatype ViewEdges = ViewEdges(right: int32, bottom: int32)

  /** What the layout manager answers when the listener asks. */
  datatype Layout = Layout(
    firstCompletelyVisible: int32,         // findFirstCompletelyVisibleItemPosition
    lastCompletelyVisible: int32,          // findLastCompletelyVisibleItemPosition
    firstVisible: int32,                   // findFirstVisibleItemPosition
    firstVisibleView: Option<ViewEdges>)   // findViewByPosition(firstVisible); None for null

  /** The state after the listener returns and the calls it made on the list, in order. */
  datatype Reaction = Reaction(next: State, commands: seq<Command>)

  /** The delay the listener re-posts the tick with: at once during a page move, else after the gap. */
  function ResumeDelay(c: Settings, s: State): (d: int32)
    ensures s.working ==> d == 0
    ensures !s.working ==> d == c.gapInterval
  {
    if s.working then 0 else c.gapInterval
  }

  /** The edge of a view that trails along the scrolling axis. */
  function TrailingEdge(o: Orientation, e: ViewEdges): int32 {
    match o
    case Horizontal => e.right
    case Vertical => e.bottom
  }

  /**
   * `edge < extent * 0.45`, in exact integer arithmetic: less than 45 % of
   * the partly visible page is still in view, so the fling goes on to the
   * next page. A page exactly at the threshold stays.
   */
  predicate Advances(edge: int, extent: int) {
    100 * edge < 45 * extent
  }

  /** The integer form of the threshold agrees with the comparison against `0.45` on the reals. */
  lemma AdvancesIsFortyFivePercent(edge: int, extent: int)
    ensures Advances(edge, extent) <==> (edge as real) < (extent as real) * 0.45
  {
    assert (extent as real) * 0.45 == (45 * extent) as real / 100.0;
  }

  /** The page a fling snaps to: the one after the first visible page when it is mostly out of view. */
  function SettleTarget(o: Orientation, v: Viewport, position: int32, view: ViewEdges): (target: int32)
    ensures Advances(TrailingEdge(o, view), Extent(o, v)) ==> target == Add(position, 1)
    ensures !Advances(TrailingEdge(o, view), Extent(o, v)) ==> target == position
  {
    if Advances(TrailingEdge(o, view), Extent(o, v)) then Add(position, 1) else position
  }

  /**
   * `onScrollStateChanged`. A drag removes the pending ticks and nothing
   * else. A fling detaches the listener, stops the list and removes the
   * pending ticks; if a page is completely visible it stops there, with the
   * listener still detached; otherwise it snaps to the page the threshold
   * picks, which becomes the current index, re-attaches the listener and
   * posts a tick. A fling with no view at the first visible position
   * dereferences null. Any other state snaps to the last completely visible
   * page, or to the current index when there is none, and posts a tick
   * without removing those already queued.
   */
  function OnScrollStateChanged(c: Settings, v: Viewport, layout: Layout, state: ScrollState, s: State)
    : (r: Result<Reaction, Fault>)
    ensures state == Dragging ==> r == Success(Reaction(s.(pending := multiset{}), []))
    ensures state == Settling && layout.firstCompletelyVisible != NoPosition ==>
              r == Success(Reaction(s.(pending := multiset{}, listening := false), [StopScroll]))
    ensures state == Settling && layout.firstCompletelyVisible == NoPosition && layout.firstVisibleView.None? ==>
              r == Failure(NullPointerException)
    ensures state == Settling && layout.firstCompletelyVisible == NoPosition && layout.firstVisibleView.Some? ==>
              && r.Success?
              && r.value.next.pending == multiset{ResumeDelay(c, s)}
              && r.value.next.listening
              && r.value.next.index in {layout.firstVisible, Add(layout.firstVisible, 1)}
              && r.value.commands == [StopScroll, SmoothScrollTo(r.value.next.index)]
    ensures state == Idle ==>
              && r.Success?
              && r.value.next.pending == s.pending + multiset{ResumeDelay(c, s)}
              && r.value.next.listening == s.listening
              && r.value.next.index == (if layout.lastCompletelyVisible == NoPosition then s.index
                                        else layout.lastCompletelyVisible)
              && r.value.commands == [SmoothScrollTo(r.value.next.index)]
    ensures r.Success? ==>
              && r.value.next.running == s.running
              && r.value.next.working == s.working
              && r.value.next.scrolled == s.scrolled
    ensures r.Failure? ==> r.error == NullPointerException
  {
    match state
    case Dragging =>
      Success(Reaction(s.(pending := multiset{}), []))
    case Settling =>
      var detached := s.(pending := multiset{}, listening := false);
      if layout.firstCompletelyVisible != NoPosition then
        Success(Reaction(detached, [StopScroll]))
      else if layout.firstVisibleView.None? then
        Failure(NullPointerException)
      else
        var target := SettleTarget(c.orientation, v, layout.firstVisible, layout.firstVisibleView.value);
        Success(Reaction(detached.(index := target, listening := true, pending := multiset{ResumeDelay(c, s)}),
                         [StopScroll, SmoothScrollTo(target)]))
    case Idle =>
      var position := if layout.lastCompletelyVisible == NoPosition then s.index else layout.lastCompletelyVisible;
      Success(Reaction(s.(index := position, pending := s.pending + multiset{ResumeDelay(c, s)}),
                       [SmoothScrollTo(position)]))
  }

  /**
   * A fling that has to snap moves on to the next page exactly when less
   * than 45 % of the first visible page is in view, measured along the
   * scrolling axis against the carousel's size.
   */
  lemma SettleFollowsThreshold(c: Settings, v: Viewport, layout: Layout, s: State)
    requires layout.firstCompletelyVisible == NoPosition && layout.firstVisibleView.Some?
    requires layout.firstVisible < MaxValue
    ensures var r := OnScrollStateChanged(c, v, layout, Settling, s);
            var edge := TrailingEdge(c.orientation, layout.firstVisibleView.value);
            && r.Success?
            && (r.value.next.index == layout.firstVisible + 1
                <==> (edge as real) < (Extent(c.orientation, v) as real) * 0.45)
            && (r.value.next.index == layout.firstVisible
                <==> !((edge as real) < (Extent(c.orientation, v) as real) * 0.45))
  {
    AdvancesIsFortyFivePercent(TrailingEdge(c.orientation, layout.firstVisibleView.value), Extent(c.orientation, v));
  }

  /** A page edge exactly at 45 % of the carousel stays: the fling snaps back to the first visible page. */
  lemma SettleTieStays(c: Settings, v: Viewport, layout: Layout, s: State)
    requires layout.firstCompletelyVisible == NoPosition && layout.firstVisibleView.Some?
    requires 100 * TrailingEdge(c.orientation, layout.firstVisibleView.value) == 45 * Extent(c.orientation, v)
    ensures var r := OnScrollStateChanged(c, v, layout, Settling, s);
            r.Success? && r.value.next.index == layout.firstVisible
  {
  }

  /**
   * Whichever state the list reports, a delivered event never leaves more
   * than one tick queued that was not queued before: it either clears the
   * queue, replaces it by one tick, or adds one.
   */
  lemma EventQueuesAtMostOne(c: Settings, v: Viewport, layout: Layout, state: ScrollState, s: State)
    ensures var r := OnScrollStateChanged(c, v, layout, state, s);
            r.Success? ==> |r.value.next.pending| <= |s.pending| + 1
  {
  }

  /**
   * A list that enters SETTLING while a page is exactly aligned (completely
   * visible) leaves the listener
   * detached and nothing queued: autoplay halts although it still counts as
   * running, so `start` does nothing and no later scroll event can revive it.
   */
  lemma AlignedSettleHaltsAutoplay(c: Settings, v: Viewport, layout: Layout, s: State)
    requires layout.firstCompletelyVisible != NoPosition
    ensures var r := OnScrollStateChanged(c, v, layout, Settling, s);
            && r.Success?
            && r.value.next.running == s.running
            && r.value.next.pending == multiset{}
            && !r.value.next.listening
            && (s.running ==> Autoplay.Start(c, r.value.next).pending == multiset{})
  {
  }

  /**
   * `onScrollStateChanged` with the SETTLING state on an exactly aligned page
   * finished like every other fling: the listener is attached again and a
   * tick is posted.
   */
  function OnScrollStateChangedResuming(c: Settings, v: Viewport, layout: Layout, state: ScrollState, s: State)
    : (r: Result<Reaction, Fault>)
    ensures state == Settling && layout.firstCompletelyVisible != NoPosition ==>
              r == Success(Reaction(s.(pending := multiset{ResumeDelay(c, s)}, listening := true), [StopScroll]))
    ensures !(state == Settling && layout.firstCompletelyVisible != NoPosition) ==>
              r == OnScrollStateChanged(c, v, layout, state, s)
  {
    if state == Settling && layout.firstCompletelyVisible != NoPosition then
      Success(Reaction(s.(pending := multiset{ResumeDelay(c, s)}, listening := true), [StopScroll]))
    else
      OnScrollStateChanged(c, v, layout, state, s)
  }

  /**
   * With every fling finished alike, an attached listener stays attached and
   * every scroll state but a drag leaves a tick queued, so autoplay never
   * halts on its own.
   */
  lemma ResumingSettleKeepsTicking(c: Settings, v: Viewport, layout: Layout, state: ScrollState, s: State)
    requires s.listening
    ensures var r := OnScrollStateChangedResuming(c, v, layout, state, s);
            && (r.Success? ==> r.value.next.listening && r.value.next.running == s.running)
            && (r.Success? && state != Dragging ==> ResumeDelay(c, s) in r.value.next.pending)
  {
  }

  /** A drag on a running carousel cancels the queued tick and leaves autoplay on. */
  lemma DragCancelsPendingTick(c: Settings, v: Viewport, layout: Layout, s: State)
    requires s.running
    ensures var r := OnScrollStateChanged(c, v, layout, Dragging, s);
            && r.Success?
            && r.value.next.running
            && |r.value.next.pending| == 0
            && r.value.commands == []
  {
  }

  /**
   * An idle event re-arms a tick even when autoplay is stopped: a stopped,
   * quiet carousel ends up with one tick queued at the gap interval.
   */
  lemma IdleRearmsStoppedCarousel(c: Settings, v: Viewport, layout: Layout, s: State)
    requires !s.running && !s.working && s.pending == multiset{}
    ensures var r := OnScrollStateChanged(c, v, layout, Idle, s);
            && r.Success?
            && !r.value.next.running
            && r.value.next.pending == multiset{c.gapInterval}
  {
  }
}
