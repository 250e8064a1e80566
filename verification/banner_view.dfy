/**
 * The carousel view as a whole: construction from layout attributes, the
 * public operations, the child-attach validator, and the events the main
 * thread delivers to it (its own ticks and the list's scroll states).
 */
module BannerView {
  import opened JavaInt
  import opened Wrappers
  import opened Config
  import opened Carousel
  import AdapterWrapper
  import Autoplay
  import ScrollCoordinator

  /** `ViewGroup.LayoutParams.MATCH_PARENT`. */
  const MatchParent: int32 := -1

  /**
   * Which behaviour the view follows: the code as written, or the code with
   * its five defects repaired (`start` clears the queue, the last step of a
   * page move is clamped, `setAdapter` unregisters the previous observer,
   * `destroy` detaches the scroll listener that is attached, and a list that
   * enters SETTLING while a page is exactly aligned has the listener
   * re-attached and a tick posted, and a tick delivered while autoplay is
   * off does nothing but leave the queue).
   */
  datatype Build = AsWritten | Corrected

  /** The view: its settings, the carousel state, the adapter wrapper, and whether the child validator is registered. */
  datatype Banner = Banner(
    config: Settings,
    carousel: State,
    wrapper: AdapterWrapper.Wrapper,
    validating: bool)

  /** What the view reads from outside itself: the wrapped adapter's item count and its measured size. */
  datatype Env = Env(count: int32, viewport: Viewport)

  /** The item count of the wrapped adapter, if there is one. */
  function Backing(b: Banner, env: Env): (r: Option<int32>)
    ensures r.None? <==> b.wrapper.current.None?
    ensures r.Some? ==> r.value == env.count
  {
    if b.wrapper.current.None? then None else Some(env.count)
  }

  /** `start` in the given build. */
  function StartIn(build: Build, c: Settings, s: State): (r: State)
    ensures r.running
    ensures s.running ==> r == s
    ensures !s.running && build == AsWritten ==> r.pending == s.pending + multiset{c.gapInterval}
    ensures !s.running && build == Corrected ==> r.pending == multiset{c.gapInterval}
  {
    match build
    case AsWritten => Autoplay.Start(c, s)
    case Corrected => Autoplay.StartCancelling(c, s)
  }

  /**
   * Construction (`init`): settings from the attributes, the listeners
   * attached, an empty wrapper, and autoplay started when `autoStart` holds.
   */
  function Create(build: Build, a: Attributes): (b: Banner)
    ensures b.config == FromAttributes(a)
    ensures b.carousel.running <==> a.autoStart != Some(false)
    ensures b.carousel.pending == if a.autoStart == Some(false) then multiset{} else multiset{DefaultGapInterval}
    ensures b.carousel.index == 0 && !b.carousel.working && b.carousel.scrolled == 0
    ensures b.carousel.listening && b.validating
    ensures b.wrapper == AdapterWrapper.Unset && AdapterWrapper.SingleSubscription(b.wrapper)
  {
    var c := FromAttributes(a);
    Banner(c, if c.autoStart then StartIn(build, c, Initial) else Initial, AdapterWrapper.Unset, true)
  }

  /**
   * `setAdapter` on the view: the wrapper takes the adapter, the list jumps
   * to position 0 and the index is reset. A page move under way is not
   * cancelled: its ticks and its distance carry over.
   */
  function SetAdapter(build: Build, b: Banner, a: Option<AdapterWrapper.AdapterId>): (r: (Banner, seq<Command>))
    ensures r.0.wrapper.current == a
    ensures build == AsWritten ==> r.0.wrapper == AdapterWrapper.SetAdapter(b.wrapper, a).wrapper
    ensures build == Corrected && AdapterWrapper.SingleSubscription(b.wrapper) ==>
              AdapterWrapper.SingleSubscription(r.0.wrapper)
    ensures r.0.carousel == b.carousel.(index := 0)
    ensures r.0.config == b.config && r.0.validating == b.validating
    ensures r.1 == [ScrollTo(0)]
  {
    var w := match build
             case AsWritten => AdapterWrapper.SetAdapter(b.wrapper, a)
             case Corrected => AdapterWrapper.SetAdapterReplacing(b.wrapper, a);
    (b.(wrapper := w.wrapper, carousel := b.carousel.(index := 0)), [ScrollTo(0)])
  }

  /**
   * `destroy`: the child-attach listeners are cleared. As written, the scroll
   * listener it removes is a freshly created one, so the attached listener
   * stays; the corrected build detaches it. Autoplay keeps its queue in both.
   */
  function Destroy(build: Build, b: Banner): (r: Banner)
    ensures !r.validating
    ensures build == AsWritten ==> r.carousel == b.carousel
    ensures build == Corrected ==> !r.carousel.listening
    ensures r.carousel.(listening := b.carousel.listening) == b.carousel
    ensures r.config == b.config && r.wrapper == b.wrapper
  {
    match build
    case AsWritten => b.(validating := false)
    case Corrected => b.(validating := false, carousel := b.carousel.(listening := false))
  }

  /**
   * `onChildViewAttachedToWindow`: a page whose width or height is not
   * `MATCH_PARENT` is a configuration error. After `destroy` nothing is
   * checked.
   */
  function ChildAttached(b: Banner, width: int32, height: int32): (r: Outcome<Fault>)
    ensures r.Fail? <==> b.validating && (width != MatchParent || height != MatchParent)
    ensures r.Fail? ==> r.error == IllegalStateException
  {
    if b.validating && (width != MatchParent || height != MatchParent) then Fail(IllegalStateException)
    else Pass
  }

  /** Something that happens to the view. */
  datatype Event =
    | Started
    | Stopped
    | AdapterSet(adapter: Option<AdapterWrapper.AdapterId>)
    | TickDelivered(delay: int)                      // the main thread runs the tick posted with this delay
    | ScrollStateChanged(layout: ScrollCoordinator.Layout, state: ScrollCoordinator.ScrollState)
    | ChildViewAttached(width: int32, height: int32)
    | Destroyed
    | GapIntervalSet(ms: int32)
    | ScrollDurationSet(ms: int32)
    | OrientationSet(o: Orientation)

  /** The view after an event and the calls it made on its list. */
  datatype Step = Step(banner: Banner, commands: seq<Command>)

  /**
   * The view's response to one event. A tick runs only if one was queued
   * with that delay, and in the corrected build only while autoplay is on; a scroll state reaches the listener only while it is
   * attached. Only three things can throw: a tick with a scroll duration
   * strictly between -10 and 10 milliseconds (`duration / 10 == 0`), a fling with no view to measure, and a page of
   * the wrong size.
   */
  function Handle(build: Build, b: Banner, env: Env, e: Event): (r: Result<Step, Fault>)
    ensures r.Failure? ==>
              || (e.TickDelivered? && r.error == ArithmeticException)
              || (e.ScrollStateChanged? && r.error == NullPointerException)
              || (e.ChildViewAttached? && r.error == IllegalStateException)
    ensures r.Success? && !e.AdapterSet? ==> r.value.banner.wrapper == b.wrapper
    ensures r.Success? && !(e.GapIntervalSet? || e.ScrollDurationSet? || e.OrientationSet?) ==>
              r.value.banner.config == b.config
    ensures r.Success? && !(e.Started? || e.Stopped?) ==> r.value.banner.carousel.running == b.carousel.running
    ensures r.Success? && !e.Destroyed? ==> r.value.banner.validating == b.validating
    ensures r.Success? && e.Stopped? ==> r.value.banner.carousel.pending <= b.carousel.pending
    ensures e.TickDelivered? && e.delay !in b.carousel.pending ==> r == Success(Step(b, []))
    ensures e.ScrollStateChanged? && !b.carousel.listening ==> r == Success(Step(b, []))
    ensures build == Corrected && AdapterWrapper.SingleSubscription(b.wrapper) && r.Success? ==>
              AdapterWrapper.SingleSubscription(r.value.banner.wrapper)
    ensures build == Corrected && !b.carousel.running && !e.Started? && r.Success? ==>
              && !r.value.banner.carousel.running
              && forall i :: 0 <= i < |r.value.commands| ==> !r.value.commands[i].ScrollBy?
  {
    match e
    case Started => Success(Step(b.(carousel := StartIn(build, b.config, b.carousel)), []))
    case Stopped => Success(Step(b.(carousel := Autoplay.Stop(b.carousel)), []))
    case AdapterSet(a) =>
      var (next, cmds) := SetAdapter(build, b, a);
      Success(Step(next, cmds))
    case TickDelivered(d) =>
      if d !in b.carousel.pending then Success(Step(b, []))
      else if build == Corrected && !b.carousel.running then
        Success(Step(b.(carousel := b.carousel.(pending := b.carousel.pending - multiset{d})), []))
      else
        var f := Autoplay.Measure(b.config, Backing(b, env), env.viewport);
        var t := Autoplay.Fire(f, b.carousel, d, build == Corrected);
        if t.Failure? then Failure(t.error)
        else Success(Step(b.(carousel := t.value.next), t.value.commands))
    case ScrollStateChanged(layout, state) =>
      if !b.carousel.listening then Success(Step(b, []))
      else
        var r := match build
                 case AsWritten => ScrollCoordinator.OnScrollStateChanged(b.config, env.viewport, layout, state, b.carousel)
                 case Corrected => ScrollCoordinator.OnScrollStateChangedResuming(b.config, env.viewport, layout, state, b.carousel);
        if r.Failure? then Failure(r.error)
        else Success(Step(b.(carousel := r.value.next), r.value.commands))
    case ChildViewAttached(w, h) =>
      var o := ChildAttached(b, w, h);
      if o.Fail? then Failure(o.error) else Success(Step(b, []))
    case Destroyed => Success(Step(Destroy(build, b), []))
    case GapIntervalSet(ms) => Success(Step(b.(config := WithGapInterval(b.config, ms)), []))
    case ScrollDurationSet(ms) => Success(Step(b.(config := WithScrollDuration(b.config, ms)), []))
    case OrientationSet(o) => Success(Step(b.(config := WithOrientation(b.config, o)), []))
  }

  /** A sequence of events, in order; the first failure ends it. */
  function Replay(build: Build, b: Banner, env: Env, events: seq<Event>): (r: Result<Step, Fault>)
    ensures r.Success? && (forall i :: 0 <= i < |events| ==> !events[i].AdapterSet?) ==>
              r.value.banner.wrapper == b.wrapper
    ensures r.Success? && (forall i :: 0 <= i < |events| ==> !events[i].Destroyed?) ==>
              r.value.banner.validating == b.validating
    ensures build == Corrected && AdapterWrapper.SingleSubscription(b.wrapper) && r.Success? ==>
              AdapterWrapper.SingleSubscription(r.value.banner.wrapper)
    decreases |events|
  {
    if events == [] then Success(Step(b, []))
    else
      var first := Handle(build, b, env, events[0]);
      if first.Failure? then Failure(first.error)
      else
        var rest := Replay(build, first.value.banner, env, events[1..]);
        if rest.Failure? then rest
        else Success(Step(rest.value.banner, first.value.commands + rest.value.commands))
  }

  /**
   * In the corrected build every adapter the view was ever given is heard
   * exactly when it is the wrapped one, once per change, whatever happened
   * since construction.
   */
  lemma CorrectedForwardsOnlyCurrent<P>(a: Attributes, env: Env, events: seq<Event>, source: AdapterWrapper.AdapterId,
                                        c: AdapterWrapper.Change<P>)
    ensures var r := Replay(Corrected, Create(Corrected, a), env, events);
            r.Success? ==>
              AdapterWrapper.Dispatch(r.value.banner.wrapper, source, c)
              == if r.value.banner.wrapper.current == Some(source) then AdapterWrapper.Forward(c) else []
  {
    var r := Replay(Corrected, Create(Corrected, a), env, events);
    if r.Success? {
      assert AdapterWrapper.SingleSubscription(r.value.banner.wrapper);
    }
  }

  /** As written, swapping the adapter leaves the replaced one heard; the corrected view stops hearing it. */
  lemma AdapterSwapScenario<P>(b: Banner, first: AdapterWrapper.AdapterId, second: AdapterWrapper.AdapterId,
                               c: AdapterWrapper.Change<P>)
    requires first != second && b.wrapper == AdapterWrapper.Unset
    ensures var once := SetAdapter(AsWritten, b, Some(first)).0;
            var twice := SetAdapter(AsWritten, once, Some(second)).0;
            AdapterWrapper.Dispatch(twice.wrapper, first, c) == AdapterWrapper.Forward(c)
    ensures var once := SetAdapter(Corrected, b, Some(first)).0;
            var twice := SetAdapter(Corrected, once, Some(second)).0;
            && AdapterWrapper.Dispatch(twice.wrapper, first, c) == []
            && AdapterWrapper.Dispatch(twice.wrapper, second, c) == AdapterWrapper.Forward(c)
  {
    AdapterWrapper.ReplacedAdapterStillForwarded(first, second, c);
    var once := SetAdapter(Corrected, b, Some(first)).0;
    AdapterWrapper.ReplacingForwardsOnlyCurrent(once.wrapper, Some(second), first, c);
    AdapterWrapper.ReplacingForwardsOnlyCurrent(once.wrapper, Some(second), second, c);
  }

  /** Once destroyed, the view accepts pages of any size; before, a page of the wrong width is refused. */
  lemma DestroyedAcceptsAnyPage(build: Build, b: Banner, width: int32, height: int32)
    ensures ChildAttached(Destroy(build, b), width, height) == Pass
    ensures b.validating && width != MatchParent ==> ChildAttached(b, width, height) == Fail(IllegalStateException)
  {
  }

  /**
   * As written, a destroyed view still reacts to a drag: the scroll listener
   * was never removed, so the drag still empties the queue.
   */
  lemma DestroyKeepsScrollListener(b: Banner, env: Env, layout: ScrollCoordinator.Layout)
    requires b.carousel.listening && b.carousel.pending != multiset{}
    ensures var r := Handle(AsWritten, Destroy(AsWritten, b), env, ScrollStateChanged(layout, ScrollCoordinator.Dragging));
            r.Success? && r.value.banner.carousel.pending == multiset{} && r.value.banner.carousel != b.carousel
  {
  }

  /** In the corrected build, no scroll state reaches a destroyed view any more. */
  lemma DestroyedIgnoresScrollStates(b: Banner, env: Env, layout: ScrollCoordinator.Layout, state: ScrollCoordinator.ScrollState)
    ensures var d := Destroy(Corrected, b);
            Handle(Corrected, d, env, ScrollStateChanged(layout, state)) == Success(Step(d, []))
  {
  }

  /**
   * Starting and then stopping leaves nothing that could move the carousel:
   * no tick is queued, so a delivered tick of any delay does nothing.
   */
  lemma StartStopThenNothingMoves(build: Build, b: Banner, env: Env, d: int)
    ensures var r := Replay(build, b, env, [Started, Stopped, TickDelivered(d)]);
            && r.Success?
            && r.value.commands == []
            && r.value.banner.carousel.pending == multiset{}
            && !r.value.banner.carousel.running
            && r.value.banner.carousel.index == b.carousel.index
  {
    var e := [Started, Stopped, TickDelivered(d)];
    var s1 := Handle(build, b, env, e[0]).value;
    var s2 := Handle(build, s1.banner, env, e[1]).value;
    assert s2.banner.carousel.pending == multiset{};
    assert Handle(build, s2.banner, env, e[2]) == Success(Step(s2.banner, []));
    assert e[1..] == [Stopped, TickDelivered(d)] && e[1..][1..] == [TickDelivered(d)] && e[1..][1..][1..] == [];
    assert Replay(build, s2.banner, env, []) == Success(Step(s2.banner, []));
    assert Replay(build, s2.banner, env, [TickDelivered(d)]) == Success(Step(s2.banner, [] + []));
  }

  /**
   * A drag right after `start` cancels the queued tick: the tick that was
   * due after the gap no longer runs, and nothing scrolls.
   */
  lemma DragBeforeFirstTick(build: Build, b: Banner, env: Env, layout: ScrollCoordinator.Layout)
    requires !b.carousel.running && b.carousel.pending == multiset{} && b.carousel.listening
    ensures var r := Replay(build, b, env, [Started, ScrollStateChanged(layout, ScrollCoordinator.Dragging),
                                            TickDelivered(b.config.gapInterval)]);
            && r.Success?
            && r.value.commands == []
            && r.value.banner.carousel.index == b.carousel.index
            && r.value.banner.carousel.running
  {
    var e := [Started, ScrollStateChanged(layout, ScrollCoordinator.Dragging), TickDelivered(b.config.gapInterval)];
    var s1 := Handle(build, b, env, e[0]).value;
    assert s1.banner.carousel.pending == multiset{b.config.gapInterval};
    var s2 := Handle(build, s1.banner, env, e[1]).value;
    assert s2.banner.carousel.pending == multiset{};
    assert Handle(build, s2.banner, env, e[2]) == Success(Step(s2.banner, []));
    assert e[1..] == [e[1], e[2]] && e[1..][1..] == [e[2]] && e[1..][1..][1..] == [];
    assert Replay(build, s2.banner, env, []) == Success(Step(s2.banner, []));
    assert Replay(build, s2.banner, env, [e[2]]) == Success(Step(s2.banner, [] + []));
    assert Handle(build, s1.banner, env, e[1]) == Success(s2) && s2.commands == [];
    assert [e[1], e[2]][1..] == [e[2]];
  }

  /**
   * With a single backing item, the tick that falls due after the gap only
   * posts itself again: the index does not move and nothing scrolls.
   */
  lemma SingleItemTickIsIdle(build: Build, b: Banner, env: Env)
    requires b.wrapper.current.Some? && env.count == 1
    requires b.config.gapInterval in b.carousel.pending
    ensures var r := Handle(build, b, env, TickDelivered(b.config.gapInterval));
            && r.Success?
            && r.value.commands == []
            && r.value.banner.carousel.index == b.carousel.index
            && (build == AsWritten || b.carousel.running ==> r.value.banner.carousel.pending == b.carousel.pending)
            && (build == Corrected && !b.carousel.running ==>
                  r.value.banner.carousel.pending == b.carousel.pending - multiset{b.config.gapInterval})
  {
    var s, g := b.carousel, b.config.gapInterval;
    var f := Autoplay.Measure(b.config, Backing(b, env), env.viewport);
    assert !f.paged;
    var t := Autoplay.Fire(f, s, g, build == Corrected);
    assert t.value.next.pending == s.pending - multiset{g} + multiset{g} by {
      Autoplay.FirePending(f, s, g, build == Corrected);
    }
  }

  /**
   * The tick the main thread delivers is `run`: as written `Autoplay.Run`,
   * in the corrected build, while autoplay is on, `Autoplay.RunClamped`, each
   * on the queue without the delivered tick.
   */
  lemma TickRunsRun(build: Build, b: Banner, env: Env, d: int)
    requires d in b.carousel.pending
    requires build == AsWritten || b.carousel.running
    ensures var s := b.carousel.(pending := b.carousel.pending - multiset{d});
            var t := if build == AsWritten then Autoplay.Run(b.config, Backing(b, env), env.viewport, s)
                     else Autoplay.RunClamped(b.config, Backing(b, env), env.viewport, s);
            var r := Handle(build, b, env, TickDelivered(d));
            && (r.Failure? <==> t.Failure?)
            && (r.Failure? ==> r.error == t.error)
            && (r.Success? ==> r.value.banner == b.(carousel := t.value.next) && r.value.commands == t.value.commands)
  {
    Autoplay.FireIsRun(b.config, Backing(b, env), env.viewport, b.carousel, d);
  }

  /**
   * As written, a stopped carousel still pages: after `stop`, a scroll that
   * comes to rest posts a tick, and that tick scrolls a step while autoplay
   * reports itself off.
   */
  lemma StoppedCarouselKeepsPaging(b: Banner, env: Env, layout: ScrollCoordinator.Layout)
    requires b.carousel.running && b.carousel.listening && !b.carousel.working
    requires b.wrapper.current.Some? && env.count > 1 && b.config.scrollDuration >= PerScrollTimeMillis
    ensures var r := Replay(AsWritten, b, env, [Stopped, ScrollStateChanged(layout, ScrollCoordinator.Idle),
                                                TickDelivered(b.config.gapInterval)]);
            && r.Success?
            && !r.value.banner.carousel.running
            && |r.value.commands| == 2
            && r.value.commands[1] == ScrollAlong(b.config.orientation, Autoplay.PerStep(b.config, env.viewport))
  {
    var e := [Stopped, ScrollStateChanged(layout, ScrollCoordinator.Idle), TickDelivered(b.config.gapInterval)];
    var s1 := Handle(AsWritten, b, env, e[0]).value;
    assert s1.banner.carousel.pending == multiset{} && !s1.banner.carousel.working;
    var s2 := Handle(AsWritten, s1.banner, env, e[1]).value;
    assert s2.banner.carousel.pending == multiset{b.config.gapInterval};
    var s3 := Handle(AsWritten, s2.banner, env, e[2]).value;
    TickRunsRun(AsWritten, s2.banner, env, b.config.gapInterval);
    assert s3.commands == [ScrollAlong(b.config.orientation, Autoplay.PerStep(b.config, env.viewport))];
    assert !s3.banner.carousel.running;
    assert e[1..] == [e[1], e[2]] && e[1..][1..] == [e[2]] && e[1..][1..][1..] == [];
    assert Replay(AsWritten, s3.banner, env, []) == Success(Step(s3.banner, []));
    assert Replay(AsWritten, s2.banner, env, [e[2]]) == Success(Step(s3.banner, s3.commands + []));
    assert [e[1], e[2]][1..] == [e[2]];
    assert Replay(AsWritten, s1.banner, env, [e[1], e[2]]) == Success(Step(s3.banner, s2.commands + (s3.commands + [])));
  }

  /**
   * In the corrected build a stopped carousel never scrolls a step until it
   * is started again: whatever else happens, no `scrollBy` is issued and
   * autoplay stays off.
   */
  lemma {:induction false} CorrectedStoppedNeverSteps(b: Banner, env: Env, events: seq<Event>)
    requires !b.carousel.running
    requires forall i :: 0 <= i < |events| ==> !events[i].Started?
    ensures var r := Replay(Corrected, b, env, events);
            r.Success? ==>
              && !r.value.banner.carousel.running
              && forall i :: 0 <= i < |r.value.commands| ==> !r.value.commands[i].ScrollBy?
    decreases |events|
  {
    if events != [] {
      var first := Handle(Corrected, b, env, events[0]);
      if first.Success? {
        CorrectedStoppedNeverSteps(first.value.banner, env, events[1..]);
      }
    }
  }

  /**
   * With three backing items and a page move of positive steps, the first
   * page move after `start` ends on index 1, which shows item 1, with the
   * next page move queued after the gap.
   */
  lemma ThreeItemsAdvanceToSecond(c: Settings, v: Viewport)
    requires c.scrollDuration >= PerScrollTimeMillis
    requires 0 < Extent(c.orientation, v) <= 0x4000_0000 && Autoplay.PerStep(c, v) > 0
    ensures var s := Autoplay.Start(c, Initial);
            var f := Autoplay.Measure(c, Some(3), v);
            var k := Autoplay.TicksToFinish(0, f.per.value, f.extent);
            var r := Autoplay.Animate(f, s, c.gapInterval, k, false);
            && r.Success?
            && r.value.next.index == 1
            && AdapterWrapper.RealPosition(Some(3), r.value.next.index) == 1
            && r.value.next.pending == multiset{c.gapInterval}
  {
    var s := Autoplay.Start(c, Initial);
    Autoplay.MeasurePageMove(c, Some(3), v, s);
    var f := Autoplay.Measure(c, Some(3), v);
    Autoplay.AnimationCompletes(f, s, c.gapInterval);
    assert multiset{c.gapInterval} - multiset{c.gapInterval} + multiset{c.gapInterval} == multiset{c.gapInterval};
  }

  /**
   * On a 1000-pixel-wide carousel, a fling whose first visible page still
   * shows 400 pixels moves on to the next page; one that shows 500 snaps back.
   */
  lemma FlingThresholdScenario(build: Build, b: Banner, env: Env, position: int32)
    requires b.carousel.listening && b.config.orientation == Horizontal
    requires env.viewport.width == 1000 && 0 <= position < MaxValue
    ensures var at40 := ScrollCoordinator.Layout(ScrollCoordinator.NoPosition, ScrollCoordinator.NoPosition, position,
                                                 Some(ScrollCoordinator.ViewEdges(400, 0)));
            var r := Handle(build, b, env, ScrollStateChanged(at40, ScrollCoordinator.Settling));
            r.Success? && r.value.banner.carousel.index == position + 1
    ensures var at50 := ScrollCoordinator.Layout(ScrollCoordinator.NoPosition, ScrollCoordinator.NoPosition, position,
                                                 Some(ScrollCoordinator.ViewEdges(500, 0)));
            var r := Handle(build, b, env, ScrollStateChanged(at50, ScrollCoordinator.Settling));
            r.Success? && r.value.banner.carousel.index == position
  {
  }

  /**
   * A view built without autostart, scrolled to rest and then started: as
   * written it holds two ticks, the one the scroll listener re-armed and the
   * one `start` posted, each of which drives the carousel; the corrected
   * build holds one.
   */
  lemma IdleThenStartScenario(build: Build, env: Env, layout: ScrollCoordinator.Layout)
    ensures var b := Create(build, Attributes(None, Some(false), None));
            var r := Replay(build, b, env, [ScrollStateChanged(layout, ScrollCoordinator.Idle), Started]);
            && r.Success?
            && r.value.banner.carousel.running
            && r.value.banner.carousel.pending
               == if build == AsWritten then multiset{DefaultGapInterval, DefaultGapInterval}
                  else multiset{DefaultGapInterval}
  {
    var b := Create(build, Attributes(None, Some(false), None));
    var e := [ScrollStateChanged(layout, ScrollCoordinator.Idle), Started];
    var s1 := Handle(build, b, env, e[0]).value;
    assert s1.banner.carousel.pending == multiset{DefaultGapInterval};
    var s2 := Handle(build, s1.banner, env, e[1]).value;
    assert e[1..] == [e[1]] && e[1..][1..] == [];
    assert Replay(build, s2.banner, env, []) == Success(Step(s2.banner, []));
    assert Replay(build, s1.banner, env, [e[1]]) == Success(Step(s2.banner, [] + []));
  }

  /**
   * A running carousel whose list enters SETTLING while a page is exactly aligned:
   * as written nothing is left queued and `start` cannot change that; the
   * corrected build keeps a tick queued.
   */
  lemma AlignedFlingScenario(build: Build, b: Banner, env: Env, layout: ScrollCoordinator.Layout)
    requires b.carousel.running && b.carousel.listening
    requires layout.firstCompletelyVisible != ScrollCoordinator.NoPosition
    ensures var r := Replay(build, b, env, [ScrollStateChanged(layout, ScrollCoordinator.Settling), Started]);
            && r.Success?
            && r.value.banner.carousel.running
            && (build == AsWritten ==> r.value.banner.carousel.pending == multiset{})
            && (build == Corrected ==> |r.value.banner.carousel.pending| == 1)
  {
    var e := [ScrollStateChanged(layout, ScrollCoordinator.Settling), Started];
    var s1 := Handle(build, b, env, e[0]).value;
    var s2 := Handle(build, s1.banner, env, e[1]).value;
    assert s2.banner.carousel == s1.banner.carousel;
    assert e[1..] == [e[1]] && e[1..][1..] == [];
    assert Replay(build, s2.banner, env, []) == Success(Step(s2.banner, []));
    assert Replay(build, s1.banner, env, [e[1]]) == Success(Step(s2.banner, [] + []));
  }
}
