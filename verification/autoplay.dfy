/**
 * The autoplay scheduler: `start`, `stop` and the stepped tick `run`, which
 * moves one page as a series of `scrollBy` steps ten milliseconds apart.
 */
module Autoplay {
  import opened JavaInt
  import opened Wrappers
  import opened Config
  import opened Carousel
  import AdapterWrapper

  /** `stop`: cancels every pending tick, unless autoplay is not running. */
  function Stop(s: State): (r: State)
    ensures !r.running
    ensures s.running ==> r.pending == multiset{}
    ensures !s.running ==> r == s
    ensures r.(running := s.running, pending := s.pending) == s
  {
    if !s.running then s else s.(pending := multiset{}, running := false)
  }

  /**
   * `start`: posts one tick after the gap interval. Its call to `stop` does
   * nothing when autoplay is not running, so ticks already queued stay.
   */
  function Start(c: Settings, s: State): (r: State)
    ensures r.running
    ensures s.running ==> r == s
    ensures !s.running ==> r.pending == s.pending + multiset{c.gapInterval}
    ensures r.(running := s.running, pending := s.pending) == s
  {
    if s.running then s
    else
      var t := Stop(s);
      t.(pending := t.pending + multiset{c.gapInterval}, running := true)
  }

  /** Starting twice is starting once. */
  lemma StartIdempotent(c: Settings, s: State)
    ensures Start(c, Start(c, s)) == Start(c, s)
  {
  }

  /** Starting then stopping leaves nothing queued and autoplay off. */
  lemma StartThenStopQuiesces(c: Settings, s: State)
    ensures Stop(Start(c, s)).pending == multiset{}
    ensures !Stop(Start(c, s)).running
    ensures Stop(Start(c, s)).(running := s.running, pending := s.pending) == s
  {
  }

  /** From a quiet, stopped carousel, `start` queues exactly one tick, at the gap interval. */
  lemma StartFromQuietQueuesOne(c: Settings, s: State)
    requires !s.running && s.pending == multiset{}
    ensures Start(c, s).pending == multiset{c.gapInterval}
  {
  }

  /** A tick that was queued while autoplay was off survives `start`: two ticks are then queued. */
  lemma StartKeepsStrayTick(c: Settings, s: State, d: int)
    requires !s.running && s.pending == multiset{d}
    ensures |Start(c, s).pending| == 2
    ensures Start(c, s).pending[c.gapInterval] >= 1 && Start(c, s).pending[d] >= 1
  {
  }

  /** `start` with the queue cleared first, as the call to `stop` evidently means to. */
  function StartCancelling(c: Settings, s: State): (r: State)
    ensures r.running
    ensures s.running ==> r == s
    ensures !s.running ==> r.pending == multiset{c.gapInterval}
    ensures r.(running := s.running, pending := s.pending) == s
  {
    if s.running then s
    else s.(pending := multiset{c.gapInterval}, running := true)
  }

  /** Whatever was queued, a stopped carousel holds exactly one tick once started. */
  lemma StartCancellingQueuesOne(c: Settings, s: State)
    requires !s.running
    ensures |StartCancelling(c, s).pending| == 1
    ensures StartCancelling(c, StartCancelling(c, s)) == StartCancelling(c, s)
  {
  }

  // ---------------------------------------------------------------------------
  // The tick

  /** One delivered tick: the new state, the delay it posted itself with, and what it scrolled. */
  datatype Tick = Tick(next: State, posted: int, commands: seq<Command>)

  /** The number of animation steps a page move is divided into (`needScrollCount`). */
  function StepCount(c: Settings): int32 {
    Div(c.scrollDuration, PerScrollTimeMillis)
  }

  /** The distance of one animation step (`perScrollDistance`). */
  function PerStep(c: Settings, v: Viewport): int32
    requires StepCount(c) != 0
  {
    Div(Extent(c.orientation, v), StepCount(c))
  }

  /**
   * What `run` reads before it moves: whether there is more than one page,
   * the scrolling axis, the page extent, the step distance (absent when the
   * step count is zero and the division throws) and the gap interval.
   */
  datatype Frame = Frame(paged: bool, orientation: Orientation, extent: int32, per: Option<int32>, gap: int32)

  function Measure(c: Settings, backing: Option<int32>, v: Viewport): (f: Frame)
    ensures f.paged <==> AdapterWrapper.ItemCount(backing) > 1
    ensures f.per.None? <==> StepCount(c) == 0
    ensures f.per.Some? ==> f.per.value == PerStep(c, v)
    ensures f.extent == Extent(c.orientation, v) && f.orientation == c.orientation && f.gap == c.gapInterval
  {
    Frame(AdapterWrapper.ItemCount(backing) > 1, c.orientation, Extent(c.orientation, v),
          if StepCount(c) == 0 then None else Some(PerStep(c, v)), c.gapInterval)
  }

  /** The part of the state a tick moves: the page index, the working flag and the distance covered. */
  datatype Position = Position(index: int32, working: bool, scrolled: int32)

  function PositionOf(s: State): Position {
    Position(s.index, s.working, s.scrolled)
  }

  /** One step of a page move: where it leaves the position, the delay it re-posts with, and how far it scrolls. */
  datatype Advance = Advance(to: Position, posted: int, step: int32)

  /**
   * The page arithmetic of `run` once it knows the step: one more step, or,
   * when the distance reaches the extent, the last one. `clampFinal` makes
   * the last step scroll only what is left of the page.
   */
  function AdvanceIn(f: Frame, p: Position, clampFinal: bool): Advance
    requires f.per.Some?
  {
    var per := f.per.value;
    var done := Add(p.scrolled, per);
    if done < f.extent then
      Advance(Position(p.index, true, done), PerScrollTimeMillis, per)
    else
      Advance(Position(Add(p.index, 1), false, 0), f.gap, if clampFinal then Wrap(f.extent - p.scrolled) else per)
  }

  /** The body of `run` on a measured frame. */
  function TickIn(f: Frame, s: State, clampFinal: bool): Result<Tick, Fault> {
    if !f.paged then
      Success(Tick(s.(pending := s.pending + multiset{f.gap}), f.gap, []))
    else if f.per.None? then
      Failure(ArithmeticException)
    else
      var a := AdvanceIn(f, PositionOf(s), clampFinal);
      Success(Tick(s.(index := a.to.index, working := a.to.working, scrolled := a.to.scrolled,
                      pending := s.pending[a.posted := s.pending[a.posted] + 1]),
                   a.posted, [ScrollAlong(f.orientation, a.step)]))
  }

  /**
   * What one tick does to the state, whichever way its last step is
   * measured: the degenerate re-post, the division by zero, an intermediate
   * step or the step that completes a page.
   */
  ghost predicate TickEffect(c: Settings, backing: Option<int32>, v: Viewport, s: State, r: Result<Tick, Fault>) {
    && (AdapterWrapper.ItemCount(backing) <= 1 ==>
          r == Success(Tick(s.(pending := s.pending + multiset{c.gapInterval}), c.gapInterval, [])))
    && (AdapterWrapper.ItemCount(backing) > 1 ==> (r.Failure? <==> StepCount(c) == 0))
    && (r.Failure? ==> r.error == ArithmeticException)
    && (r.Success? ==> r.value.next.pending == s.pending + multiset{r.value.posted})
    && (r.Success? ==> r.value.next.running == s.running && r.value.next.listening == s.listening)
    && (r.Success? && AdapterWrapper.ItemCount(backing) > 1 ==>
          var extent, per := Extent(c.orientation, v), PerStep(c, v);
          && |r.value.commands| == 1
          && (Add(s.scrolled, per) < extent ==>
                && r.value.next.(pending := s.pending) == s.(working := true, scrolled := Add(s.scrolled, per))
                && r.value.posted == PerScrollTimeMillis
                && r.value.commands[0] == ScrollAlong(c.orientation, per))
          && (Add(s.scrolled, per) >= extent ==>
                && r.value.next.(pending := s.pending)
                   == s.(working := false, scrolled := 0, index := Add(s.index, 1))
                && r.value.posted == c.gapInterval))
  }

  /**
   * `run`: with at most one page it only re-posts itself after the gap
   * interval; otherwise it scrolls one step, and either posts the next step
   * after ten milliseconds or, once a page's extent is covered, resets the
   * distance, advances the index and waits for the gap interval. A scroll
   * duration strictly between -10 and 10 milliseconds (`duration / 10 == 0`)
   * divides by zero.
   */
  function Run(c: Settings, backing: Option<int32>, v: Viewport, s: State): (r: Result<Tick, Fault>)
    ensures TickEffect(c, backing, v, s, r)
    ensures r.Success? && AdapterWrapper.ItemCount(backing) > 1 ==>
              r.value.commands == [ScrollAlong(c.orientation, PerStep(c, v))]
  {
    TickIn(Measure(c, backing, v), s, false)
  }

  /** `run` with the last step cut to the distance left on the page. */
  function RunClamped(c: Settings, backing: Option<int32>, v: Viewport, s: State): (r: Result<Tick, Fault>)
    ensures TickEffect(c, backing, v, s, r)
    ensures r.Success? && AdapterWrapper.ItemCount(backing) > 1 && Add(s.scrolled, PerStep(c, v)) >= Extent(c.orientation, v) ==>
              r.value.commands == [ScrollAlong(c.orientation, Wrap(Extent(c.orientation, v) - s.scrolled))]
  {
    TickIn(Measure(c, backing, v), s, true)
  }

  /** The main thread delivers the queued tick posted with delay `d`. */
  function Fire(f: Frame, s: State, d: int, clampFinal: bool): (r: Result<Tick, Fault>)
    requires d in s.pending
    ensures r.Success? ==> r.value.posted in r.value.next.pending
    ensures r.Success? ==> r.value.next.running == s.running && r.value.next.listening == s.listening
  {
    TickIn(f, s.(pending := s.pending[d := s.pending[d] - 1]), clampFinal)
  }

  /** A delivered tick leaves the queue as it was, less itself, plus the tick it posted. */
  lemma FirePending(f: Frame, s: State, d: int, clampFinal: bool)
    requires d in s.pending
    ensures var r := Fire(f, s, d, clampFinal);
            r.Success? ==> r.value.next.pending == s.pending - multiset{d} + multiset{r.value.posted}
  {
  }

  /**
   * A delivered tick is `run` on the queue without it: the as-written tick
   * is `Run` and the clamped one `RunClamped`, so every effect their
   * contracts state holds for the tick the main thread delivers.
   */
  lemma FireIsRun(c: Settings, backing: Option<int32>, v: Viewport, s: State, d: int)
    requires d in s.pending
    ensures Fire(Measure(c, backing, v), s, d, false) == Run(c, backing, v, s.(pending := s.pending - multiset{d}))
    ensures Fire(Measure(c, backing, v), s, d, true) == RunClamped(c, backing, v, s.(pending := s.pending - multiset{d}))
  {
    assert s.pending[d := s.pending[d] - 1] == s.pending - multiset{d};
  }

  /** Where a chain of ticks leaves the carousel, the tick it queued last, and how far it scrolled in all. */
  datatype Playback = Playback(next: State, posted: int, travelled: int)

  /** `n` ticks, each delivering the one the previous tick posted, starting with the one posted at `d`. */
  function Animate(f: Frame, s: State, d: int, n: nat, clampFinal: bool): (r: Result<Playback, Fault>)
    requires d in s.pending
    ensures r.Success? ==> r.value.posted in r.value.next.pending
    ensures r.Success? ==> r.value.next.running == s.running && r.value.next.listening == s.listening
    decreases n
  {
    if n == 0 then Success(Playback(s, d, 0))
    else
      var t := Fire(f, s, d, clampFinal);
      if t.Failure? then Failure(t.error)
      else
        var rest := Animate(f, t.value.next, t.value.posted, n - 1, clampFinal);
        if rest.Failure? then rest
        else Success(rest.value.(travelled := Travel(t.value.commands) + rest.value.travelled))
  }

  /** A chain of ticks consumes the callback it started from and leaves the one it posted last. */
  lemma {:induction false} AnimatePending(f: Frame, s: State, d: int, n: nat, clampFinal: bool)
    requires d in s.pending
    ensures var r := Animate(f, s, d, n, clampFinal);
            r.Success? ==> r.value.next.pending == s.pending - multiset{d} + multiset{r.value.posted}
    decreases n
  {
    if n == 0 {
      assert s.pending - multiset{d} + multiset{d} == s.pending;
    } else {
      var t := Fire(f, s, d, clampFinal);
      if t.Success? {
        AnimatePending(f, t.value.next, t.value.posted, n - 1, clampFinal);
      }
      AnimatePendingStep(f, s, d, n, clampFinal);
    }
  }

  /** The inductive step of `AnimatePending`: the first tick's requeue composes with the remainder's. */
  lemma AnimatePendingStep(f: Frame, s: State, d: int, n: nat, clampFinal: bool)
    requires d in s.pending && n > 0
    requires var t := Fire(f, s, d, clampFinal);
             t.Success? ==>
               var rest := Animate(f, t.value.next, t.value.posted, n - 1, clampFinal);
               rest.Success? ==>
                 rest.value.next.pending == t.value.next.pending - multiset{t.value.posted} + multiset{rest.value.posted}
    ensures var r := Animate(f, s, d, n, clampFinal);
            r.Success? ==> r.value.next.pending == s.pending - multiset{d} + multiset{r.value.posted}
  {
    var r := Animate(f, s, d, n, clampFinal);
    if r.Success? {
      AnimateQueueUnfold(f, s, d, n, clampFinal);
      FirePending(f, s, d, clampFinal);
      var u := Fire(f, s, d, clampFinal).value;
      assert u.next.pending - multiset{u.posted} == s.pending - multiset{d};
    }
  }

  /** A successful chain leaves the queue and the last delay that its remainder after the first tick leaves. */
  lemma AnimateQueueUnfold(f: Frame, s: State, d: int, n: nat, clampFinal: bool)
    requires d in s.pending && n > 0
    ensures var r := Animate(f, s, d, n, clampFinal);
            var t := Fire(f, s, d, clampFinal);
            r.Success? ==>
              && t.Success?
              && var rest := Animate(f, t.value.next, t.value.posted, n - 1, clampFinal);
              && rest.Success?
              && r.value.next.pending == rest.value.next.pending
              && r.value.posted == rest.value.posted
  {
  }

  /** Where `n` steps of page arithmetic lead, the delay the last one posted, and the distance they cover. */
  datatype Glide = Glide(at: Position, posted: int, travelled: int)

  function GlideIn(f: Frame, p: Position, d: int, n: nat, clampFinal: bool): Glide
    requires f.per.Some?
    decreases n
  {
    if n == 0 then Glide(p, d, 0)
    else
      var a := AdvanceIn(f, p, clampFinal);
      var g := GlideIn(f, a.to, a.posted, n - 1, clampFinal);
      g.(travelled := a.step + g.travelled)
  }

  /**
   * On a frame with pages and a step, a chain of ticks never fails and moves
   * the carousel exactly as the page arithmetic does.
   */
  lemma {:induction false} AnimateFollowsGlide(f: Frame, s: State, d: int, n: nat, clampFinal: bool)
    requires f.paged && f.per.Some? && d in s.pending
    ensures var r := Animate(f, s, d, n, clampFinal);
            var g := GlideIn(f, PositionOf(s), d, n, clampFinal);
            && r.Success?
            && PositionOf(r.value.next) == g.at
            && r.value.posted == g.posted
    decreases n
  {
    if n > 0 {
      var u := Fire(f, s, d, clampFinal).value;
      AnimateFollowsGlide(f, u.next, u.posted, n - 1, clampFinal);
    }
  }

  /** A tick on a frame with pages and a step scrolls exactly the step its page arithmetic takes. */
  lemma FireTravel(f: Frame, s: State, d: int, clampFinal: bool)
    requires f.paged && f.per.Some? && d in s.pending
    ensures var r := Fire(f, s, d, clampFinal);
            && r.Success?
            && PositionOf(r.value.next) == AdvanceIn(f, PositionOf(s), clampFinal).to
            && r.value.posted == AdvanceIn(f, PositionOf(s), clampFinal).posted
            && Travel(r.value.commands) == AdvanceIn(f, PositionOf(s), clampFinal).step
  {
    var a := AdvanceIn(f, PositionOf(s), clampFinal);
    assert Fire(f, s, d, clampFinal).value.commands == [ScrollAlong(f.orientation, a.step)];
  }

  /** ... and the whole chain scrolls the distance the page arithmetic covers. */
  lemma {:induction false} AnimateTravelFollowsGlide(f: Frame, s: State, d: int, n: nat, clampFinal: bool)
    requires f.paged && f.per.Some? && d in s.pending
    ensures var r := Animate(f, s, d, n, clampFinal);
            r.Success? && r.value.travelled == GlideIn(f, PositionOf(s), d, n, clampFinal).travelled
    decreases n
  {
    if n > 0 {
      FireTravel(f, s, d, clampFinal);
      var u := Fire(f, s, d, clampFinal).value;
      AnimateTravelFollowsGlide(f, u.next, u.posted, n - 1, clampFinal);
    }
  }

  /**
   * The number of steps that carry the distance from `scrolled` to at least
   * `extent`.
   */
  function TicksToFinish(scrolled: int, per: int, extent: int): (k: nat)
    requires per > 0 && scrolled < extent
    ensures k == 1 <==> scrolled + per >= extent
    decreases extent - scrolled
  {
    if scrolled + per >= extent then 1
    else 1 + TicksToFinish(scrolled + per, per, extent)
  }

  lemma TicksStep(scrolled: int, per: int, extent: int)
    requires per > 0 && scrolled + per < extent
    ensures TicksToFinish(scrolled, per, extent) == 1 + TicksToFinish(scrolled + per, per, extent)
  {
  }

  /** The distance `j` steps of `per` cover, added up step by step. */
  function Covered(j: nat, per: int): int {
    if j == 0 then 0 else per + Covered(j - 1, per)
  }

  lemma {:induction false} CoveredIsProduct(j: nat, per: int)
    ensures Covered(j, per) == j * per
  {
    if j > 0 {
      CoveredIsProduct(j - 1, per);
      assert per + (j - 1) * per == j * per;
    }
  }

  /** `k` steps cover the remaining distance and `k - 1` steps do not. */
  lemma {:induction false} TicksToFinishBrackets(scrolled: int, per: int, extent: int)
    requires per > 0 && scrolled < extent
    ensures var k := TicksToFinish(scrolled, per, extent);
            Covered(k - 1, per) < extent - scrolled <= Covered(k, per)
    decreases extent - scrolled
  {
    if scrolled + per < extent {
      TicksToFinishBrackets(scrolled + per, per, extent);
    }
  }

  /** The tick count is the rounded-up quotient of the remaining distance by the step. */
  lemma TicksToFinishIsCeiling(scrolled: int, per: int, extent: int)
    requires per > 0 && scrolled < extent
    ensures TicksToFinish(scrolled, per, extent) == (extent - scrolled + per - 1) / per
  {
    var k := TicksToFinish(scrolled, per, extent);
    var x := extent - scrolled + per - 1;
    TicksToFinishBrackets(scrolled, per, extent);
    CoveredIsProduct(k, per);
    CoveredIsProduct(k - 1, per);
    assert per * (k - 1) <= extent - scrolled - 1;
    assert x == per * k + (x - per * k);
    DivModUnique(x, per, k, x - per * k);
  }

  /** A measured frame in which a page move is a finite series of positive steps that cannot overflow. */
  ghost predicate Animating(f: Frame, p: Position) {
    && f.paged
    && f.per.Some?
    && 0 < f.per.value <= f.extent <= 0x4000_0000
    && 0 <= p.scrolled < f.extent
  }

  /**
   * Page arithmetic in progress: `j` steps short of the last leave the
   * index alone, the move under way, `j` steps covered and the next step
   * queued ten milliseconds out.
   */
  lemma {:induction false} GlideInProgress(f: Frame, p: Position, d: int, j: nat, clampFinal: bool)
    requires Animating(f, p)
    requires j < TicksToFinish(p.scrolled, f.per.value, f.extent)
    ensures var g := GlideIn(f, p, d, j, clampFinal);
            && g.travelled == Covered(j, f.per.value)
            && (j > 0 ==> && g.at.index == p.index
                          && g.at.working
                          && g.at.scrolled == p.scrolled + Covered(j, f.per.value)
                          && g.posted == PerScrollTimeMillis)
    decreases j
  {
    if j > 0 {
      var per := f.per.value;
      TicksStep(p.scrolled, per, f.extent);
      GlideInProgress(f, Position(p.index, true, p.scrolled + per), PerScrollTimeMillis, j - 1, clampFinal);
    }
  }

  /**
   * Page arithmetic to the end of a page: after `TicksToFinish` steps the
   * distance is back to zero, the index has advanced by one, the gap interval
   * is queued, and the steps cover that many whole steps, or, with the last
   * step clamped, exactly what was left of the page.
   */
  lemma {:induction false} GlideCompletes(f: Frame, p: Position, d: int, clampFinal: bool)
    requires Animating(f, p)
    ensures var k := TicksToFinish(p.scrolled, f.per.value, f.extent);
            var g := GlideIn(f, p, d, k, clampFinal);
            && g.at == Position(Add(p.index, 1), false, 0)
            && g.posted == f.gap
            && g.travelled == if clampFinal then f.extent - p.scrolled else Covered(k, f.per.value)
    decreases f.extent - p.scrolled
  {
    var per := f.per.value;
    if p.scrolled + per < f.extent {
      TicksStep(p.scrolled, per, f.extent);
      GlideCompletes(f, Position(p.index, true, p.scrolled + per), PerScrollTimeMillis, clampFinal);
    }
  }

  /**
   * A page move in progress: `j` ticks short of the last leave the index
   * alone, the move under way, `j` steps scrolled and the next step queued
   * ten milliseconds out.
   */
  lemma AnimationInProgress(f: Frame, s: State, d: int, j: nat, clampFinal: bool)
    requires Animating(f, PositionOf(s)) && d in s.pending
    requires j < TicksToFinish(s.scrolled, f.per.value, f.extent)
    ensures var r := Animate(f, s, d, j, clampFinal);
            && r.Success?
            && r.value.travelled == j * f.per.value
            && (j > 0 ==> && r.value.next.index == s.index
                          && r.value.next.working
                          && r.value.next.scrolled == s.scrolled + j * f.per.value
                          && r.value.posted == PerScrollTimeMillis)
  {
    AnimateFollowsGlide(f, s, d, j, clampFinal);
    AnimateTravelFollowsGlide(f, s, d, j, clampFinal);
    GlideInProgress(f, PositionOf(s), d, j, clampFinal);
    CoveredIsProduct(j, f.per.value);
  }

  /**
   * One page move, in closed form: it takes the rounded-up quotient of the
   * remaining distance by the step, ends with the index advanced by exactly
   * one, the distance reset and the next page move queued at the gap
   * interval in place of the tick that started it, and, as written, scrolls
   * that many whole steps.
   */
  lemma AnimationCompletes(f: Frame, s: State, d: int)
    requires Animating(f, PositionOf(s)) && d in s.pending
    ensures var per := f.per.value;
            var k := TicksToFinish(s.scrolled, per, f.extent);
            var r := Animate(f, s, d, k, false);
            && k == (f.extent - s.scrolled + per - 1) / per
            && r.Success?
            && PositionOf(r.value.next) == Position(Add(s.index, 1), false, 0)
            && (s.index < MaxValue ==> r.value.next.index == s.index + 1)
            && r.value.posted == f.gap
            && r.value.next.pending == s.pending - multiset{d} + multiset{r.value.posted}
            && r.value.travelled == k * per
  {
    var per := f.per.value;
    var k := TicksToFinish(s.scrolled, per, f.extent);
    TicksToFinishIsCeiling(s.scrolled, per, f.extent);
    AnimateFollowsGlide(f, s, d, k, false);
    AnimateTravelFollowsGlide(f, s, d, k, false);
    GlideCompletes(f, PositionOf(s), d, false);
    AnimatePending(f, s, d, k, false);
    CoveredIsProduct(k, per);
  }

  /** With the last step clamped, a page move scrolls exactly the distance left on the page. */
  lemma ClampedAnimationTravelsOnePage(f: Frame, s: State, d: int)
    requires Animating(f, PositionOf(s)) && d in s.pending
    ensures var k := TicksToFinish(s.scrolled, f.per.value, f.extent);
            var r := Animate(f, s, d, k, true);
            && r.Success?
            && PositionOf(r.value.next) == Position(Add(s.index, 1), false, 0)
            && r.value.travelled == f.extent - s.scrolled
  {
    var k := TicksToFinish(s.scrolled, f.per.value, f.extent);
    AnimateFollowsGlide(f, s, d, k, true);
    AnimateTravelFollowsGlide(f, s, d, k, true);
    GlideCompletes(f, PositionOf(s), d, true);
  }

  /** With a zero step the page arithmetic marks time: the distance never grows and the index never moves. */
  lemma {:induction false} ZeroStepGlideStalls(f: Frame, p: Position, d: int, n: nat, clampFinal: bool)
    requires f.per == Some(0) && 0 <= p.scrolled < f.extent
    ensures var g := GlideIn(f, p, d, n, clampFinal);
            g.at.index == p.index && g.at.scrolled == p.scrolled && g.travelled == 0
    decreases n
  {
    if n > 0 {
      ZeroStepGlideStalls(f, AdvanceIn(f, p, clampFinal).to, PerScrollTimeMillis, n - 1, clampFinal);
    }
  }

  /**
   * A carousel whose extent is smaller than the step count measures a zero
   * step: however many ticks it runs, it scrolls nothing and never reaches
   * the next page.
   */
  lemma ZeroStepStalls(f: Frame, s: State, d: int, n: nat, clampFinal: bool)
    requires f.paged && f.per == Some(0) && 0 <= s.scrolled < f.extent && d in s.pending
    ensures var r := Animate(f, s, d, n, clampFinal);
            r.Success? && r.value.next.index == s.index && r.value.travelled == 0
  {
    AnimateFollowsGlide(f, s, d, n, clampFinal);
    AnimateTravelFollowsGlide(f, s, d, n, clampFinal);
    ZeroStepGlideStalls(f, PositionOf(s), d, n, clampFinal);
  }

  /** A page narrower than the step count, 50 steps by default, measures a zero step. */
  lemma MeasureZeroStep(c: Settings, backing: Option<int32>, v: Viewport)
    requires c.scrollDuration >= PerScrollTimeMillis
    requires 0 <= Extent(c.orientation, v) < StepCount(c)
    ensures Measure(c, backing, v).per == Some(0)
  {
    assert StepCount(c) > 0;
    DivModUnique(Extent(c.orientation, v), StepCount(c), 0, Extent(c.orientation, v));
  }

  /** The settings under which `run` moves a page as a finite series of positive steps. */
  ghost predicate PageMove(c: Settings, backing: Option<int32>, v: Viewport, s: State) {
    && AdapterWrapper.ItemCount(backing) > 1
    && c.scrollDuration >= PerScrollTimeMillis
    && Extent(c.orientation, v) <= 0x4000_0000
    && 0 <= s.scrolled < Extent(c.orientation, v)
    && PerStep(c, v) > 0
  }

  /** Those settings measure to a frame on which a page move completes. */
  lemma MeasurePageMove(c: Settings, backing: Option<int32>, v: Viewport, s: State)
    requires PageMove(c, backing, v, s)
    ensures Animating(Measure(c, backing, v), PositionOf(s))
  {
    NatDivBounds(Extent(c.orientation, v), StepCount(c));
  }

  /**
   * As written, the last step is a whole step, so a page move overshoots
   * whenever the step does not divide the page: a 1080-pixel page with the
   * default 500-millisecond duration moves in 52 steps of 21 pixels, 1092
   * pixels in all.
   */
  lemma OvershootExample(backing: Option<int32>, s: State, d: int)
    requires AdapterWrapper.ItemCount(backing) > 1
    requires s.scrolled == 0 && d in s.pending
    ensures var c := Settings(DefaultGapInterval, DefaultScrollDuration, true, Horizontal);
            var r := Animate(Measure(c, backing, Viewport(1080, 1920)), s, d, 52, false);
            && r.Success?
            && r.value.next.index == Add(s.index, 1)
            && r.value.travelled == 1092
  {
    var c := Settings(DefaultGapInterval, DefaultScrollDuration, true, Horizontal);
    var v := Viewport(1080, 1920);
    var f := Measure(c, backing, v);
    assert StepCount(c) == 50;
    assert f == Frame(true, Horizontal, 1080, Some(21), DefaultGapInterval);
    AnimationCompletes(f, s, d);
    var k := TicksToFinish(s.scrolled, 21, 1080);
    assert k == 52 by {
      assert k == (1080 - 0 + 21 - 1) / 21;
    }
  }
}
