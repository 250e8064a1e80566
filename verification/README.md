# XMBannerView carousel, modelled in Dafny

`XMBannerView` is an Android view that shows a `RecyclerView` as an
auto-rotating banner. This project models its logic with the Android
framework replaced by plain inputs:

- the adapter wrapper that makes a finite list look boundless:
  `getRealPosition`, `getItemCount`, binding, and the observer that
  forwards change signals;
- the autoplay scheduler: `start`, `stop`, and the stepped tick `run`,
  which moves one page as a series of `scrollBy` steps ten milliseconds
  apart;
- the scroll listener: a drag cancels the tick, a fling snaps by the 45 %
  threshold, and an idle list snaps to its last completely visible page;
- construction defaults, getters and setters, `setAdapter`, `destroy`, and
  the child-attach validator, which demands `MATCH_PARENT` pages;
- the view as a whole, as a function from one event to the next state.
  An event is a start or stop, a setter, a delivered tick, or a scroll
  state.

Java `int` arithmetic is explicit (module `JavaInt`): 32-bit wrap-around,
and division and remainder that truncate toward zero.

Four Java exceptions become `Failure` values:
- a scroll duration strictly between -10 and 10 ms (`duration / 10 == 0`)
  divides by zero in `run`;
- a fling with no view at the first visible position dereferences null;
- a page that is not `MATCH_PARENT` is refused;
- binding a page with no adapter set dereferences null (`BindIndex`).

The main-thread queue only ever holds the view itself. It is therefore the
multiset of delays that ticks were posted with, and `removeCallbacks`
empties it. Which queued tick runs next is chosen by whoever delivers the
events. The measured size is an input (`Viewport`), and so is what the
layout manager reports (`ScrollCoordinator.Layout`).

Each of the six defects under "## Findings" is modelled twice: once as
written and once corrected. The view as a whole (`BannerView.Handle`)
takes a `Build` argument that selects between the two.

Modules follow the class structure:

| module | file |
|---|---|
| `Wrappers` | `wrappers.dfy` |
| `JavaInt` | `java_int.dfy` |
| `Config` | `config.dfy` |
| `AdapterWrapper` | `adapter_wrapper.dfy` |
| `Carousel` | `carousel.dfy` |
| `Autoplay` | `autoplay.dfy` |
| `ScrollCoordinator` | `scroll_coordinator.dfy` |
| `BannerView` | `banner_view.dfy` |

## Model

Helpers without a row are covered by the rows of the members that use
them. `Autoplay.AdvanceIn` (lines 306-314), `Autoplay.TickIn` (lines
286-315) and `Carousel.ScrollAlong` (lines 301-304) are stated through
`Autoplay.Run`, `Autoplay.RunClamped` and `Autoplay.FireTravel`.
`ScrollCoordinator.ResumeDelay` (lines 229-232 and 246-249) is stated
through `ScrollCoordinator.OnScrollStateChanged`.

| member | source | states |
|---|---|---|
| JavaInt.Add | lib/src/main/java/com/zhang/lib/banner/view/XMBannerView.java:306 | Java `int` addition: the exact sum when it fits, otherwise the value congruent to it modulo 2^32 in the `int` range |
| JavaInt.Div | lib/src/main/java/com/zhang/lib/banner/view/XMBannerView.java:297-298 | Java `int` division: the floor quotient for non-negative operands, the quotient rounded toward zero in general, and `MIN_VALUE` for `MIN_VALUE / -1` |
| JavaInt.DivTruncates | lib/src/main/java/com/zhang/lib/banner/view/XMBannerView.java:297-298 | the quotient's magnitude is the largest count of whole divisors that fit in the dividend; a non-zero quotient is negative exactly when the signs differ |
| JavaInt.Rem | lib/src/main/java/com/zhang/lib/banner/view/XMBannerView.java:393 | Java `%`: smaller in magnitude than the divisor, with the sign of the dividend, and the floor remainder for non-negative operands |
| JavaInt.DivRemIdentity | lib/src/main/java/com/zhang/lib/banner/view/XMBannerView.java:393 | `(a / b) * b + a % b == a` for every non-zero divisor (section 15.17.3 of the Java Language Specification) |
| Config.FromAttributes | lib/src/main/java/com/zhang/lib/banner/view/XMBannerView.java:79-89 | the gap is always 3000 ms and the duration always 500 ms; autostart is on unless declared off; the orientation is vertical only when declared vertical |
| Config.GapAttributeIgnored | lib/src/main/java/com/zhang/lib/banner/view/XMBannerView.java:82-83 | two layouts that declare different gap intervals start with the same gap |
| Config.WithGapInterval | lib/src/main/java/com/zhang/lib/banner/view/XMBannerView.java:135-137 | `setGapInterval` changes the gap to the argument and no other setting |
| Config.WithScrollDuration | lib/src/main/java/com/zhang/lib/banner/view/XMBannerView.java:145-147 | `setScrollDuration` changes the duration to the argument and no other setting |
| Config.WithOrientation | lib/src/main/java/com/zhang/lib/banner/view/XMBannerView.java:116-121 | `setOrientation` changes the orientation and no other setting |
| Config.SetToCurrentIsIdentity | lib/src/main/java/com/zhang/lib/banner/view/XMBannerView.java:125-147 | setting each value to what its getter returns changes nothing |
| AdapterWrapper.RealPosition | lib/src/main/java/com/zhang/lib/banner/view/XMBannerView.java:388-394 | with no adapter or an empty one the position is returned unchanged; with `n > 0` items a non-negative position maps to `position % n`, in `[0, n)`; the result is always smaller in magnitude than `n` |
| AdapterWrapper.ItemCount | lib/src/main/java/com/zhang/lib/banner/view/XMBannerView.java:396-403 | 0 exactly for no adapter or an empty one, 1 exactly for one item, `Integer.MAX_VALUE` exactly otherwise |
| AdapterWrapper.BindIndex | lib/src/main/java/com/zhang/lib/banner/view/XMBannerView.java:411-414 | binding with no adapter throws a null dereference; otherwise the backing adapter binds the real position |
| AdapterWrapper.BoundPositionsAreValid | lib/src/main/java/com/zhang/lib/banner/view/XMBannerView.java:396-414 | every position in `[0, getItemCount())` binds an index in `[0, n)` of the backing list |
| AdapterWrapper.EveryItemIsReachable | lib/src/main/java/com/zhang/lib/banner/view/XMBannerView.java:388-403 | every backing index is a bindable position that maps to itself, so the mapping is onto the backing list |
| AdapterWrapper.RealPositionIdempotent | lib/src/main/java/com/zhang/lib/banner/view/XMBannerView.java:388-394 | mapping an already-mapped position changes nothing, for every adapter and position, negative ones included |
| AdapterWrapper.RealPositionPeriodic | lib/src/main/java/com/zhang/lib/banner/view/XMBannerView.java:388-394 | positions `n` apart show the same backing item |
| AdapterWrapper.Echo | lib/src/main/java/com/zhang/lib/banner/view/XMBannerView.java:329-378 | the call each override makes itself: the same kind of notification with the same arguments and payload, except that a move drops its item count |
| AdapterWrapper.Forward | lib/src/main/java/com/zhang/lib/banner/view/XMBannerView.java:329-378 | one observer re-emits a change with payload twice, first as a range change without payload (its superclass call at line 349 reaches the override at lines 339-344), then with the payload; every other change once, as its echo (the other superclass calls do nothing) |
| AdapterWrapper.ForwardLosesOnlyMoveCount | lib/src/main/java/com/zhang/lib/banner/view/XMBannerView.java:370-376 | two changes that forward alike are equal, or they are moves that differ only in item count |
| AdapterWrapper.SetAdapter | lib/src/main/java/com/zhang/lib/banner/view/XMBannerView.java:323-380 | the wrapper holds the new adapter; a non-null one gains one observer and the list is refreshed; a null one returns before refreshing; no other adapter's observers change |
| AdapterWrapper.Dispatch | lib/src/main/java/com/zhang/lib/banner/view/XMBannerView.java:329-378 | a change raised by an adapter produces one observer's forwarded notifications once per observer registered on it, back to back |
| AdapterWrapper.FreshAdapterForwardsOnce | lib/src/main/java/com/zhang/lib/banner/view/XMBannerView.java:323-380 | an adapter set on a fresh wrapper has each change forwarded by exactly one observer |
| AdapterWrapper.ReplacedAdapterStillForwarded | lib/src/main/java/com/zhang/lib/banner/view/XMBannerView.java:323-329 | as written, a replaced adapter is still heard, and an adapter set twice has every forwarded notification repeated |
| AdapterWrapper.SetAdapterReplacing | lib/src/main/java/com/zhang/lib/banner/view/XMBannerView.java:323-380 | the corrected `setAdapter` keeps the invariant that exactly the wrapped adapter carries one observer |
| AdapterWrapper.ReplacingForwardsOnlyCurrent | lib/src/main/java/com/zhang/lib/banner/view/XMBannerView.java:323-380 | with the corrected `setAdapter`, a change is forwarded by one observer if its adapter is the wrapped one and not at all otherwise |
| Autoplay.Stop | lib/src/main/java/com/zhang/lib/banner/view/XMBannerView.java:157-163 | autoplay is off afterwards; stopping a running carousel empties the queue; stopping a stopped one changes nothing; nothing but the flag and the queue changes |
| Autoplay.Start | lib/src/main/java/com/zhang/lib/banner/view/XMBannerView.java:166-174 | autoplay is on afterwards; starting a running carousel changes nothing; otherwise one tick at the gap interval is added to what is queued, and nothing else changes |
| Autoplay.StartIdempotent | lib/src/main/java/com/zhang/lib/banner/view/XMBannerView.java:166-169 | `start(); start()` equals `start()` |
| Autoplay.StartThenStopQuiesces | lib/src/main/java/com/zhang/lib/banner/view/XMBannerView.java:157-174 | `start(); stop()` leaves no tick queued, autoplay off, and index, distance and move flag as they were |
| Autoplay.StartFromQuietQueuesOne | lib/src/main/java/com/zhang/lib/banner/view/XMBannerView.java:166-174 | from a stopped carousel with nothing queued, `start` queues exactly one tick at the gap interval |
| Autoplay.StartKeepsStrayTick | lib/src/main/java/com/zhang/lib/banner/view/XMBannerView.java:158-172 | as written, a tick queued while stopped survives `start`, which leaves two ticks |
| Autoplay.StartCancelling | lib/src/main/java/com/zhang/lib/banner/view/XMBannerView.java:166-174 | the corrected `start`: a stopped carousel ends with exactly one tick, at the gap interval, whatever was queued |
| Autoplay.StartCancellingQueuesOne | lib/src/main/java/com/zhang/lib/banner/view/XMBannerView.java:166-174 | the corrected `start` leaves one queued tick and is idempotent |
| Autoplay.Measure | lib/src/main/java/com/zhang/lib/banner/view/XMBannerView.java:287-298 | a tick pages exactly when the wrapper reports more than one item; the step is missing exactly when `duration / 10` is zero; otherwise the step is `extent / (duration / 10)` along the orientation's axis |
| Autoplay.Run | lib/src/main/java/com/zhang/lib/banner/view/XMBannerView.java:286-315 | with at most one item, a tick only re-posts itself after the gap; a duration strictly between -10 and 10 ms (`duration / 10 == 0`) throws an arithmetic exception; otherwise it scrolls one whole step and either posts the next step at 10 ms with the move flag set, or resets the distance, advances the index by one, clears the flag and posts at the gap; the queue gains exactly the posted tick |
| Autoplay.RunClamped | lib/src/main/java/com/zhang/lib/banner/view/XMBannerView.java:301-314 | the corrected tick: the same state changes as `run`, but the last step scrolls only the distance left on the page |
| Autoplay.Fire | lib/src/main/java/com/zhang/lib/banner/view/XMBannerView.java:286-315 | delivering a queued tick keeps the autoplay flag and the listener, and leaves the tick it posts in the queue; `FireIsRun` ties it to `Run` |
| Autoplay.FireIsRun | lib/src/main/java/com/zhang/lib/banner/view/XMBannerView.java:286-315 | delivering a queued tick is `run` on the queue without that tick: `Run` as written, `RunClamped` with the last step clamped, so every effect stated for them holds for a delivered tick |
| Autoplay.FirePending | lib/src/main/java/com/zhang/lib/banner/view/XMBannerView.java:286-315 | a delivered tick leaves the queue less itself plus the tick it posted |
| Autoplay.Animate | lib/src/main/java/com/zhang/lib/banner/view/XMBannerView.java:306-314 | a chain of ticks, each delivering the one the previous posted, keeps the autoplay flag and the listener and leaves its last tick queued |
| Autoplay.AnimatePending | lib/src/main/java/com/zhang/lib/banner/view/XMBannerView.java:306-314 | a chain of any length consumes the tick it started from and leaves exactly the one it posted last; every other queued tick is untouched |
| Autoplay.AnimateFollowsGlide | lib/src/main/java/com/zhang/lib/banner/view/XMBannerView.java:294-314 | with more than one item and a measurable step, a chain of ticks never fails, and it moves index, distance and flag exactly as the page arithmetic does |
| Autoplay.FireTravel | lib/src/main/java/com/zhang/lib/banner/view/XMBannerView.java:301-306 | a tick scrolls exactly the step its page arithmetic takes |
| Autoplay.AnimateTravelFollowsGlide | lib/src/main/java/com/zhang/lib/banner/view/XMBannerView.java:301-314 | a chain of ticks scrolls the total distance the page arithmetic covers |
| Autoplay.TicksToFinish | lib/src/main/java/com/zhang/lib/banner/view/XMBannerView.java:306-308 | a single step finishes the page exactly when one step reaches the extent |
| Autoplay.TicksToFinishBrackets | lib/src/main/java/com/zhang/lib/banner/view/XMBannerView.java:306-308 | `k` steps cover the remaining distance and `k - 1` steps do not |
| Autoplay.TicksToFinishIsCeiling | lib/src/main/java/com/zhang/lib/banner/view/XMBannerView.java:306-314 | the tick count of a page move is `ceil((extent - scrolled) / per)` |
| Autoplay.GlideInProgress | lib/src/main/java/com/zhang/lib/banner/view/XMBannerView.java:306-308 | short of the last step, `j` steps keep the index, keep the move flag set, add `j` steps to the distance and post at 10 ms |
| Autoplay.GlideCompletes | lib/src/main/java/com/zhang/lib/banner/view/XMBannerView.java:306-314 | after the counted steps: the index has advanced by one, the distance is zero, the flag is clear and the gap is posted; the steps cover whole steps, or exactly the rest of the page when the last one is clamped |
| Autoplay.AnimationInProgress | lib/src/main/java/com/zhang/lib/banner/view/XMBannerView.java:300-308 | partway through a page move, `j` ticks leave the index alone, the move under way, `j * per` scrolled and the next step queued at 10 ms |
| Autoplay.AnimationCompletes | lib/src/main/java/com/zhang/lib/banner/view/XMBannerView.java:300-314 | a page move takes `ceil((extent - scrolled) / per)` ticks; the index advances by exactly one; the distance and flag are reset; the gap tick replaces the starting tick in the queue; and `ticks * per` is scrolled |
| Autoplay.ClampedAnimationTravelsOnePage | lib/src/main/java/com/zhang/lib/banner/view/XMBannerView.java:301-314 | with the last step clamped, a page move scrolls exactly the distance left on the page and advances the index by one |
| Autoplay.ZeroStepStalls | lib/src/main/java/com/zhang/lib/banner/view/XMBannerView.java:298-308 | with a zero step, any number of ticks scrolls nothing and never changes the index |
| Autoplay.MeasureZeroStep | lib/src/main/java/com/zhang/lib/banner/view/XMBannerView.java:297-298 | a page narrower than `duration / 10` pixels measures a zero step |
| Autoplay.MeasurePageMove | lib/src/main/java/com/zhang/lib/banner/view/XMBannerView.java:294-298 | settings with more than one item, a duration of at least 10 ms and a positive step measure a frame on which a page move completes |
| Autoplay.OvershootExample | lib/src/main/java/com/zhang/lib/banner/view/XMBannerView.java:294-314 | as written, a 1080-pixel page at the default duration is moved in 52 steps that scroll 1092 pixels |
| ScrollCoordinator.AdvancesIsFortyFivePercent | lib/src/main/java/com/zhang/lib/banner/view/XMBannerView.java:217 | the integer test `100 * edge < 45 * extent` agrees with `edge < extent * 0.45` on the reals |
| ScrollCoordinator.SettleTarget | lib/src/main/java/com/zhang/lib/banner/view/XMBannerView.java:214-226 | the target is the next position when the trailing edge on the orientation's axis is below the threshold, else the first visible position |
| ScrollCoordinator.OnScrollStateChanged | lib/src/main/java/com/zhang/lib/banner/view/XMBannerView.java:191-251 | drag: empties the queue and nothing else. SETTLING with a page exactly aligned: detaches the listener, stops the list, empties the queue. Fling with no view: null dereference. Other fling: index set to a target of `position` or `position + 1`, listener re-attached, one tick queued. Idle: index set to the last completely visible page or kept, one tick added to the queue. Ticks are posted at 0 during a page move, else at the gap. Autoplay flag, distance and move flag never change |
| ScrollCoordinator.SettleFollowsThreshold | lib/src/main/java/com/zhang/lib/banner/view/XMBannerView.java:210-226 | a fling that has to snap goes to `position + 1` exactly when the edge is below 45 % of the extent, and stays at `position` exactly otherwise |
| ScrollCoordinator.SettleTieStays | lib/src/main/java/com/zhang/lib/banner/view/XMBannerView.java:217-225 | an edge exactly at 45 % stays on the first visible page |
| ScrollCoordinator.EventQueuesAtMostOne | lib/src/main/java/com/zhang/lib/banner/view/XMBannerView.java:194-249 | no scroll state adds more than one tick to the queue |
| ScrollCoordinator.AlignedSettleHaltsAutoplay | lib/src/main/java/com/zhang/lib/banner/view/XMBannerView.java:202-208 | as written, entering SETTLING with a page exactly aligned leaves nothing queued and the listener detached while autoplay still counts as running, so a later `start` queues nothing |
| ScrollCoordinator.OnScrollStateChangedResuming | lib/src/main/java/com/zhang/lib/banner/view/XMBannerView.java:202-234 | the corrected listener: entering SETTLING with a page exactly aligned re-attaches the listener and queues one tick, as the other fling branch does; every other case is unchanged |
| ScrollCoordinator.ResumingSettleKeepsTicking | lib/src/main/java/com/zhang/lib/banner/view/XMBannerView.java:202-249 | with the corrected listener, an attached listener stays attached and every scroll state except a drag leaves a tick queued |
| ScrollCoordinator.DragCancelsPendingTick | lib/src/main/java/com/zhang/lib/banner/view/XMBannerView.java:194-198 | a drag on a running carousel empties the queue, issues no command and leaves autoplay on |
| ScrollCoordinator.IdleRearmsStoppedCarousel | lib/src/main/java/com/zhang/lib/banner/view/XMBannerView.java:238-249 | an idle event queues a tick at the gap even when autoplay is stopped |
| BannerView.StartIn | lib/src/main/java/com/zhang/lib/banner/view/XMBannerView.java:166-174 | in both builds `start` leaves autoplay on and does nothing when already running; as written it adds one gap tick to the queue; corrected, the queue becomes exactly one gap tick |
| BannerView.Create | lib/src/main/java/com/zhang/lib/banner/view/XMBannerView.java:92-109 | a new view has the attribute settings; autoplay is on with one gap tick queued exactly when autostart is not declared off; index 0 at rest; listeners attached; an empty wrapper |
| BannerView.SetAdapter | lib/src/main/java/com/zhang/lib/banner/view/XMBannerView.java:150-154 | the wrapper holds the new adapter and the list jumps to position 0 with the index reset; the rest of the carousel state, including a page move under way, carries over |
| BannerView.Destroy | lib/src/main/java/com/zhang/lib/banner/view/XMBannerView.java:182-185 | the validator is gone; as written the carousel state, the scroll listener included, is untouched; corrected, only the listener is detached |
| BannerView.ChildAttached | lib/src/main/java/com/zhang/lib/banner/view/XMBannerView.java:259-267 | while the validator is registered, a page fails with an illegal-state exception exactly when its width or height is not `MATCH_PARENT` |
| BannerView.Handle | lib/src/main/java/com/zhang/lib/banner/view/XMBannerView.java:150-315 | each kind of event can raise only its own exception; only adapter events change the wrapper, only setters the settings, only start and stop the autoplay flag, only destroy the validator; a tick that is not queued and a scroll state with the listener detached do nothing; the corrected build keeps one observer per wrapped adapter, and there a stopped view issues no `scrollBy` and stays stopped until `start` |
| BannerView.Replay | lib/src/main/java/com/zhang/lib/banner/view/XMBannerView.java:150-315 | over any event sequence without adapter events the wrapper is unchanged, and without destroy the validator is; the corrected build keeps one observer per wrapped adapter throughout |
| BannerView.CorrectedForwardsOnlyCurrent | lib/src/main/java/com/zhang/lib/banner/view/XMBannerView.java:323-380 | after any event sequence from construction, the corrected view has an adapter's change forwarded by one observer if it is the wrapped adapter and not at all otherwise |
| BannerView.AdapterSwapScenario | lib/src/main/java/com/zhang/lib/banner/view/XMBannerView.java:150-154 | swapping adapter A for B: as written A is still heard; corrected, only B is heard, through one observer |
| BannerView.DestroyedAcceptsAnyPage | lib/src/main/java/com/zhang/lib/banner/view/XMBannerView.java:182-183 | after `destroy` every page size is accepted, while before it a page of the wrong width is refused |
| BannerView.DestroyKeepsScrollListener | lib/src/main/java/com/zhang/lib/banner/view/XMBannerView.java:182-185 | as written, a drag after `destroy` still empties the queue |
| BannerView.DestroyedIgnoresScrollStates | lib/src/main/java/com/zhang/lib/banner/view/XMBannerView.java:182-185 | corrected, no scroll state reaches a destroyed view |
| BannerView.StartStopThenNothingMoves | lib/src/main/java/com/zhang/lib/banner/view/XMBannerView.java:157-174 | start, stop, then a tick of any delay: nothing scrolls, nothing is queued, autoplay is off, the index is unchanged |
| BannerView.DragBeforeFirstTick | lib/src/main/java/com/zhang/lib/banner/view/XMBannerView.java:194-195 | start, drag, then the gap tick: nothing scrolls and the index is unchanged, with autoplay still on |
| BannerView.SingleItemTickIsIdle | lib/src/main/java/com/zhang/lib/banner/view/XMBannerView.java:287-290 | with one item, the gap tick scrolls nothing, keeps the index and re-queues itself; in the corrected build a tick delivered while autoplay is off is only consumed |
| BannerView.TickRunsRun | lib/src/main/java/com/zhang/lib/banner/view/XMBannerView.java:286-315 | the view's tick is `Run` (as written) or `RunClamped` (corrected, autoplay on) on the queue without the delivered tick: it fails exactly when they fail, with their exception, and otherwise leaves their state and issues their commands |
| BannerView.ThreeItemsAdvanceToSecond | lib/src/main/java/com/zhang/lib/banner/view/XMBannerView.java:306-314 | with three items, the first page move after `start` ends on index 1, which shows item 1, with the next gap tick queued |
| BannerView.FlingThresholdScenario | lib/src/main/java/com/zhang/lib/banner/view/XMBannerView.java:214-220 | on a 1000-pixel carousel, a fling leaving 400 pixels of the page in view advances and one leaving 500 pixels stays |
| BannerView.AlignedFlingScenario | lib/src/main/java/com/zhang/lib/banner/view/XMBannerView.java:202-208 | a running carousel whose list enters SETTLING with a page exactly aligned, then started: as written nothing is queued; corrected, one tick is |
| BannerView.StoppedCarouselKeepsPaging | lib/src/main/java/com/zhang/lib/banner/view/XMBannerView.java:238-306 | as written, after `stop` a scroll that comes to rest queues a gap tick, and that tick scrolls a step while autoplay reports itself off |
| BannerView.CorrectedStoppedNeverSteps | lib/src/main/java/com/zhang/lib/banner/view/XMBannerView.java:286-306 | corrected, after any events without `start`, a stopped view has issued no `scrollBy` and is still stopped |
| BannerView.IdleThenStartScenario | lib/src/main/java/com/zhang/lib/banner/view/XMBannerView.java:166-172 | built without autostart, scrolled to rest and then started: as written two gap ticks are queued, corrected one |

## Left out

- Android plumbing is left out. This covers view construction and layout parameters, `LinearLayoutManager`, measurement, `TypedArray` parsing, `Log` calls, and `onCreateViewHolder` delegation (lines 407-409). What these produce is an input instead: `Attributes`, `Viewport` and `Layout`, and an adapter is seen through its item count.
- The Handler's real time is not modelled. The queue is a multiset of delays, and the caller picks which queued tick is delivered next.
- The null checks on the layout manager (lines 117 and 197) are not modelled. The view installs a manager at line 100 and never removes it.
- Orientation values other than `HORIZONTAL` and `VERTICAL` are not modelled, because the layout manager rejects them. The orientation is read as a setting, not from the layout manager (lines 125-127).
- The 45 % comparison (lines 217 and 222) is exact rational arithmetic. The rounding of `double` `0.45` at an exact tie is not reproduced.
- A single `Viewport` stands for both the list's measured size (line 294) and the host's measured size (lines 217 and 222). The list is a `MATCH_PARENT` child of the host (line 96), so the two agree only when the host has no padding along the scrolling axis. With padding, the list is smaller than the host, and the real 45 % threshold is measured against the larger host size. The model does not tell the two sizes apart.
- AdapterWrapper.Forward: the backing adapter's observable delivers a range change without payload as the callback with a `null` payload, so in practice every range change reaches the observer as `RangeChangedWith` and is re-emitted twice. The `RangeChanged` callback is kept as the override at lines 339-344 defines it.
- ScrollCoordinator.OnScrollStateChanged: on the null-view failure the model drops the state. The Java code has by then already detached the listener and emptied the queue (lines 203-205), and those effects are not kept.
- BannerView.Handle: any `Failure` likewise discards the partial updates the Java code made before throwing.
- BannerView.Replay: the backing item count and the viewport are fixed over a sequence of events. The adapter's own contents changing between events is not modelled.
- AdapterWrapper.SetAdapter: `notifyDataSetChanged` is reported as a flag. The list's reaction to it is not modelled.
- Autoplay.AnimationCompletes: covers a positive step within a page of at most 2^30 pixels only. A zero step is covered by `Autoplay.ZeroStepStalls`. Extents beyond that bound are not covered, because there the distance itself could wrap.
- Getters (`getGapInterval`, `getScrollDuration`, `isRunning`, `getOrientation`, `getAdapter`) are not separate members. Each is the corresponding field of `Settings`, `State` or `Wrapper`.
- `onChildViewDetachedFromWindow` is not modelled, because it does nothing (lines 270-271).
- The demo application is not part of this model. It is UI wiring with no logic of its own.
- Concurrency is not modelled, because everything runs on the main thread.

## Findings

| source | as written | input that shows it | evidently intended | confidence | as-written member | corrected member |
|---|---|---|---|---|---|---|
| lib/src/main/java/com/zhang/lib/banner/view/XMBannerView.java:323-329 | every `setAdapter` registers a new observer on the adapter and never unregisters the previous one | set adapter A, then B: a change in A still reaches the list; set A twice: every change is forwarded twice | only the wrapped adapter is observed, once | high, not executed | AdapterWrapper.ReplacedAdapterStillForwarded | AdapterWrapper.ReplacingForwardsOnlyCurrent |
| lib/src/main/java/com/zhang/lib/banner/view/XMBannerView.java:166-172 | `start` calls `stop`, which returns at once when autoplay is off, so ticks queued meanwhile are not removed | autostart off, the list comes to rest (the scroll listener queues a tick), then `start()`: two ticks are queued and each drives the carousel | `start` leaves exactly one tick queued | high, not executed | Autoplay.StartKeepsStrayTick | Autoplay.StartCancellingQueuesOne |
| lib/src/main/java/com/zhang/lib/banner/view/XMBannerView.java:298-314 | every step of a page move, the last included, scrolls a whole `perScrollDistance` | a 1080-pixel-wide carousel at the default 500 ms: 52 steps of 21 pixels scroll 1092 pixels, 12 past the page | a page move scrolls exactly one page | medium, not executed | Autoplay.OvershootExample | Autoplay.ClampedAnimationTravelsOnePage |
| lib/src/main/java/com/zhang/lib/banner/view/XMBannerView.java:182-185 | `destroy` removes a newly created scroll listener, not the one attached at line 102 | `destroy()`, then a drag: the attached listener still runs and empties the queue | `destroy` detaches the attached listener | high, not executed | BannerView.DestroyKeepsScrollListener | BannerView.DestroyedIgnoresScrollStates |
| lib/src/main/java/com/zhang/lib/banner/view/XMBannerView.java:202-208 | when the list enters SETTLING with a page exactly aligned, the listener detaches itself and removes the queued tick, then returns without re-attaching or re-posting, while `isRunning` stays true | the list of a running carousel enters SETTLING while a page is exactly aligned (`findFirstCompletelyVisibleItemPosition` is not `NO_POSITION`), which line 204 has already stopped: nothing is queued, no scroll event reaches the view, and `start()` does nothing because autoplay still counts as running | the fling finishes like the other branch (lines 228-232): listener re-attached, tick posted | medium, not executed | ScrollCoordinator.AlignedSettleHaltsAutoplay | ScrollCoordinator.ResumingSettleKeepsTicking |
| lib/src/main/java/com/zhang/lib/banner/view/XMBannerView.java:286-306 | `run` never reads `isRunning`, and the scroll listener posts a tick at lines 246-249 whatever `isRunning` says | `stop()`, then the list comes to rest: the listener queues a gap tick, and when it is delivered the carousel scrolls a step, and goes on paging, while `isRunning()` is false | a tick delivered after `stop` does nothing | medium, not executed | BannerView.StoppedCarouselKeepsPaging | BannerView.CorrectedStoppedNeverSteps |
