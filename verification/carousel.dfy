/**
 * The mutable state of the carousel view and the commands it issues to its
 * list, shared by the autoplay scheduler and the scroll coordinator.
 */
module Carousel {
  import opened JavaInt
  import opened Config

  /** A call the carousel makes on its `RecyclerView`. */
  datatype Command =
    | ScrollBy(dx: int32, dy: int32)        // scrollBy
    | SmoothScrollTo(position: int32)       // smoothScrollToPosition
    | ScrollTo(position: int32)             // scrollToPosition
    | StopScroll                            // stopScroll

  /**
   * The view's fields. The main-thread queue only ever holds the view itself
   * as a callback, so it is the multiset of the delays it was posted with;
   * `removeCallbacks` empties it. `listening` says whether the scroll listener
   * is attached to the list.
   */
  datatype State = State(
    index: int32,              // mCurrentIndex
    running: bool,             // isRunning
    working: bool,             // isWorking: a page move is under way
    scrolled: int32,           // mHasScrolledDistance
    pending: multiset<int>,    // delays of the posted, not yet delivered ticks
    listening: bool)

  /** The state right after construction, before autostart. */
  const Initial: State := State(0, false, false, 0, multiset{}, true)

  /** One `scrollBy` of `distance` along the scrolling axis. */
  function ScrollAlong(o: Orientation, distance: int32): Command {
    match o
    case Horizontal => ScrollBy(distance, 0)
    case Vertical => ScrollBy(0, distance)
  }

  /** The total distance the `scrollBy` commands in `cmds` move the list. */
  function Travel(cmds: seq<Command>): int {
    if cmds == [] then 0
    else (match cmds[0] case ScrollBy(dx, dy) => dx + dy case _ => 0) + Travel(cmds[1..])
  }
}
