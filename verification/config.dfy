/**
 * Configuration of the carousel: the attribute defaults read at construction
 * (`initAttributeSet`) and the getters and setters of the view.
 */
module Config {
  import opened JavaInt
  import opened Wrappers

  /** `RecyclerView.HORIZONTAL` / `RecyclerView.VERTICAL`. */
  datatype Orientation = Horizontal | Vertical

  const DefaultGapInterval: int32 := 3000
  const DefaultScrollDuration: int32 := 500
  /** The pause between two animation steps, in milliseconds. */
  const PerScrollTimeMillis: int32 := 10

  /** The attributes a layout may declare; `None` when absent. */
  datatype Attributes = Attributes(
    gapInterval: Option<int32>,
    autoStart: Option<bool>,
    orientation: Option<Orientation>)

  datatype Settings = Settings(
    gapInterval: int32,      // mGapInterval, milliseconds between pages
    scrollDuration: int32,   // mScrollDuration, milliseconds one page move takes
    autoStart: bool,
    orientation: Orientation)

  /**
   * `initAttributeSet`: the declared gap interval is read but immediately
   * overwritten by the default, so only `autoStart` and the orientation
   * follow the layout.
   */
  function FromAttributes(a: Attributes): (c: Settings)
    ensures c.gapInterval == DefaultGapInterval && c.scrollDuration == DefaultScrollDuration
    ensures c.autoStart <==> a.autoStart != Some(false)
    ensures c.orientation == Vertical <==> a.orientation == Some(Vertical)
  {
    Settings(DefaultGapInterval, DefaultScrollDuration, a.autoStart.GetOr(true), a.orientation.GetOr(Horizontal))
  }

  /** Whatever gap interval a layout declares, the carousel starts with the same one. */
  lemma GapAttributeIgnored(a: Attributes, b: Attributes)
    ensures FromAttributes(a).gapInterval == FromAttributes(b).gapInterval
  {
  }

  /** `setGapInterval`. */
  function WithGapInterval(c: Settings, ms: int32): (r: Settings)
    ensures r.gapInterval == ms
    ensures r.(gapInterval := c.gapInterval) == c
  {
    c.(gapInterval := ms)
  }

  /** `setScrollDuration`. */
  function WithScrollDuration(c: Settings, ms: int32): (r: Settings)
    ensures r.scrollDuration == ms
    ensures r.(scrollDuration := c.scrollDuration) == c
  {
    c.(scrollDuration := ms)
  }

  /** `setOrientation`, which hands the value to the layout manager. */
  function WithOrientation(c: Settings, o: Orientation): (r: Settings)
    ensures r.orientation == o
    ensures r.(orientation := c.orientation) == c
  {
    c.(orientation := o)
  }

  /** Setting a value back to what its getter returned changes nothing. */
  lemma SetToCurrentIsIdentity(c: Settings)
    ensures WithGapInterval(c, c.gapInterval) == c
    ensures WithScrollDuration(c, c.scrollDuration) == c
    ensures WithOrientation(c, c.orientation) == c
  {
  }

  /** The measured size of the carousel. */
  datatype Viewport = Viewport(width: int32, height: int32)

  /** The size of the carousel along its scrolling axis. */
  function Extent(o: Orientation, v: Viewport): (e: int32)
    ensures e == if o == Horizontal then v.width else v.height
  {
    match o
    case Horizontal => v.width
    case Vertical => v.height
  }
}
