/**
 * The adapter wrapper of the carousel (`XMAdapterWrapper`): it makes a finite
 * backing adapter look boundless by reporting `Integer.MAX_VALUE` items and
 * folding every bound position back onto the backing list, and it forwards the
 * backing adapter's change signals to the carousel's own list.
 *
 * The wrapped adapter is seen through its item count at the moment of the call:
 * `None` stands for no adapter (`mAdapter == null`), `Some(n)` for an adapter
 * that currently holds `n` items.
 */
module AdapterWrapper {
  import opened JavaInt
  import opened Wrappers

  /** `getRealPosition`: the backing index that a virtual position stands for. */
  function RealPosition(backing: Option<int32>, position: int32): (r: int32)
    ensures backing.None? || backing.value == 0 ==> r == position
    ensures backing.Some? && backing.value > 0 && position >= 0 ==>
              r == position % backing.value && 0 <= r < backing.value
    ensures backing.Some? && backing.value != 0 ==> Abs(r) < Abs(backing.value)
  {
    if backing.None? || backing.value == 0 then position else Rem(position, backing.value)
  }

  /** `getItemCount`: nothing, a single fixed page, or a boundless list. */
  function ItemCount(backing: Option<int32>): (r: int32)
    ensures r == 0 <==> backing.None? || backing.value == 0
    ensures r == 1 <==> backing == Some(1)
    ensures r == MaxValue <==> backing.Some? && backing.value != 0 && backing.value != 1
    ensures r >= 0
  {
    if backing.None? || backing.value == 0 then 0
    else if backing.value == 1 then 1
    else MaxValue
  }

  /**
   * `onBindViewHolder`: the backing index the wrapped adapter is asked to bind;
   * with no adapter the call dereferences null.
   */
  function BindIndex(backing: Option<int32>, position: int32): (r: Result<int32, Fault>)
    ensures r.Failure? <==> backing.None?
    ensures r.Failure? ==> r.error == NullPointerException
    ensures r.Success? ==> r.value == RealPosition(backing, position)
  {
    if backing.None? then Failure(NullPointerException)
    else Success(RealPosition(backing, position))
  }

  /** Every position the list may bind lands on an item of the backing list. */
  lemma BoundPositionsAreValid(n: int32, position: int32)
    requires n >= 0
    requires 0 <= position < ItemCount(Some(n))
    ensures BindIndex(Some(n), position).Success?
    ensures 0 <= BindIndex(Some(n), position).value < n
  {
  }

  /** Every backing item is reached by some bindable position: itself. */
  lemma EveryItemIsReachable(n: int32, i: int32)
    requires 0 <= i < n
    ensures i < ItemCount(Some(n))
    ensures RealPosition(Some(n), i) == i
  {
    DivModUnique(i, n, 0, i);
  }

  /** Mapping a position that is already real changes nothing. */
  lemma RealPositionIdempotent(backing: Option<int32>, position: int32)
    ensures RealPosition(backing, RealPosition(backing, position)) == RealPosition(backing, position)
  {
    if backing.Some? && backing.value != 0 {
      var n, r := backing.value, RealPosition(backing, position);
      assert Abs(r) < Abs(n);
      assert Abs(r) % Abs(n) == Abs(r) by {
        DivModUnique(Abs(r), Abs(n), 0, Abs(r));
      }
    }
  }

  /** Positions one backing length apart show the same item. */
  lemma RealPositionPeriodic(n: int32, position: int32)
    requires n > 0 && position >= 0
    requires position + n <= MaxValue
    ensures RealPosition(Some(n), position + n) == RealPosition(Some(n), position)
  {
    var q, m := position / n, position % n;
    assert position == n * q + m && 0 <= m < n;
    assert position + n == n * (q + 1) + m;
    DivModUnique(position + n, n, q + 1, m);
  }

  // ---------------------------------------------------------------------------
  // Change forwarding

  /** Identifies a backing adapter instance. */
  type AdapterId = nat

  /** The shape of a change signal, shared by what is observed and what is re-emitted. */
  datatype Kind = Full | RangeUpdate | RangeUpdateWithPayload | Insertion | Removal | Move

  /** A change signal raised by a backing adapter (`AdapterDataObserver` callbacks). */
  datatype Change<P> =
    | Changed
    | RangeChanged(start: int32, count: int32)
    | RangeChangedWith(start: int32, count: int32, payload: Option<P>)
    | RangeInserted(start: int32, count: int32)
    | RangeRemoved(start: int32, count: int32)
    | RangeMoved(from: int32, to: int32, count: int32)
  {
    function Kind(): Kind {
      match this
      case Changed => Full
      case RangeChanged(_, _) => RangeUpdate
      case RangeChangedWith(_, _, _) => RangeUpdateWithPayload
      case RangeInserted(_, _) => Insertion
      case RangeRemoved(_, _) => Removal
      case RangeMoved(_, _, _) => Move
    }

    /** The integer arguments, in declaration order. */
    function Args(): seq<int> {
      match this
      case Changed => []
      case RangeChanged(s, c) => [s, c]
      case RangeChangedWith(s, c, _) => [s, c]
      case RangeInserted(s, c) => [s, c]
      case RangeRemoved(s, c) => [s, c]
      case RangeMoved(f, t, c) => [f, t, c]
    }
  }

  /** A `notify…` call the wrapper makes on its own observers. */
  datatype Notification<P> =
    | DataSetChanged
    | ItemRangeChanged(start: int32, count: int32)
    | ItemRangeChangedWith(start: int32, count: int32, payload: Option<P>)
    | ItemRangeInserted(start: int32, count: int32)
    | ItemRangeRemoved(start: int32, count: int32)
    | ItemMoved(from: int32, to: int32)
  {
    function Kind(): Kind {
      match this
      case DataSetChanged => Full
      case ItemRangeChanged(_, _) => RangeUpdate
      case ItemRangeChangedWith(_, _, _) => RangeUpdateWithPayload
      case ItemRangeInserted(_, _) => Insertion
      case ItemRangeRemoved(_, _) => Removal
      case ItemMoved(_, _) => Move
    }

    function Args(): seq<int> {
      match this
      case DataSetChanged => []
      case ItemRangeChanged(s, c) => [s, c]
      case ItemRangeChangedWith(s, c, _) => [s, c]
      case ItemRangeInserted(s, c) => [s, c]
      case ItemRangeRemoved(s, c) => [s, c]
      case ItemMoved(f, t) => [f, t]
    }
  }

  /**
   * The `notify…` call an override of the registered observer makes itself:
   * the same kind of signal with the same arguments, except that a move
   * loses its item count.
   */
  function Echo<P>(c: Change<P>): (n: Notification<P>)
    ensures n.Kind() == c.Kind()
    ensures !c.RangeMoved? ==> n.Args() == c.Args()
    ensures c.RangeMoved? ==> n.Args() == c.Args()[..2]
    ensures c.RangeChangedWith? ==> n.payload == c.payload
  {
    match c
    case Changed => DataSetChanged
    case RangeChanged(s, k) => ItemRangeChanged(s, k)
    case RangeChangedWith(s, k, p) => ItemRangeChangedWith(s, k, p)
    case RangeInserted(s, k) => ItemRangeInserted(s, k)
    case RangeRemoved(s, k) => ItemRangeRemoved(s, k)
    case RangeMoved(f, t, _) => ItemMoved(f, t)
  }

  /**
   * Everything the registered observer re-emits for one change. Each override
   * first calls its superclass method: those of `AdapterDataObserver` do
   * nothing, except the one for a change with payload, which hands the
   * change on to the observer's own override for a change without payload.
   * So a change with payload is re-emitted twice, first without its payload;
   * every other change once.
   */
  function Forward<P>(c: Change<P>): (out: seq<Notification<P>>)
    ensures |out| == if c.RangeChangedWith? then 2 else 1
    ensures out[|out| - 1] == Echo(c)
    ensures c.RangeChangedWith? ==> out[0] == ItemRangeChanged(c.start, c.count)
    ensures forall i :: 0 <= i < |out| ==> out[i].Kind() == c.Kind() || (c.RangeChangedWith? && out[i].Kind() == RangeUpdate)
  {
    match c
    case RangeChangedWith(s, k, _) => [Echo(RangeChanged(s, k))] + [Echo(c)]
    case _ => [Echo(c)]
  }

  /** Two changes are forwarded alike only if they differ at most in a move's item count. */
  lemma ForwardLosesOnlyMoveCount<P>(c1: Change<P>, c2: Change<P>)
    requires Forward(c1) == Forward(c2)
    ensures c1 == c2 || (c1.RangeMoved? && c2.RangeMoved? && c1.from == c2.from && c1.to == c2.to)
  {
    var out := Forward(c1);
    var n := out[|out| - 1];
    assert n == Echo(c1) == Echo(c2);
    assert c1.Kind() == c2.Kind();
    if !c1.RangeMoved? && !c1.Changed? {
      assert c1.Args() == n.Args() == c2.Args();
      assert c1.Args()[0] == c2.Args()[0] && c1.Args()[1] == c2.Args()[1];
    }
  }

  /** `n` copies of `xs`, one after another. */
  function Repeat<T>(n: nat, xs: seq<T>): (r: seq<T>)
    ensures |r| == n * |xs|
    ensures forall i :: 0 <= i < |r| ==> r[i] == xs[i % |xs|]
  {
    if n == 0 then []
    else
      var r := xs + Repeat(n - 1, xs);
      assert n * |xs| == |xs| + (n - 1) * |xs|;
      assert forall i :: 0 <= i < |r| ==> r[i] == xs[i % |xs|] by {
        forall i | 0 <= i < |r|
          ensures r[i] == xs[i % |xs|]
        {
          if i < |xs| {
            DivModUnique(i, |xs|, 0, i);
          } else {
            ModShift(i, |xs|);
          }
        }
      }
      r
  }

  /** Taking away one divisor leaves the remainder as it is. */
  lemma ModShift(i: int, n: int)
    requires n > 0 && i >= n
    ensures i % n == (i - n) % n
  {
    DivModUnique(i, n, (i - n) / n + 1, (i - n) % n);
  }

  /**
   * The wrapper: the adapter it currently wraps and, for every adapter it was
   * ever handed, how many forwarding observers it registered on it.
   */
  datatype Wrapper = Wrapper(current: Option<AdapterId>, observers: multiset<AdapterId>)

  const Unset: Wrapper := Wrapper(None, multiset{})

  /** The wrapper after `setAdapter`, and whether it called `notifyDataSetChanged`. */
  datatype Rebind = Rebind(wrapper: Wrapper, refreshed: bool)

  /**
   * `setAdapter` as written: a non-null adapter gets a fresh observer and the
   * list is refreshed; nothing registered earlier is unregistered, and a null
   * adapter returns before refreshing.
   */
  function SetAdapter(w: Wrapper, a: Option<AdapterId>): (r: Rebind)
    ensures r.wrapper.current == a
    ensures r.refreshed <==> a.Some?
    ensures a.None? ==> r.wrapper.observers == w.observers
    ensures a.Some? ==> r.wrapper.observers[a.value] == w.observers[a.value] + 1
    ensures forall b :: a != Some(b) ==> r.wrapper.observers[b] == w.observers[b]
  {
    if a.None? then Rebind(Wrapper(None, w.observers), false)
    else Rebind(Wrapper(a, w.observers + multiset{a.value}), true)
  }

  /**
   * The notifications a change raised by adapter `source` produces: what one
   * observer re-emits, once per observer registered on it.
   */
  function Dispatch<P>(w: Wrapper, source: AdapterId, c: Change<P>): (out: seq<Notification<P>>)
    ensures |out| == w.observers[source] * |Forward(c)|
    ensures forall i :: 0 <= i < |out| ==> out[i] == Forward(c)[i % |Forward(c)|]
  {
    Repeat(w.observers[source], Forward(c))
  }

  /** A single adapter, wrapped once, has each change forwarded exactly once. */
  lemma FreshAdapterForwardsOnce<P>(a: AdapterId, c: Change<P>)
    ensures Dispatch(SetAdapter(Unset, Some(a)).wrapper, a, c) == Forward(c)
  {
    assert Forward(c) + [] == Forward(c);
  }

  /**
   * As written, an adapter that has been replaced keeps reaching the
   * carousel's observers, and wrapping the same adapter twice doubles every
   * forwarded signal.
   */
  lemma ReplacedAdapterStillForwarded<P>(a: AdapterId, b: AdapterId, c: Change<P>)
    requires a != b
    ensures var w := SetAdapter(SetAdapter(Unset, Some(a)).wrapper, Some(b)).wrapper;
            w.current == Some(b) && Dispatch(w, a, c) == Forward(c)
    ensures Dispatch(SetAdapter(SetAdapter(Unset, Some(a)).wrapper, Some(a)).wrapper, a, c)
            == Forward(c) + Forward(c)
  {
    assert Forward(c) + [] == Forward(c);
  }

  /** Each adapter carries an observer exactly when it is the wrapped one. */
  ghost predicate SingleSubscription(w: Wrapper) {
    w.observers == if w.current.Some? then multiset{w.current.value} else multiset{}
  }

  /**
   * `setAdapter` with the previous observer unregistered before the new one is
   * registered.
   */
  function SetAdapterReplacing(w: Wrapper, a: Option<AdapterId>): (r: Rebind)
    ensures r.wrapper.current == a
    ensures r.refreshed <==> a.Some?
    ensures SingleSubscription(w) ==> SingleSubscription(r.wrapper)
  {
    var kept := if w.current.Some? then w.observers - multiset{w.current.value} else w.observers;
    if a.None? then Rebind(Wrapper(None, kept), false)
    else Rebind(Wrapper(a, kept + multiset{a.value}), true)
  }

  /** With replacement, only the wrapped adapter is heard, and exactly once per change. */
  lemma ReplacingForwardsOnlyCurrent<P>(w: Wrapper, a: Option<AdapterId>, source: AdapterId, c: Change<P>)
    requires SingleSubscription(w)
    ensures Dispatch(SetAdapterReplacing(w, a).wrapper, source, c)
            == if a == Some(source) then Forward(c) else []
  {
    var w' := SetAdapterReplacing(w, a).wrapper;
    assert SingleSubscription(w');
    assert Forward(c) + [] == Forward(c);
  }
}
