/** The drop-oldest queue of src/nmea_bridge.c: one producer running `put_drop_oldest`, one consumer
    running `k_msgq_get`, and the three queue calls of the producer as three separate atomic steps.

    A `k_msgq` is a bounded FIFO: put fails exactly when it is full, get exactly when it is empty.
    The drop counter has one writer, so each `(*drop_counter)++` is folded into the queue call
    before it. */
module DropOldest {
  import opened Base

  /** Where the producer stands inside `put_drop_oldest`. */
  datatype Phase<+T> =
    | Idle                // not inside
    | Full(item: T)       // the first put failed
    | Retrying(item: T)   // the get has run, the second put has not

  /** An item that left the queue was the n-th the consumer got, or the n-th that was dropped. */
  datatype Fate = Taken(n: nat) | Lost(n: nat)

  /** `queue` and `dropped` exist in the program; the rest is history. Items are named by their
      position in `offered`. */
  datatype Channel<+T> = Channel(
    queue: seq<T>, phase: Phase<T>, dropped: uint32,
    offered: seq<T>,    // every item of every call, in call order
    fate: seq<Fate>,    // what became of the items that left the queue
    taken: seq<nat>,    // positions the consumer got
    lost: seq<nat>,     // positions the producer's get removed
    misses: nat,        // producer gets that found the queue empty
    refused: nat,       // second puts that failed
    gap: nat,           // consumer gets since the failed first put of the call under way
    gaps: seq<nat>,     // for each lost item, those of the call that lost it
    raced: nat)         // all consumer gets between a failed first put and its get

  function Empty<T>(): Channel<T> { Channel([], Idle, 0, [], [], [], [], 0, 0, 0, [], 0) }

  /** First `k_msgq_put`. */
  function FirstPut<T>(c: Channel<T>, depth: nat, item: T): Channel<T> {
    var c := c.(offered := c.offered + [item]);
    if |c.queue| < depth then c.(queue := c.queue + [item]) else c.(phase := Full(item), gap := 0)
  }

  /** The producer's `k_msgq_get` and the count after it, which does not look at its result. */
  function DropGet<T>(c: Channel<T>): Channel<T>
    requires c.phase.Full?
  {
    var c' := c.(phase := Retrying(c.phase.item), dropped := Wrap32(c.dropped + 1));
    if c.queue == [] then c'.(misses := c.misses + 1)
    else c'.(queue := c.queue[1..], lost := c.lost + [|c.fate|], fate := c.fate + [Lost(|c.lost|)],
             gaps := c.gaps + [c.gap])
  }

  /** Second `k_msgq_put`, with its own count on failure. */
  function SecondPut<T>(c: Channel<T>, depth: nat): Channel<T>
    requires c.phase.Retrying?
  {
    if |c.queue| < depth then c.(queue := c.queue + [c.phase.item], phase := Idle)
    else c.(phase := Idle, refused := c.refused + 1, dropped := Wrap32(c.dropped + 1))
  }

  /** The consumer's `k_msgq_get` when it succeeds. */
  function Take<T>(c: Channel<T>): Channel<T>
    requires c.queue != []
  {
    var racing := if c.phase.Full? then 1 else 0;
    c.(queue := c.queue[1..], taken := c.taken + [|c.fate|], fate := c.fate + [Taken(|c.taken|)],
       gap := c.gap + racing, raced := c.raced + racing)
  }

  /** How many offered items have not reached the queue yet. */
  function Pending<T>(c: Channel<T>): nat { if c.phase.Idle? then 0 else 1 }

  ghost predicate Inv<T>(c: Channel<T>, depth: nat) {
    Contiguous(c, depth) && Accounted(c) && Partitioned(c) && Recent(c, depth) && Paid(c, depth)
  }

  /** FIFO and bounded: the queue is the run of offered items after those that left it, all but the
      pending one; and while a second put is due there is room for it. */
  ghost predicate Contiguous<T>(c: Channel<T>, depth: nat) {
    && |c.queue| <= depth
    && |c.fate| + |c.queue| + Pending(c) == |c.offered|
    && (forall k :: 0 <= k < |c.queue| ==> c.queue[k] == c.offered[|c.fate| + k])
    && (!c.phase.Idle? ==> c.phase.item == c.offered[|c.offered| - 1])
    && (c.phase.Retrying? ==> |c.queue| < depth)
  }

  /** The counter is the removals plus the misses; no second put has ever failed. */
  ghost predicate Accounted<T>(c: Channel<T>) {
    && c.refused == 0
    && c.dropped == Wrap32(|c.lost| + c.misses)
  }

  /** Every position that left the queue was either taken or lost, once, and in order. */
  ghost predicate Partitioned<T>(c: Channel<T>) {
    && Increasing(c.taken) && Increasing(c.lost)
    && |c.taken| + |c.lost| == |c.fate|
    && (forall n :: 0 <= n < |c.taken| ==> c.taken[n] < |c.fate| && c.fate[c.taken[n]] == Taken(n))
    && (forall n :: 0 <= n < |c.lost| ==> c.lost[n] < |c.fate| && c.fate[c.lost[n]] == Lost(n))
    && (forall p :: 0 <= p < |c.fate| ==> Position(c, c.fate[p]) == p)
  }

  /** The position a fate was recorded for. */
  function Position<T>(c: Channel<T>, f: Fate): int {
    match f
    case Taken(n) => if n < |c.taken| then c.taken[n] else -1
    case Lost(n) => if n < |c.lost| then c.lost[n] else -1
  }

  /** An item lost in a call with k gets in its window had `depth` - k newer ones behind it. */
  ghost predicate Recent<T>(c: Channel<T>, depth: nat) {
    && |c.gaps| == |c.lost|
    && (forall n :: 0 <= n < |c.lost| ==>
          c.gaps[n] < depth && c.lost[n] + (depth - c.gaps[n]) < |c.offered|)
  }

  /** Each miss used up `depth` raced gets of its own. */
  ghost predicate Paid<T>(c: Channel<T>, depth: nat) {
    && (c.phase.Full? ==> |c.queue| + c.gap == depth)
    && Times(c.misses, depth) + (if c.phase.Full? then c.gap else 0) <= c.raced
  }

  /** a * b, by repeated addition. */
  function Times(a: nat, b: nat): nat { if a == 0 then 0 else Times(a - 1, b) + b }

  // ---------------------------------------------------------------- one step

  lemma FirstPutKeeps<T>(c: Channel<T>, depth: nat, item: T)
    requires Inv(c, depth) && c.phase.Idle?
    ensures Inv(FirstPut(c, depth, item), depth)
  {
  }

  lemma DropGetKeeps<T>(c: Channel<T>, depth: nat)
    requires depth >= 1 && Inv(c, depth) && c.phase.Full?
    ensures Inv(DropGet(c), depth)
    ensures |DropGet(c).queue| < depth
  {
    DropGetRuns(c, depth);
    DropGetCounts(c, depth);
    DropGetPlaces(c);
  }

  lemma DropGetRuns<T>(c: Channel<T>, depth: nat)
    requires depth >= 1 && Contiguous(c, depth) && c.phase.Full?
    ensures Contiguous(DropGet(c), depth)
    ensures |DropGet(c).queue| < depth
  {
  }

  lemma DropGetCounts<T>(c: Channel<T>, depth: nat)
    requires Contiguous(c, depth) && Accounted(c) && Recent(c, depth) && Paid(c, depth) && c.phase.Full?
    ensures Accounted(DropGet(c)) && Recent(DropGet(c), depth) && Paid(DropGet(c), depth)
  {
  }

  lemma DropGetPlaces<T>(c: Channel<T>)
    requires Partitioned(c) && c.phase.Full?
    ensures Partitioned(DropGet(c))
  {
    var c' := DropGet(c);
    forall p | 0 <= p < |c'.fate| ensures Position(c', c'.fate[p]) == p {
      if p < |c.fate| {
        assert c'.fate[p] == c.fate[p];
      }
    }
  }

  lemma TakePlaces<T>(c: Channel<T>)
    requires Partitioned(c) && c.queue != []
    ensures Partitioned(Take(c))
  {
  }

  lemma SecondPutKeeps<T>(c: Channel<T>, depth: nat)
    requires Inv(c, depth) && c.phase.Retrying?
    ensures Inv(SecondPut(c, depth), depth)
    ensures SecondPut(c, depth).phase.Idle?
    ensures SecondPut(c, depth).queue == c.queue + [c.phase.item]
  {
  }

  lemma TakeKeeps<T>(c: Channel<T>, depth: nat)
    requires Inv(c, depth) && c.queue != []
    ensures Inv(Take(c), depth)
    ensures c.queue[0] == c.offered[|c.fate|]
  {
    TakePlaces(c);
  }

  // ---------------------------------------------------------------- whole runs

  datatype Action<+T> = Offer(item: T) | Drop | Retry | Consume

  /** One atomic step, if the thread that takes it stands there. */
  function Do<T>(c: Channel<T>, depth: nat, a: Action<T>): Option<Channel<T>> {
    match a
    case Offer(item) => if c.phase.Idle? then Some(FirstPut(c, depth, item)) else None
    case Drop => if c.phase.Full? then Some(DropGet(c)) else None
    case Retry => if c.phase.Retrying? then Some(SecondPut(c, depth)) else None
    case Consume => if c.queue != [] then Some(Take(c)) else None
  }

  /** The outcome of an interleaving of one producer and one consumer from the empty queue. */
  function After<T>(depth: nat, acts: seq<Action<T>>): Option<Channel<T>> {
    if acts == [] then Some(Empty())
    else
      match After(depth, acts[..|acts| - 1])
      case None => None
      case Some(c) => Do(c, depth, acts[|acts| - 1])
  }

  lemma {:induction false} EveryRun<T>(depth: nat, acts: seq<Action<T>>)
    requires depth >= 1 && After(depth, acts).Some?
    ensures Inv(After(depth, acts).value, depth)
  {
    if acts == [] {
    } else {
      var init := acts[..|acts| - 1];
      EveryRun(depth, init);
      var c := After(depth, init).value;
      match acts[|acts| - 1]
      case Offer(item) => FirstPutKeeps(c, depth, item);
      case Drop => DropGetKeeps(c, depth);
      case Retry => SecondPutKeeps(c, depth);
      case Consume => TakeKeeps(c, depth);
    }
  }

  // ---------------------------------------------------------------- what that means

  /** In every interleaving the queue is a contiguous run of the offered items, within its depth; the
      consumer gets items in order and at most once; and no second put has failed. */
  lemma OrderAndSafety<T>(depth: nat, acts: seq<Action<T>>)
    requires depth >= 1 && After(depth, acts).Some?
    ensures var c := After(depth, acts).value;
      && |c.queue| <= depth && c.refused == 0
      && |c.fate| <= |c.offered| - Pending(c) <= |c.offered|
      && c.queue == c.offered[|c.fate|..|c.offered| - Pending(c)]
      && Increasing(c.taken)
      && (forall n :: 0 <= n < |c.taken| ==> c.taken[n] < |c.fate| && c.fate[c.taken[n]] == Taken(n))
  {
    EveryRun(depth, acts);
  }

  /** The second put always has room, in every interleaving, and puts the newest item in the last
      place. */
  lemma SecondPutHasRoom<T>(depth: nat, acts: seq<Action<T>>)
    requires depth >= 1 && After(depth, acts).Some? && After(depth, acts).value.phase.Retrying?
    ensures var c := After(depth, acts).value;
      && |c.queue| < depth && c.offered != []
      && SecondPut(c, depth).queue == c.queue + [c.offered[|c.offered| - 1]]
      && SecondPut(c, depth).refused == 0
  {
    EveryRun(depth, acts);
  }

  /** The producer's get never removes the item it is making room for. */
  lemma {:induction false} NewestIsNeverDropped<T>(depth: nat, acts: seq<Action<T>>)
    requires depth >= 1 && After(depth, acts).Some?
    ensures var c := After(depth, acts).value;
      forall p :: 0 <= p < |c.fate| && c.fate[p].Lost? ==> p + 1 < |c.offered|
  {
    if acts == [] {
    } else {
      NewestIsNeverDropped(depth, acts[..|acts| - 1]);
      EveryRun(depth, acts[..|acts| - 1]);
    }
  }

  /** Nothing appears or vanishes: what was offered was taken, lost, is queued, or is in hand. And
      the counter agrees with the items really lost exactly when the misses are a multiple of 2^32,
      in particular when fewer than `depth` gets ever fell into the window. */
  lemma Conservation<T>(depth: nat, acts: seq<Action<T>>)
    requires depth >= 1 && After(depth, acts).Some?
    ensures var c := After(depth, acts).value;
      && |c.offered| == |c.taken| + |c.lost| + |c.queue| + Pending(c)
      && c.dropped == Wrap32(|c.lost| + c.misses)
      && (c.dropped == Wrap32(|c.lost|) <==> Wrap32(c.misses) == 0)
      && (c.raced < depth ==> c.misses == 0)
  {
    EveryRun(depth, acts);
    var c := After(depth, acts).value;
    WrapAbsorbs(|c.lost|, c.misses);
  }

  /** Each of the last `depth` items offered is still queued, in hand, was taken, or was lost in a call
      into whose window a get fell; and an item lost in a call with k such gets has at least `depth` - k
      newer ones behind it. */
  lemma Freshness<T>(depth: nat, acts: seq<Action<T>>, p: nat)
    requires depth >= 1 && After(depth, acts).Some? && p < |After(depth, acts).value.fate|
    ensures var c := After(depth, acts).value;
      match c.fate[p]
      case Taken(n) => n < |c.taken| && c.taken[n] == p
      case Lost(n) =>
        n < |c.lost| == |c.gaps| && c.lost[n] == p && depth - c.gaps[n] <= |c.offered| - 1 - p
        && (|c.offered| - depth <= p ==> c.gaps[n] > 0)
  {
    EveryRun(depth, acts);
    var c := After(depth, acts).value;
    assert Position(c, c.fate[p]) == p;
  }

  /** Misses are real: with two places, two gets inside the window leave nothing to drop, and the
      counter then exceeds the losses. */
  lemma MissIsReachable<T>(item: T)
    ensures exists acts: seq<Action<T>> ::
      && After(2, acts).Some?
      && After(2, acts).value.lost == [] && After(2, acts).value.dropped == 1
  {
    hide After;
    var acts := NoAction<T>(2);
    acts := GrowClean(2, acts, Offer(item));
    acts := GrowClean(2, acts, Offer(item));
    acts := GrowClean(2, acts, Offer(item));
    acts := GrowClean(2, acts, Consume);
    acts := GrowClean(2, acts, Consume);
    var drained := After(2, acts).value;
    acts := Grow(2, acts, Drop);
    assert After(2, acts) == Some(DropGet(drained));
  }

  /** Nothing lost or counted yet. */
  predicate Clean<T>(c: Channel<T>) { c.lost == [] && c.dropped == 0 && !c.phase.Retrying? }

  lemma NoAction<T>(depth: nat) returns (acts: seq<Action<T>>)
    ensures After(depth, acts).Some?
    ensures var c := After(depth, acts).value; Clean(c) && |c.queue| == 0 && c.phase.Idle?
  {
    acts := [];
  }

  lemma GrowClean<T>(depth: nat, acts: seq<Action<T>>, a: Action<T>) returns (acts': seq<Action<T>>)
    requires After(depth, acts).Some? && Clean(After(depth, acts).value) && (a.Offer? || a.Consume?)
    requires if a.Offer? then After(depth, acts).value.phase.Idle? else |After(depth, acts).value.queue| > 0
    ensures After(depth, acts').Some?
    ensures var c, c' := After(depth, acts).value, After(depth, acts').value;
      && Clean(c')
      && |c'.queue| == |c.queue| + (if a.Consume? then -1 else if |c.queue| < depth then 1 else 0)
      && c'.phase.Full? == (c.phase.Full? || (a.Offer? && |c.queue| >= depth))
  {
    hide After;
    acts' := Grow(depth, acts, a);
  }

  lemma Grow<T>(depth: nat, acts: seq<Action<T>>, a: Action<T>) returns (acts': seq<Action<T>>)
    requires After(depth, acts).Some? && Do(After(depth, acts).value, depth, a).Some?
    ensures After(depth, acts') == Do(After(depth, acts).value, depth, a)
  {
    acts' := acts + [a];
    assert acts'[..|acts|] == acts;
  }

  // ---------------------------------------------------------------- the call itself

  /** `put_drop_oldest`, with `gap` consumer gets (as far as there is anything to get) landing
      between its failed first put and its get, and `gap'` between that get and the second put. */
  method PutDropOldest<T(==)>(c: Channel<T>, depth: nat, item: T, gap: nat, gap': nat)
    returns (r: Channel<T>)
    requires depth >= 1 && Inv(c, depth) && c.phase.Idle?
    ensures Inv(r, depth) && r.phase.Idle?
    ensures r.offered == c.offered + [item]
    ensures r.queue != [] && r.queue[|r.queue| - 1] == item
    ensures r.dropped == if |c.queue| < depth then c.dropped else Wrap32(c.dropped + 1)
    ensures r.misses == c.misses + (if |c.queue| == depth && gap >= depth then 1 else 0)
    ensures gap == gap' == 0 ==> r == Put(c, depth, item)
  {
    FirstPutKeeps(c, depth, item);
    r := FirstPut(c, depth, item);
    if !r.phase.Idle? {
      r := MakeRoom(r, depth, gap, gap');
    }
  }

  /** The rest of the call once its first put has failed. */
  method MakeRoom<T(==)>(c: Channel<T>, depth: nat, gap: nat, gap': nat) returns (r: Channel<T>)
    requires depth >= 1 && Inv(c, depth) && c.phase.Full?
    ensures Inv(r, depth) && r.phase.Idle?
    ensures r.offered == c.offered
    ensures r.queue != [] && r.queue[|r.queue| - 1] == c.phase.item
    ensures r.dropped == Wrap32(c.dropped + 1)
    ensures r.misses == c.misses + (if gap >= |c.queue| then 1 else 0)
    ensures gap == gap' == 0 ==> r == SecondPut(DropGet(c), depth)
  {
    hide Inv;
    var waiting := TakeSome(c, depth, gap);
    DropGetKeeps(waiting, depth);
    var room := DropGet(waiting);
    var retrying := TakeSome(room, depth, gap');
    SecondPutKeeps(retrying, depth);
    r := SecondPut(retrying, depth);
  }

  /** A consumer getting up to `count` items. */
  method TakeSome<T(==)>(c: Channel<T>, depth: nat, count: nat) returns (r: Channel<T>)
    requires Inv(c, depth)
    ensures Inv(r, depth)
    ensures |r.queue| == if count < |c.queue| then |c.queue| - count else 0
    ensures r.phase == c.phase && r.offered == c.offered && r.dropped == c.dropped
    ensures r.misses == c.misses
    ensures count == 0 ==> r == c
  {
    r := c;
    var i := 0;
    while i < count && r.queue != []
      invariant i <= count && i + |r.queue| == |c.queue|
      invariant Inv(r, depth)
      invariant r.phase == c.phase && r.offered == c.offered && r.dropped == c.dropped
      invariant r.misses == c.misses
      invariant i == 0 ==> r == c
      decreases count - i
    {
      TakeKeeps(r, depth);
      r := Take(r);
      i := i + 1;
    }
  }

  /** The uninterrupted call as a function. */
  function Put<T>(c: Channel<T>, depth: nat, item: T): Channel<T>
    requires c.phase.Idle?
  {
    var c' := FirstPut(c, depth, item);
    if c'.phase.Idle? then c' else SecondPut(DropGet(c'), depth)
  }

  lemma Bounded<T>(c: Channel<T>, depth: nat)
    requires Inv(c, depth)
    ensures |c.queue| <= depth
  {
  }

  /** Uninterrupted, the queue keeps the newest `depth` of what it held and the new item. */
  lemma PutKeepsNewest<T>(c: Channel<T>, depth: nat, item: T)
    requires depth >= 1 && Inv(c, depth) && c.phase.Idle?
    ensures var all := c.queue + [item]; var r := Put(c, depth, item);
      && Inv(r, depth) && r.phase.Idle?
      && r.queue == all[if |all| <= depth then 0 else |all| - depth..]
      && r.offered == c.offered + [item] && r.taken == c.taken
      && r.misses == c.misses && r.raced == c.raced
  {
    hide Inv;
    Bounded(c, depth);
    var c' := FirstPut(c, depth, item);
    FirstPutKeeps(c, depth, item);
    if !c'.phase.Idle? {
      DropGetKeeps(c', depth);
      SecondPutKeeps(DropGet(c'), depth);
    }
  }
}
