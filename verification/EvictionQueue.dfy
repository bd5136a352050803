/** The queue behind the orphan cache: how long it gets, and when it evicts the oldest entry first. */
module EvictionQueue {
  import opened Prelude

  /** A block hash as the number its bytes spell, so that `<` is the byte order. */
  type Hash = nat

  lemma {:induction false} KeysFitQueue(keys: set<Hash>, order: seq<Hash>)
    requires forall h :: h in keys ==> h in order
    ensures |keys| <= |order|
    decreases |order|
  {
    if order == [] {
      assert keys == {};
    } else {
      KeysFitQueue(keys - {order[0]}, order[1..]);
    }
  }

  /** The cached hashes and the queue they are evicted in, which may still list removed ones. */
  datatype Queue = Queue(live: set<Hash>, order: seq<Hash>)

  ghost predicate QueueOk(q: Queue, capacity: nat) {
    capacity >= 1 && |q.live| <= capacity && Listed(q)
  }

  /** All cached hashes are queued. */
  ghost predicate Listed(q: Queue) {
    forall h :: h in q.live ==> h in q.order
  }

  /** How many removed hashes come before the first live one. */
  function Stale(live: set<Hash>, order: seq<Hash>): nat {
    if order == [] || order[0] in live then 0 else 1 + Stale(live, order[1..])
  }

  lemma {:induction false} StaleStops(live: set<Hash>, order: seq<Hash>)
    requires live != {} && forall h :: h in live ==> h in order
    ensures var k := Stale(live, order);
            k < |order| && order[k] in live && (forall i :: 0 <= i < k ==> order[i] !in live)
            && k + |live| <= |order| && forall h :: h in live && h != order[k] ==> h in order[k + 1..]
    decreases |order|
  {
    KeysFitQueue(live, order);
    if order != [] && order[0] !in live {
      StaleStops(live, order[1..]);
      var k := Stale(live, order);
      assert order[1..][k..] == order[k + 1..];
    }
  }

  function FirstLive(q: Queue): Hash
    requires q.live != {} && forall h :: h in q.live ==> h in q.order
  {
    StaleStops(q.live, q.order);
    q.order[Stale(q.live, q.order)]
  }

  /** The queue popped up to its first live hash. */
  function Evicted(q: Queue): Queue
    requires q.live != {} && forall h :: h in q.live ==> h in q.order
  {
    StaleStops(q.live, q.order);
    Queue(q.live - {FirstLive(q)}, q.order[Stale(q.live, q.order) + 1..])
  }

  /** A live head is what gets evicted; a stale one makes no difference. */
  lemma PopHead(q: Queue)
    requires q.live != {} && forall h :: h in q.live ==> h in q.order
    ensures var rest := q.(order := q.order[1..]);
            if q.order[0] in q.live then FirstLive(q) == q.order[0] && Evicted(q) == Removed(rest, q.order[0])
            else (forall h :: h in q.live ==> h in rest.order) && FirstLive(rest) == FirstLive(q) && Evicted(rest) == Evicted(q)
  {
    StaleStops(q.live, q.order);
    if q.order[0] !in q.live {
      assert forall h :: h in q.live ==> h in q.order[1..];
      var k := Stale(q.live, q.order[1..]);
      assert q.order[1..][k + 1..] == q.order[k + 2..];
    }
  }

  function Inserted(q: Queue, h: Hash, capacity: nat): Queue
    requires QueueOk(q, capacity)
  {
    if h in q.live then q
    else
      var room := if |q.live| < capacity then q else Evicted(q);
      Queue(room.live + {h}, room.order + [h])
  }

  function Removed(q: Queue, h: Hash): Queue {
    q.(live := q.live - {h})
  }

  /** By how much the queue is longer than the cache. */
  function Gap(q: Queue): int {
    |q.order| - |q.live|
  }

  /** The removed hashes an insert drops from the queue. */
  function Dropped(q: Queue, h: Hash, capacity: nat): nat {
    if h in q.live || |q.live| < capacity then 0 else Stale(q.live, q.order)
  }

  lemma InsertGap(q: Queue, h: Hash, capacity: nat)
    requires QueueOk(q, capacity)
    ensures QueueOk(Inserted(q, h, capacity), capacity)
    ensures Gap(Inserted(q, h, capacity)) == Gap(q) - Dropped(q, h, capacity) >= 0
  {
    KeysFitQueue(q.live, q.order);
    if h !in q.live && |q.live| >= capacity {
      StaleStops(q.live, q.order);
    }
  }

  lemma RemoveGap(q: Queue, h: Hash, capacity: nat)
    requires QueueOk(q, capacity)
    ensures QueueOk(Removed(q, h), capacity)
    ensures Gap(Removed(q, h)) == Gap(q) + if h in q.live then 1 else 0
  {
    if h !in q.live {
      assert q.live - {h} == q.live;
    }
  }

  datatype CacheOp = InsertOp(hash: Hash) | RemoveOp(hash: Hash)

  ghost function Next(q: Queue, op: CacheOp, capacity: nat): (r: Queue)
    requires QueueOk(q, capacity)
    ensures QueueOk(r, capacity)
  {
    match op
    case InsertOp(h) => InsertGap(q, h, capacity); Inserted(q, h, capacity)
    case RemoveOp(h) => RemoveGap(q, h, capacity); Removed(q, h)
  }

  ghost function Run(q: Queue, ops: seq<CacheOp>, capacity: nat): (r: Queue)
    requires QueueOk(q, capacity)
    ensures QueueOk(r, capacity)
    decreases |ops|
  {
    if ops == [] then q else Run(Next(q, ops[0], capacity), ops[1..], capacity)
  }

  function Change(q: Queue, op: CacheOp, capacity: nat): int {
    match op
    case InsertOp(h) => 0 - Dropped(q, h, capacity)
    case RemoveOp(h) => if h in q.live then 1 else 0
  }

  /** Live hashes removed over a run, less the stale ones its evictions dropped. */
  ghost function LeftBehind(q: Queue, ops: seq<CacheOp>, capacity: nat): int
    requires QueueOk(q, capacity)
    decreases |ops|
  {
    if ops == [] then 0
    else
      Change(q, ops[0], capacity) + LeftBehind(Next(q, ops[0], capacity), ops[1..], capacity)
  }

  /** The gap after a run is exactly what it left behind. */
  lemma {:induction false} GapAccounts(q: Queue, ops: seq<CacheOp>, capacity: nat)
    requires QueueOk(q, capacity)
    ensures Gap(Run(q, ops, capacity)) == Gap(q) + LeftBehind(q, ops, capacity) >= 0
    decreases |ops|
  {
    KeysFitQueue(Run(q, ops, capacity).live, Run(q, ops, capacity).order);
    if ops != [] {
      match ops[0] {
        case InsertOp(h) => InsertGap(q, h, capacity);
        case RemoveOp(h) => RemoveGap(q, h, capacity);
      }
      GapAccounts(Next(q, ops[0], capacity), ops[1..], capacity);
    }
  }

  ghost predicate InsertsOnly(ops: seq<CacheOp>) {
    forall i :: 0 <= i < |ops| ==> ops[i].InsertOp?
  }

  /** Every continuation of inserts keeps the queue within capacity. */
  ghost predicate StaysBounded(q: Queue, capacity: nat)
    requires QueueOk(q, capacity)
  {
    forall ops :: InsertsOnly(ops) ==> |Run(q, ops, capacity).order| <= capacity
  }

  /** The queue stays within capacity exactly if it lists no more hashes than are cached. */
  lemma BoundedIffNoGap(q: Queue, capacity: nat)
    requires QueueOk(q, capacity)
    ensures StaysBounded(q, capacity) <==> |q.order| == |q.live|
  {
    KeysFitQueue(q.live, q.order);
    if |q.order| == |q.live| {
      forall ops | InsertsOnly(ops) ensures |Run(q, ops, capacity).order| <= capacity {
        InsertsKeepNoGap(q, ops, capacity);
      }
    } else {
      var ops := FillUp(q, capacity);
      assert |Run(q, ops, capacity).order| > capacity;
    }
  }

  lemma {:induction false} InsertsKeepNoGap(q: Queue, ops: seq<CacheOp>, capacity: nat)
    requires QueueOk(q, capacity) && Gap(q) == 0 && InsertsOnly(ops)
    ensures Gap(Run(q, ops, capacity)) == 0
    decreases |ops|
  {
    if ops != [] {
      InsertGap(q, ops[0].hash, capacity);
      InsertsKeepNoGap(Next(q, ops[0], capacity), ops[1..], capacity);
    }
  }

  /** Inserting new hashes until the cache is full carries the gap along. */
  lemma {:induction false} FillUp(q: Queue, capacity: nat) returns (ops: seq<CacheOp>)
    requires QueueOk(q, capacity)
    ensures InsertsOnly(ops) && |Run(q, ops, capacity).order| == capacity + Gap(q)
    decreases capacity - |q.live|
  {
    ops := [];
    if |q.live| < capacity {
      var h := NewHash(q.live);
      InsertGap(q, h, capacity);
      var rest := FillUp(Inserted(q, h, capacity), capacity);
      ops := [InsertOp(h)] + rest;
      assert ops[1..] == rest;
    }
  }

  lemma {:induction false} NewHash(live: set<Hash>) returns (h: Hash)
    ensures forall x :: x in live ==> x < h
    decreases live
  {
    h := 0;
    if live != {} {
      var x :| x in live;
      h := NewHash(live - {x});
      assert forall y :: y in live ==> y == x || y in live - {x};
      h := if h > x then h else x + 1;
    }
  }

  /** From an empty cache: bounded for good exactly if the evictions so far dropped all that removals left behind. */
  lemma BoundedIffNothingLeft(ops: seq<CacheOp>, capacity: nat)
    requires capacity >= 1
    ensures StaysBounded(Run(Queue({}, []), ops, capacity), capacity) <==> LeftBehind(Queue({}, []), ops, capacity) == 0
  {
    GapAccounts(Queue({}, []), ops, capacity);
    BoundedIffNoGap(Run(Queue({}, []), ops, capacity), capacity);
  }

  // ----- Who is oldest -----

  /** Where a hash was queued first. */
  function FirstAt(order: seq<Hash>, h: Hash): (r: nat)
    requires h in order
    ensures r < |order| && order[r] == h
  {
    if order[0] == h then 0 else 1 + FirstAt(order[1..], h)
  }

  /** Where a hash was queued last; for a cached hash that is its insertion. */
  function LastAt(order: seq<Hash>, h: Hash): (r: nat)
    requires h in order
    ensures r < |order| && order[r] == h
  {
    var n := |order| - 1;
    if order[n] == h then n else LastAt(order[..n], h)
  }

  lemma {:induction false} FirstAtLeast(order: seq<Hash>, h: Hash, i: nat)
    requires i < |order| && order[i] == h
    ensures FirstAt(order, h) <= i
  {
    if order[0] != h {
      FirstAtLeast(order[1..], h, i - 1);
    }
  }

  lemma {:induction false} LastAtMost(order: seq<Hash>, h: Hash, i: nat)
    requires i < |order| && order[i] == h
    ensures i <= LastAt(order, h)
  {
    if order[|order| - 1] != h {
      LastAtMost(order[..|order| - 1], h, i);
    }
  }

  ghost predicate IsOldest(q: Queue, h: Hash)
    requires Listed(q)
  {
    h in q.live && forall g :: g in q.live ==> LastAt(q.order, h) <= LastAt(q.order, g)
  }

  /** Cached hashes were queued first in the order in which they were inserted. */
  ghost predicate Aligned(q: Queue)
    requires Listed(q)
  {
    AlignedOn(q.order, q.live)
  }

  ghost predicate AlignedOn(order: seq<Hash>, live: set<Hash>)
    requires forall h :: h in live ==> h in order
  {
    forall g, h :: g in live && h in live && FirstAt(order, g) < FirstAt(order, h) ==> LastAt(order, g) < LastAt(order, h)
  }

  /** Evicting one entry after the other always evicts the oldest. */
  ghost predicate OldestFirst(q: Queue)
    requires Listed(q)
    decreases |q.live|
  {
    q.live == {} || (IsOldest(q, FirstLive(q)) && (EvictKeeps(q); OldestFirst(Evicted(q))))
  }

  /** What eviction leaves is queued behind what it takes. */
  lemma EvictKeeps(q: Queue)
    requires Listed(q) && q.live != {}
    ensures Listed(Evicted(q)) && |Evicted(q).live| < |q.live| && Evicted(q).live <= q.live
    ensures Stale(q.live, q.order) < |q.order| && FirstAt(q.order, FirstLive(q)) == Stale(q.live, q.order)
    ensures forall h :: h in Evicted(q).live ==> FirstAt(q.order, h) > Stale(q.live, q.order)
  {
    var k := Stale(q.live, q.order);
    StaleStops(q.live, q.order);
    FirstAtLeast(q.order, FirstLive(q), k);
    forall h | h in Evicted(q).live ensures FirstAt(q.order, h) > k {
      assert q.order[FirstAt(q.order, h)] == h;
    }
  }

  lemma {:induction false} DropFirst(order: seq<Hash>, n: nat, h: Hash)
    requires n <= |order| && h in order && FirstAt(order, h) >= n
    ensures h in order[n..] && FirstAt(order[n..], h) == FirstAt(order, h) - n
  {
    assert order[n..][FirstAt(order, h) - n] == h;
    if n > 0 {
      DropFirst(order[1..], n - 1, h);
      assert order[1..][n - 1..] == order[n..];
    } else {
      assert order[0..] == order;
    }
  }

  lemma {:induction false} DropLast(order: seq<Hash>, n: nat, h: Hash)
    requires n <= |order| && h in order[n..]
    ensures h in order && LastAt(order[n..], h) == LastAt(order, h) - n
  {
    var m := |order| - 1;
    if order[m] != h {
      assert h in order[n..m] by {
        assert order[n..] == order[n..m] + [order[m]];
      }
      assert order[..m][n..] == order[n..m] == order[n..][..m - n];
      DropLast(order[..m], n, h);
    }
  }

  /** The whole future of evictions is oldest-first exactly if the queue is aligned. */
  lemma {:induction false} OldestFirstIff(q: Queue)
    requires Listed(q)
    ensures OldestFirst(q) <==> Aligned(q)
    decreases |q.live|
  {
    if q.live != {} {
      EvictKeeps(q);
      OldestFirstIff(Evicted(q));
      EvictAligned(q);
      HeadAligned(q);
    }
  }

  /** Among what eviction leaves, both orders are as before. */
  lemma EvictAligned(q: Queue)
    requires Listed(q) && q.live != {} && Listed(Evicted(q)) && Evicted(q).live <= q.live
    ensures Aligned(Evicted(q)) <==> AlignedOn(q.order, Evicted(q).live)
  {
    var n := Stale(q.live, q.order) + 1;
    var rest := Evicted(q).live;
    assert n <= |q.order| && forall h :: h in rest ==> FirstAt(q.order, h) >= n by {
      EvictKeeps(q);
    }
    DropAligned(q.order, n, rest);
  }

  lemma DropAligned(order: seq<Hash>, n: nat, live: set<Hash>)
    requires n <= |order| && forall h :: h in live ==> h in order
    requires forall h :: h in live ==> FirstAt(order, h) >= n && h in order[n..]
    ensures AlignedOn(order[n..], live) <==> AlignedOn(order, live)
  {
    var rest := order[n..];
    forall h | h in live ensures FirstAt(rest, h) == FirstAt(order, h) - n && LastAt(rest, h) == LastAt(order, h) - n {
      DropFirst(order, n, h);
      DropLast(order, n, h);
    }
  }

  /** Alignment splits into the head being oldest and the rest being aligned. */
  lemma HeadAligned(q: Queue)
    requires Listed(q) && q.live != {} && Evicted(q).live <= q.live
    ensures Aligned(q) <==> IsOldest(q, FirstLive(q)) && AlignedOn(q.order, Evicted(q).live)
  {
    EvictKeeps(q);
    StaleStops(q.live, q.order);
    SplitAligned(q.order, q.live, FirstLive(q));
  }

  ghost predicate IsLeast(order: seq<Hash>, live: set<Hash>, f: Hash)
    requires f in order && forall h :: h in live ==> h in order
  {
    forall g :: g in live ==> LastAt(order, f) <= LastAt(order, g)
  }

  lemma SplitAligned(order: seq<Hash>, live: set<Hash>, f: Hash)
    requires f in live && forall h :: h in live ==> h in order
    requires forall h :: h in live && h != f ==> FirstAt(order, f) < FirstAt(order, h)
    ensures AlignedOn(order, live) <==> IsLeast(order, live, f) && AlignedOn(order, live - {f})
  {
    if IsLeast(order, live, f) && AlignedOn(order, live - {f}) {
      forall g, h | g in live && h in live && FirstAt(order, g) < FirstAt(order, h) ensures LastAt(order, g) < LastAt(order, h) {
        JoinAligned(order, live, f, g, h);
      }
    }
  }

  lemma JoinAligned(order: seq<Hash>, live: set<Hash>, f: Hash, g: Hash, h: Hash)
    requires f in live && g in live && h in live && forall x :: x in live ==> x in order
    requires h != f ==> FirstAt(order, f) < FirstAt(order, h)
    requires g != f ==> FirstAt(order, f) < FirstAt(order, g)
    requires LastAt(order, f) <= LastAt(order, h) && AlignedOn(order, live - {f}) && FirstAt(order, g) < FirstAt(order, h)
    ensures LastAt(order, g) < LastAt(order, h)
  {
    if g == f {
      assert order[LastAt(order, f)] == f && order[LastAt(order, h)] == h;
    } else {
      assert g in live - {f} && h in live - {f};
    }
  }

  /** `g` is queued again behind every entry of `f`. */
  ghost predicate QueuedBehind(order: seq<Hash>, f: Hash, g: Hash) {
    exists j :: 0 <= j < |order| && order[j] == g && forall i :: 0 <= i < |order| && order[i] == f ==> i < j
  }

  ghost predicate OthersBehind(q: Queue, f: Hash) {
    forall g :: g in q.live && g != f ==> QueuedBehind(q.order, f, g)
  }

  /** In one state: the entry evicted is the oldest exactly if every other one is queued again behind it. */
  lemma EvictsOldestIff(q: Queue)
    requires Listed(q) && q.live != {}
    ensures IsOldest(q, FirstLive(q)) <==> OthersBehind(q, FirstLive(q))
  {
    StaleStops(q.live, q.order);
    var f := FirstLive(q);
    forall g | g in q.live && g != f ensures LastAt(q.order, f) <= LastAt(q.order, g) <==> QueuedBehind(q.order, f, g) {
      BehindIff(q.order, f, g);
    }
  }

  lemma BehindIff(order: seq<Hash>, f: Hash, g: Hash)
    requires f in order && g in order && f != g
    ensures QueuedBehind(order, f, g) <==> LastAt(order, f) < LastAt(order, g)
  {
    var last := LastAt(order, g);
    forall i | 0 <= i < |order| && order[i] == f && LastAt(order, f) < last ensures i < last {
      LastAtMost(order, f, i);
    }
    if QueuedBehind(order, f, g) {
      var j :| 0 <= j < |order| && order[j] == g && forall i :: 0 <= i < |order| && order[i] == f ==> i < j;
      LastAtMost(order, g, j);
      assert order[LastAt(order, f)] == f;
    }
  }

  // ----- What an insert does to the order -----

  /** The queue an insert of a new hash appends to. */
  function Room(q: Queue, capacity: nat): Queue
    requires QueueOk(q, capacity)
  {
    if |q.live| < capacity then q else Evicted(q)
  }

  /** The hash is not still queued ahead of a cached one. */
  ghost predicate NotAhead(q: Queue, h: Hash)
    requires Listed(q)
  {
    h in q.order ==> forall g :: g in q.live ==> FirstAt(q.order, g) < FirstAt(q.order, h)
  }

  lemma {:induction false} AppendFirst(order: seq<Hash>, x: Hash, h: Hash)
    requires h in order || h == x
    ensures FirstAt(order + [x], h) == if h in order then FirstAt(order, h) else |order|
  {
    if order != [] && order[0] != h {
      AppendFirst(order[1..], x, h);
      assert (order + [x])[1..] == order[1..] + [x];
    }
  }

  lemma AppendLast(order: seq<Hash>, x: Hash, h: Hash)
    requires h in order || h == x
    ensures LastAt(order + [x], h) == if h == x then |order| else LastAt(order, h)
  {
    assert (order + [x])[..|order|] == order;
  }

  /** Appending keeps a queue aligned exactly if it was and the hash is not queued ahead of a cached one. */
  lemma AppendAlignedIff(q: Queue, h: Hash)
    requires Listed(q) && h !in q.live
    ensures Listed(Queue(q.live + {h}, q.order + [h]))
    ensures Aligned(Queue(q.live + {h}, q.order + [h])) <==> Aligned(q) && NotAhead(q, h)
  {
    var t := Queue(q.live + {h}, q.order + [h]);
    AppendFirst(q.order, h, h);
    AppendLast(q.order, h, h);
    forall g | g in q.live
      ensures FirstAt(t.order, g) == FirstAt(q.order, g) && LastAt(t.order, g) == LastAt(q.order, g) < LastAt(t.order, h)
    {
      AppendFirst(q.order, h, g);
      AppendLast(q.order, h, g);
    }
    if Aligned(t) && h in q.order {
      forall g | g in q.live ensures FirstAt(q.order, g) < FirstAt(q.order, h) {
        assert q.order[FirstAt(q.order, g)] == g && q.order[FirstAt(q.order, h)] == h;
      }
    }
  }

  /** No step but an insert of a hash still queued ahead of a cached one disturbs the order. */
  ghost predicate Orderly(q: Queue, op: CacheOp, capacity: nat)
    requires QueueOk(q, capacity)
  {
    op.InsertOp? && op.hash !in q.live ==> Listed(Room(q, capacity)) && NotAhead(Room(q, capacity), op.hash)
  }

  lemma RoomListed(q: Queue, capacity: nat)
    requires QueueOk(q, capacity)
    ensures Listed(Room(q, capacity)) && (Aligned(q) ==> Aligned(Room(q, capacity)))
  {
    if |q.live| >= capacity {
      EvictKeeps(q);
      EvictAligned(q);
    }
  }

  lemma StepAlignedIff(q: Queue, op: CacheOp, capacity: nat)
    requires QueueOk(q, capacity) && Aligned(q)
    ensures Aligned(Next(q, op, capacity)) <==> Orderly(q, op, capacity)
  {
    if op.InsertOp? && op.hash !in q.live {
      RoomListed(q, capacity);
      if |q.live| >= capacity {
        StaleStops(q.live, q.order);
      }
      AppendAlignedIff(Room(q, capacity), op.hash);
    }
  }

  // ----- Runs from an empty cache -----

  ghost predicate IsStep(q: Queue, op: CacheOp, capacity: nat, r: Queue) {
    QueueOk(q, capacity) && r == Next(q, op, capacity)
  }

  /** The queue before and after each operation of a run. */
  ghost predicate IsHistory(qs: seq<Queue>, ops: seq<CacheOp>, capacity: nat) {
    capacity >= 1 && |qs| == |ops| + 1 && qs[0] == Queue({}, []) &&
    (forall i :: 0 <= i < |qs| ==> QueueOk(qs[i], capacity)) &&
    forall i :: 0 <= i < |ops| ==> IsStep(qs[i], ops[i], capacity, qs[i + 1])
  }

  /** Every sequence of operations has its history, which ends where the run ends. */
  lemma {:induction false} HistoryOf(ops: seq<CacheOp>, capacity: nat) returns (qs: seq<Queue>)
    requires capacity >= 1
    ensures IsHistory(qs, ops, capacity) && qs[|ops|] == Run(Queue({}, []), ops, capacity)
  {
    if ops == [] {
      qs := [Queue({}, [])];
    } else {
      var n := |ops| - 1;
      var before := HistoryOf(ops[..n], capacity);
      var last := Run(Queue({}, []), ops, capacity);
      RunLast(Queue({}, []), ops, capacity);
      LongerHistory(before, ops, capacity, last);
      qs := before + [last];
    }
  }

  lemma LongerHistory(qs: seq<Queue>, ops: seq<CacheOp>, capacity: nat, r: Queue)
    requires ops != [] && IsHistory(qs, ops[..|ops| - 1], capacity) && QueueOk(r, capacity)
    requires IsStep(qs[|ops| - 1], ops[|ops| - 1], capacity, r)
    ensures IsHistory(qs + [r], ops, capacity)
  {
    var n, longer := |ops| - 1, qs + [r];
    forall i | 0 <= i < |ops| ensures IsStep(longer[i], ops[i], capacity, longer[i + 1]) {
      assert i < n ==> IsStep(qs[i], ops[..n][i], capacity, qs[i + 1]);
    }
  }

  lemma {:induction false} RunLast(q: Queue, ops: seq<CacheOp>, capacity: nat)
    requires QueueOk(q, capacity) && ops != []
    ensures IsStep(Run(q, ops[..|ops| - 1], capacity), ops[|ops| - 1], capacity, Run(q, ops, capacity))
    decreases |ops|
  {
    if |ops| > 1 {
      RunLast(Next(q, ops[0], capacity), ops[1..], capacity);
      assert ops[1..][..|ops| - 2] == ops[..|ops| - 1][1..];
    }
  }

  /** At every point of the run, evictions would go oldest-first. */
  ghost predicate AlwaysOldestFirst(qs: seq<Queue>)
    requires forall i :: 0 <= i < |qs| ==> Listed(qs[i])
  {
    forall i :: 0 <= i < |qs| ==> OldestFirst(qs[i])
  }

  ghost predicate AlwaysOrderly(qs: seq<Queue>, ops: seq<CacheOp>, capacity: nat)
    requires IsHistory(qs, ops, capacity)
  {
    forall i :: 0 <= i < |ops| ==> Orderly(qs[i], ops[i], capacity)
  }

  /** A run is oldest-first throughout exactly if no insert brings back a hash still queued ahead of a cached one. */
  lemma RunOldestFirstIff(qs: seq<Queue>, ops: seq<CacheOp>, capacity: nat)
    requires IsHistory(qs, ops, capacity)
    ensures AlwaysOldestFirst(qs) <==> AlwaysOrderly(qs, ops, capacity)
  {
    if AlwaysOrderly(qs, ops, capacity) {
      forall i | 0 <= i < |qs| ensures OldestFirst(qs[i]) {
        OrderlyKeepsAligned(qs, ops, capacity, i);
        OldestFirstIff(qs[i]);
      }
    }
    if AlwaysOldestFirst(qs) {
      forall i | 0 <= i < |ops| ensures Orderly(qs[i], ops[i], capacity) {
        OldestFirstIff(qs[i]);
        OldestFirstIff(qs[i + 1]);
        StepIff(qs[i], ops[i], capacity, qs[i + 1]);
      }
    }
  }

  lemma StepIff(q: Queue, op: CacheOp, capacity: nat, r: Queue)
    requires IsStep(q, op, capacity, r) && Aligned(q) && QueueOk(r, capacity)
    ensures Aligned(r) <==> Orderly(q, op, capacity)
  {
    StepAlignedIff(q, op, capacity);
  }

  lemma {:induction false} OrderlyKeepsAligned(qs: seq<Queue>, ops: seq<CacheOp>, capacity: nat, i: nat)
    requires IsHistory(qs, ops, capacity) && AlwaysOrderly(qs, ops, capacity) && i < |qs|
    ensures Aligned(qs[i])
  {
    if i > 0 {
      var k := i - 1;
      OrderlyKeepsAligned(qs, ops, capacity, k);
      StepIff(qs[k], ops[k], capacity, qs[k + 1]);
    }
  }

  /** An insert of a hash that is cached or not queued at all. */
  ghost predicate IsNew(q: Queue, op: CacheOp) {
    op.InsertOp? ==> op.hash in q.live || op.hash !in q.order
  }

  /** If no removed hash comes back before the queue has dropped it, eviction is oldest-first and no hash is queued twice. */
  lemma NewHashesKeepOrder(qs: seq<Queue>, ops: seq<CacheOp>, capacity: nat, i: nat)
    requires IsHistory(qs, ops, capacity) && i < |qs|
    requires forall j :: 0 <= j < |ops| ==> IsNew(qs[j], ops[j])
    ensures AlwaysOldestFirst(qs) && Distinct(qs[i].order)
  {
    forall j | 0 <= j < |ops| ensures Orderly(qs[j], ops[j], capacity) {
      NewIsOrderly(qs[j], ops[j], capacity);
    }
    RunOldestFirstIff(qs, ops, capacity);
    NewKeepsDistinct(qs, ops, capacity, i);
  }

  lemma NewIsOrderly(q: Queue, op: CacheOp, capacity: nat)
    requires QueueOk(q, capacity) && IsNew(q, op)
    ensures Orderly(q, op, capacity)
  {
    RoomListed(q, capacity);
    if |q.live| >= capacity {
      StaleStops(q.live, q.order);
    }
  }

  lemma {:induction false} NewKeepsDistinct(qs: seq<Queue>, ops: seq<CacheOp>, capacity: nat, i: nat)
    requires IsHistory(qs, ops, capacity) && i < |qs|
    requires forall j :: 0 <= j < |ops| ==> IsNew(qs[j], ops[j])
    ensures Distinct(qs[i].order)
  {
    if i > 0 {
      var k := i - 1;
      NewKeepsDistinct(qs, ops, capacity, k);
      StepDistinct(qs[k], ops[k], capacity, qs[k + 1]);
    }
  }

  lemma StepDistinct(q: Queue, op: CacheOp, capacity: nat, r: Queue)
    requires IsStep(q, op, capacity, r) && Distinct(q.order) && IsNew(q, op)
    ensures Distinct(r.order)
  {
    if op.InsertOp? && op.hash !in q.live {
      var n := if |q.live| >= capacity then Stale(q.live, q.order) + 1 else 0;
      assert n <= |q.order| && r.order == q.order[n..] + [op.hash] by {
        if |q.live| >= capacity {
          StaleStops(q.live, q.order);
        }
      }
      DistinctShift(q.order, n, op.hash);
    }
  }

  lemma DistinctShift(order: seq<Hash>, n: nat, h: Hash)
    requires Distinct(order) && n <= |order| && h !in order
    ensures Distinct(order[n..] + [h])
  {
  }

  /** Insert 1 and 2, remove 1 and insert it again: the next eviction takes 1, although 2 is older. */
  lemma YoungerEvictedFirst() returns (qs: seq<Queue>, ops: seq<CacheOp>, q: Queue)
    ensures IsHistory(qs, ops, 2) && |ops| == 4 && q == qs[4] == Queue({1, 2}, [1, 2, 1])
    ensures Listed(q) && FirstLive(q) == 1 && IsOldest(q, 2) && !IsOldest(q, 1)
    ensures Inserted(q, 3, 2) == Queue({2, 3}, [2, 1, 3])
  {
    q := Queue({1, 2}, [1, 2, 1]);
    ops := [InsertOp(1), InsertOp(2), RemoveOp(1), InsertOp(1)];
    qs := [Queue({}, []), Queue({1}, [1]), Queue({1, 2}, [1, 2]), Queue({2}, [1, 2]), q];
    SampleHistory(qs, ops);
    SampleOldest(q);
  }

  lemma SampleHistory(qs: seq<Queue>, ops: seq<CacheOp>)
    requires ops == [InsertOp(1), InsertOp(2), RemoveOp(1), InsertOp(1)]
    requires qs == [Queue({}, []), Queue({1}, [1]), Queue({1, 2}, [1, 2]), Queue({2}, [1, 2]), Queue({1, 2}, [1, 2, 1])]
    ensures IsHistory(qs, ops, 2)
  {
    SampleStep(qs[0], 1, qs[1]);
    SampleStep(qs[1], 2, qs[2]);
    assert IsStep(qs[2], ops[2], 2, qs[3]);
    SampleStep(qs[3], 1, qs[4]);
  }

  /** An insert below capacity. */
  lemma SampleStep(q: Queue, h: Hash, r: Queue)
    requires h !in q.live && |q.live| < 2 && Listed(q) && r == Queue(q.live + {h}, q.order + [h])
    ensures IsStep(q, InsertOp(h), 2, r) && QueueOk(r, 2)
  {
  }

  lemma SampleOldest(q: Queue)
    requires q == Queue({1, 2}, [1, 2, 1])
    ensures QueueOk(q, 2) && Listed(q) && FirstLive(q) == 1 && IsOldest(q, 2) && !IsOldest(q, 1)
    ensures Inserted(q, 3, 2) == Queue({2, 3}, [2, 1, 3])
  {
    assert q.order[..2] == [1, 2];
    assert LastAt(q.order, 1) == 2 && LastAt(q.order, 2) == 1;
  }

  // ----- The queue keeps the time of insertion -----

  /** When each cached hash was inserted, counted in operations; a refresh does not count. */
  ghost function Stamped(q: Queue, op: CacheOp, capacity: nat, stamps: map<Hash, nat>, now: nat): map<Hash, nat>
    requires QueueOk(q, capacity)
  {
    match op
    case RemoveOp(h) => stamps - {h}
    case InsertOp(h) =>
      if h in q.live then stamps
      else (if |q.live| < capacity then stamps else stamps - {FirstLive(q)})[h := now]
  }

  ghost predicate IsTick(q: Queue, op: CacheOp, capacity: nat, stamps: map<Hash, nat>, now: nat, stamps': map<Hash, nat>) {
    QueueOk(q, capacity) && stamps' == Stamped(q, op, capacity, stamps, now)
  }

  /** The stamps before and after each operation of a run. */
  ghost predicate IsStamping(qs: seq<Queue>, ops: seq<CacheOp>, capacity: nat, stamps: seq<map<Hash, nat>>) {
    |stamps| == |qs| == |ops| + 1 && stamps[0] == map[] &&
    forall i :: 0 <= i < |ops| ==> IsTick(qs[i], ops[i], capacity, stamps[i], i, stamps[i + 1])
  }

  /** Every run can be stamped. */
  lemma StampingOf(qs: seq<Queue>, ops: seq<CacheOp>, capacity: nat) returns (stamps: seq<map<Hash, nat>>)
    requires |qs| == |ops| + 1 && forall i :: 0 <= i < |qs| ==> QueueOk(qs[i], capacity)
    ensures IsStamping(qs, ops, capacity, stamps)
  {
    stamps := [map[]];
    for n := 0 to |ops|
      invariant |stamps| == n + 1 && stamps[0] == map[]
      invariant forall i :: 0 <= i < n ==> IsTick(qs[i], ops[i], capacity, stamps[i], i, stamps[i + 1])
    {
      stamps := stamps + [Stamped(qs[n], ops[n], capacity, stamps[n], n)];
    }
  }

  ghost predicate StampsAgree(q: Queue, stamps: map<Hash, nat>, now: nat)
    requires Listed(q)
  {
    stamps.Keys == q.live && (forall h :: h in stamps ==> stamps[h] < now) &&
    SameOrder(q.order, stamps)
  }

  ghost predicate SameOrder(order: seq<Hash>, stamps: map<Hash, nat>)
    requires forall h :: h in stamps ==> h in order
  {
    forall g, h :: g in stamps && h in stamps ==> (stamps[g] < stamps[h] <==> LastAt(order, g) < LastAt(order, h))
  }

  /** The last queue positions of cached hashes are in the order of their insertions, so oldest means inserted first. */
  lemma {:induction false} StampsMatch(qs: seq<Queue>, ops: seq<CacheOp>, capacity: nat, stamps: seq<map<Hash, nat>>, i: nat)
    requires IsHistory(qs, ops, capacity) && IsStamping(qs, ops, capacity, stamps) && i < |qs|
    ensures StampsAgree(qs[i], stamps[i], i)
  {
    if i > 0 {
      var k := i - 1;
      StampsMatch(qs, ops, capacity, stamps, k);
      StepAgrees(qs[k], ops[k], capacity, qs[k + 1], stamps[k], k, stamps[k + 1]);
    }
  }

  /** The oldest cached hash is the one inserted first. */
  lemma OldestByStamp(qs: seq<Queue>, ops: seq<CacheOp>, capacity: nat, stamps: seq<map<Hash, nat>>, i: nat, h: Hash)
    requires IsHistory(qs, ops, capacity) && IsStamping(qs, ops, capacity, stamps) && i < |qs| && h in qs[i].live
    ensures stamps[i].Keys == qs[i].live
    ensures IsOldest(qs[i], h) <==> forall g :: g in stamps[i] ==> stamps[i][h] <= stamps[i][g]
  {
    StampsMatch(qs, ops, capacity, stamps, i);
  }

  lemma StepAgrees(q: Queue, op: CacheOp, capacity: nat, r: Queue, stamps: map<Hash, nat>, now: nat, stamps': map<Hash, nat>)
    requires IsStep(q, op, capacity, r) && IsTick(q, op, capacity, stamps, now, stamps')
    requires StampsAgree(q, stamps, now) && QueueOk(r, capacity)
    ensures StampsAgree(r, stamps', now + 1)
  {
    if op.InsertOp? && op.hash !in q.live {
      RoomAgrees(q, stamps, capacity, now);
      AppendAgrees(Room(q, capacity), if |q.live| < capacity then stamps else stamps - {FirstLive(q)}, now, op.hash);
    }
  }

  lemma RoomAgrees(q: Queue, stamps: map<Hash, nat>, capacity: nat, now: nat)
    requires QueueOk(q, capacity) && StampsAgree(q, stamps, now)
    ensures Listed(Room(q, capacity)) && Room(q, capacity).live <= q.live
    ensures StampsAgree(Room(q, capacity), if |q.live| < capacity then stamps else stamps - {FirstLive(q)}, now)
  {
    if |q.live| >= capacity {
      EvictKeeps(q);
      EvictAgrees(q, stamps, now);
    }
  }

  lemma EvictAgrees(q: Queue, stamps: map<Hash, nat>, now: nat)
    requires Listed(q) && q.live != {} && StampsAgree(q, stamps, now) && Listed(Evicted(q)) && Stale(q.live, q.order) < |q.order|
    ensures StampsAgree(Evicted(q), stamps - {FirstLive(q)}, now)
  {
    DropAgrees(q.order, Stale(q.live, q.order) + 1, stamps, stamps - {FirstLive(q)});
  }

  lemma DropAgrees(order: seq<Hash>, n: nat, stamps: map<Hash, nat>, fewer: map<Hash, nat>)
    requires n <= |order| && (forall h :: h in stamps ==> h in order) && SameOrder(order, stamps)
    requires forall h :: h in fewer ==> h in order[n..] && h in stamps && fewer[h] == stamps[h]
    ensures SameOrder(order[n..], fewer)
  {
    forall h | h in fewer ensures LastAt(order[n..], h) == LastAt(order, h) - n {
      DropLast(order, n, h);
    }
  }

  lemma AppendAgrees(q: Queue, stamps: map<Hash, nat>, now: nat, h: Hash)
    requires Listed(q) && StampsAgree(q, stamps, now) && h !in q.live
    ensures Listed(Queue(q.live + {h}, q.order + [h]))
    ensures StampsAgree(Queue(q.live + {h}, q.order + [h]), stamps[h := now], now + 1)
  {
    AppendLast(q.order, h, h);
    forall g | g in q.live ensures LastAt(q.order + [h], g) == LastAt(q.order, g) < |q.order| {
      AppendLast(q.order, h, g);
    }
  }
}
