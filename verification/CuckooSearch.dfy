/** The breadth-first search for a cuckoo path, which packs a path into one
    integer, and the decoding of that integer.

    No lock is kept from one slot to the next, so the table may change between
    any two looks: `obs(n)` is the table that the n-th locked look sees.  An
    unchanged table is the constant function. */
module CuckooSearch {
  import opened CuckooIndex
  import opened CuckooTable
  import Arith

  const MAX_BFS_PATH_LEN := 5
  const MAX_CUCKOO_COUNT := 512
  const LOCKS := 0x1_0000

  function LockInd(b: nat): (l: nat)
    ensures l < LOCKS
  {
    b % LOCKS
  }

  function Pow(a: nat, b: nat): nat {
    if b == 0 then 1 else a * Pow(a, b - 1)
  }

  /** The static assertions on SLOT_PER_BUCKET. */
  predicate SlotsAllowed(S: nat) {
    MAX_CUCKOO_COUNT <= Pow(S, MAX_BFS_PATH_LEN) < WORD - 1
  }

  lemma AtLeastFourSlots(S: nat)
    requires SlotsAllowed(S)
    ensures S >= 4
  {
    assert Pow(0, 5) == 0 && Pow(1, 5) == 1 && Pow(2, 5) == 32 && Pow(3, 5) == 243;
  }

  /** A place the search has reached: a bucket, the slots that led to it packed
      in base SLOT_PER_BUCKET, and their number (-1: no path). */
  datatype BSlot = BSlot(bucket: nat, pathcode: nat, depth: int)

  /** What a ring holds from index `first` up to index `last`. */
  function Ring(slots: seq<BSlot>, first: nat, last: nat): seq<BSlot>
    requires first < |slots| && last < |slots|
  {
    if first <= last then slots[first..last] else slots[first..] + slots[..last]
  }

  /** The index after i in a ring of n places. */
  predicate IsAfter(i: nat, next: nat, n: nat) {
    if i + 1 == n then next == 0 else next == i + 1
  }

  lemma RingDequeue(slots: seq<BSlot>, first: nat, next: nat, last: nat)
    requires first < |slots| && last < |slots| && first != last && IsAfter(first, next, |slots|)
    ensures Ring(slots, first, last) == [slots[first]] + Ring(slots, next, last)
  {
    if next == 0 {
      assert slots[first..] == [slots[first]];
      assert slots[..last] == slots[0..last];
    }
  }

  lemma RingEnqueue(slots: seq<BSlot>, first: nat, last: nat, next: nat, x: BSlot)
    requires first < |slots| && last < |slots| && next != first && IsAfter(last, next, |slots|)
    ensures Ring(slots[last := x], first, next) == Ring(slots, first, last) + [x]
  {
    var slots' := slots[last := x];
    if next == 0 {
      assert slots'[..0] == [];
      assert slots'[first..] == slots[first..last] + [x];
    } else if first <= last {
      assert slots'[first..next] == slots[first..last] + [x];
    } else {
      assert slots'[first..] == slots[first..];
      assert slots'[..next] == slots[..last] + [x];
    }
  }

  /** The circular queue of the search. */
  class BQueue {
    const slots: array<BSlot>
    var first: nat
    var last: nat

    ghost predicate Valid()
      reads this
    {
      slots.Length == MAX_CUCKOO_COUNT && first < MAX_CUCKOO_COUNT && last < MAX_CUCKOO_COUNT
    }

    ghost function Contents(): (s: seq<BSlot>)
      requires Valid()
      reads this, slots
    {
      Ring(slots[..], first, last)
    }

    constructor ()
      ensures Valid() && Contents() == [] && fresh(slots)
    {
      slots := new BSlot[MAX_CUCKOO_COUNT](_ => BSlot(0, 0, 0));
      first, last := 0, 0;
    }

    function Increment(ind: nat): nat {
      (ind + 1) % MAX_CUCKOO_COUNT
    }

    predicate Empty()
      requires Valid()
      reads this, slots
      ensures Empty() <==> Contents() == []
    {
      first == last
    }

    predicate Full()
      requires Valid()
      reads this, slots
      ensures Full() <==> |Contents()| == MAX_CUCKOO_COUNT - 1
      ensures |Contents()| < MAX_CUCKOO_COUNT
    {
      Increment(last) == first
    }

    method Enqueue(x: BSlot)
      requires Valid() && !Full()
      modifies this`last, slots
      ensures Valid() && Contents() == old(Contents()) + [x]
    {
      RingEnqueue(slots[..], first, last, Increment(last), x);
      slots[last] := x;
      last := Increment(last);
    }

    method Dequeue() returns (x: BSlot)
      requires Valid() && !Empty()
      modifies this`first
      ensures Valid() && [x] + Contents() == old(Contents())
    {
      RingDequeue(slots[..], first, Increment(first), last);
      x := slots[first];
      first := Increment(first);
    }
  }

  // ---- the records of the search, numbered in the order they are queued ----

  /** Record n is one of the slots of record Parent(n, S). */
  function Parent(n: nat, S: nat): (p: nat)
    requires n >= 2 && S > 0
    ensures p < n
  {
    Arith.DivLess(n - 2, S);
    (n - 2) / S
  }

  /** How many keys have to move before record n's bucket can take one. */
  function DepthOf(n: nat, S: nat): nat
    requires S > 0
  {
    if n < 2 then 0 else 1 + DepthOf(Parent(n, S), S)
  }

  /** The i-th slot looked at in a bucket whose record has path code `code`. */
  function SlotTried(code: nat, i: nat, S: nat): (s: nat)
    requires S > 0
    ensures s < S
  {
    (code % S + i) % S
  }

  function CodeOf(n: nat, S: nat): nat
    requires S > 0
  {
    if n < 2 then n
    else var code := CodeOf(Parent(n, S), S); code * S + SlotTried(code, (n - 2) % S, S)
  }

  /** The bucket of record n when the table does not change. */
  function BucketOf(g: Geometry, t: Table, i1: nat, i2: nat, n: nat): (b: nat)
    requires g.slots > 0 && Shaped(g, t) && i1 < g.Buckets() && i2 < g.Buckets()
    ensures b < g.Buckets()
  {
    if n == 0 then i1
    else if n == 1 then i2
    else var b := BucketOf(g, t, i1, i2, Parent(n, g.slots));
      g.Alt(t[b][CodeOf(n, g.slots) % g.slots].key, b)
  }

  lemma {:induction false} DepthIsMonotone(m: nat, n: nat, S: nat)
    requires S > 0 && m <= n
    ensures DepthOf(m, S) <= DepthOf(n, S)
  {
    if m >= 2 {
      Arith.DivMono(m - 2, n - 2, S);
      DepthIsMonotone(Parent(m, S), Parent(n, S), S);
    }
  }

  /** The number of the first record of a depth. */
  function FirstAt(d: nat, S: nat): nat {
    if d == 0 then 0 else 2 + S * FirstAt(d - 1, S)
  }

  lemma {:induction false} DeepRecordsAreLate(n: nat, d: nat, S: nat)
    requires S > 0 && DepthOf(n, S) >= d
    ensures n >= FirstAt(d, S)
  {
    if d > 0 {
      var p := Parent(n, S);
      DeepRecordsAreLate(p, d - 1, S);
      Arith.DivMod(n - 2, S);
      Arith.MulMono(FirstAt(d - 1, S), p, S);
      assert n - 2 >= p * S;
      assert S * FirstAt(d - 1, S) == FirstAt(d - 1, S) * S;
    }
  }

  /** A record of the largest depth is never dequeued: when record n is about to
      be, 2 + n*S records have been queued and n dequeued, which would overflow
      the ring. */
  lemma DequeuedIsShallow(n: nat, S: nat)
    requires SlotsAllowed(S) && 2 + n * S - n < MAX_CUCKOO_COUNT - 1
    ensures DepthOf(n, S) < MAX_BFS_PATH_LEN - 1
  {
    AtLeastFourSlots(S);
    if DepthOf(n, S) >= 4 {
      DeepRecordsAreLate(n, 4, S);
      FourthLevel(S);
      Arith.MulMono(4, S, n);
    }
  }

  lemma FourthLevel(S: nat)
    requires S >= 4
    ensures FirstAt(4, S) >= 170
  {
    Arith.MulMono(4, S, FirstAt(1, S));
    Arith.MulMono(4, S, FirstAt(2, S));
    Arith.MulMono(4, S, FirstAt(3, S));
  }

  /** Child i of record n is record 2 + n*S + i. */
  lemma ChildRecord(n: nat, i: nat, S: nat)
    requires i < S
    ensures Parent(2 + n * S + i, S) == n && (n * S + i) % S == i
  {
    Arith.DivUnique(n * S + i, S, n, i);
  }

  /** The slots tried in a bucket are all its slots. */
  lemma EverySlotIsTried(code: nat, s: nat, S: nat)
    requires s < S
    ensures exists j: nat :: j < S && SlotTried(code, j, S) == s
  {
    var c := code % S;
    var j := if s >= c then s - c else s + S - c;
    Arith.DivUnique(c + j, S, if s >= c then 0 else 1, s);
    assert SlotTried(code, j, S) == s;
  }

  ghost predicate Unchanging(obs: nat -> Table, t: Table) {
    forall n :: obs(n) == t
  }

  ghost predicate ShapedAll(g: Geometry, obs: nat -> Table) {
    forall n :: Shaped(g, obs(n))
  }

  ghost predicate Full(t: Table, b: nat) {
    b < |t| && forall s | 0 <= s < |t[b]| :: t[b][s].occupied
  }

  /** The search ended at record n: its code carries one more slot, which is
      free, and the buckets of all earlier records are full. */
  ghost predicate EndsAt(g: Geometry, obs: nat -> Table, i1: nat, i2: nat, x: BSlot, n: nat)
    requires g.slots > 0 && ShapedAll(g, obs) && i1 < g.Buckets() && i2 < g.Buckets()
  {
    && x.depth == DepthOf(n, g.slots)
    && x.pathcode / g.slots == CodeOf(n, g.slots)
    && (Unchanging(obs, obs(0)) ==>
          && x.bucket == BucketOf(g, obs(0), i1, i2, n)
          && !obs(0)[x.bucket][x.pathcode % g.slots].occupied
          && forall m | 0 <= m < n :: Full(obs(0), BucketOf(g, obs(0), i1, i2, m)))
  }

  ghost predicate IsRecord(g: Geometry, obs: nat -> Table, i1: nat, i2: nat, x: BSlot, n: nat)
    requires g.slots > 0 && ShapedAll(g, obs) && i1 < g.Buckets() && i2 < g.Buckets()
  {
    && x.bucket < g.Buckets()
    && x.depth == DepthOf(n, g.slots) && x.pathcode == CodeOf(n, g.slots)
    && (Unchanging(obs, obs(0)) ==> x.bucket == BucketOf(g, obs(0), i1, i2, n))
  }

  ghost predicate QueueHolds(g: Geometry, obs: nat -> Table, i1: nat, i2: nat, q: seq<BSlot>, from: nat)
    requires g.slots > 0 && ShapedAll(g, obs) && i1 < g.Buckets() && i2 < g.Buckets()
  {
    forall j | 0 <= j < |q| :: IsRecord(g, obs, i1, i2, q[j], from + j)
  }

  ghost predicate AllFullBefore(g: Geometry, t: Table, i1: nat, i2: nat, n: nat)
    requires g.slots > 0 && Shaped(g, t) && i1 < g.Buckets() && i2 < g.Buckets()
  {
    forall m | 0 <= m < n :: Full(t, BucketOf(g, t, i1, i2, m))
  }

  /** The i-th slot of record n's bucket is looked at unless an earlier look finds
      a free one: the ring is not full when the record is dequeued, nor when
      the slot's turn comes. */
  predicate Looked(n: nat, i: nat, S: nat) {
    i < S && 2 + n * S - n < MAX_CUCKOO_COUNT - 1 && 1 + n * S - n + i < MAX_CUCKOO_COUNT - 1
  }

  ghost predicate TakenAt(g: Geometry, t: Table, i1: nat, i2: nat, n: nat, i: nat)
    requires g.slots > 0 && Shaped(g, t) && i1 < g.Buckets() && i2 < g.Buckets()
  {
    t[BucketOf(g, t, i1, i2, n)][SlotTried(CodeOf(n, g.slots), i, g.slots)].occupied
  }

  /** Every slot that the search looks at before its ring is full is taken. */
  ghost predicate Exhausted(g: Geometry, t: Table, i1: nat, i2: nat)
    requires g.slots > 0 && Shaped(g, t) && i1 < g.Buckets() && i2 < g.Buckets()
  {
    forall n: nat, i: nat | Looked(n, i, g.slots) :: TakenAt(g, t, i1, i2, n, i)
  }

  ghost predicate TakenBefore(g: Geometry, t: Table, i1: nat, i2: nat, n: nat)
    requires g.slots > 0 && Shaped(g, t) && i1 < g.Buckets() && i2 < g.Buckets()
  {
    forall m: nat, i: nat | m < n && Looked(m, i, g.slots) :: TakenAt(g, t, i1, i2, m, i)
  }

  /** Once the ring is full no further record is looked at. */
  lemma FullRingIsTheEnd(n: nat, m: nat, i: nat, S: nat)
    requires S > 0 && 2 + n * S - n >= MAX_CUCKOO_COUNT - 1 && n <= m
    ensures !Looked(m, i, S)
  {
    Arith.MulMono(n, m, S - 1);
    assert n * S - n == n * (S - 1) && m * S - m == m * (S - 1);
  }

  lemma TakenAllIsExhausted(g: Geometry, t: Table, i1: nat, i2: nat, n: nat)
    requires g.slots > 0 && Shaped(g, t) && i1 < g.Buckets() && i2 < g.Buckets()
    requires TakenBefore(g, t, i1, i2, n) && 2 + n * g.slots - n >= MAX_CUCKOO_COUNT - 1
    ensures Exhausted(g, t, i1, i2)
  {
    forall m: nat, i: nat | Looked(m, i, g.slots) ensures TakenAt(g, t, i1, i2, m, i) {
      if n <= m { FullRingIsTheEnd(n, m, i, g.slots); }
    }
  }

  /** Appending one base-S digit and taking it off again. */
  lemma CodeOfChild(code: nat, slot: nat, S: nat)
    requires slot < S
    ensures (code * S + slot) / S == code && (code * S + slot) % S == slot
  {
    Arith.DivUnique(code * S + slot, S, code, slot);
  }

  lemma ChildCode(n: nat, i: nat, S: nat)
    requires i < S
    ensures DepthOf(2 + n * S + i, S) == 1 + DepthOf(n, S)
    ensures CodeOf(2 + n * S + i, S) == CodeOf(n, S) * S + SlotTried(CodeOf(n, S), i, S)
    ensures CodeOf(2 + n * S + i, S) % S == SlotTried(CodeOf(n, S), i, S)
  {
    var c := 2 + n * S + i;
    ChildRecord(n, i, S);
    assert c - 2 == n * S + i;
    var slot := SlotTried(CodeOf(n, S), i, S);
    CodeOfChild(CodeOf(n, S), slot, S);
  }

  lemma ChildBucket(g: Geometry, t: Table, i1: nat, i2: nat, n: nat, i: nat)
    requires g.slots > 0 && Shaped(g, t) && i1 < g.Buckets() && i2 < g.Buckets() && i < g.slots
    ensures var b := BucketOf(g, t, i1, i2, n);
            BucketOf(g, t, i1, i2, 2 + n * g.slots + i) == g.Alt(t[b][SlotTried(CodeOf(n, g.slots), i, g.slots)].key, b)
  {
    ChildCode(n, i, g.slots);
    ChildRecord(n, i, g.slots);
  }

  /** The bucket of record n, entered in the queue as child i of a dequeued
      record, is the one reached by evicting the key of the slot tried. */
  lemma ChildIsRecord(g: Geometry, obs: nat -> Table, i1: nat, i2: nat, x: BSlot, n: nat, i: nat, key: Key, y: BSlot, c: nat)
    requires g.slots > 0 && ShapedAll(g, obs) && i1 < g.Buckets() && i2 < g.Buckets()
    requires IsRecord(g, obs, i1, i2, x, n) && i < g.slots && c == 2 + n * g.slots + i
    requires y.bucket == g.Alt(key, x.bucket) && y.depth == x.depth + 1
    requires y.pathcode == x.pathcode * g.slots + SlotTried(x.pathcode, i, g.slots)
    requires Unchanging(obs, obs(0)) ==> key == obs(0)[x.bucket][SlotTried(x.pathcode, i, g.slots)].key
    ensures IsRecord(g, obs, i1, i2, y, c)
  {
    ChildCode(n, i, g.slots);
    ChildBucket(g, obs(0), i1, i2, n, i);
    assert y.depth == DepthOf(c, g.slots);
    assert y.pathcode == CodeOf(c, g.slots);
  }

  /** The search has seen slots 0..i of a record's bucket, and they were taken. */
  ghost predicate TriedTaken(g: Geometry, obs: nat -> Table, x: BSlot, i: nat)
    requires g.slots > 0 && ShapedAll(g, obs) && x.bucket < g.Buckets()
  {
    Unchanging(obs, obs(0)) ==> forall j | 0 <= j < i :: obs(0)[x.bucket][SlotTried(x.pathcode, j, g.slots)].occupied
  }

  lemma AllTriedIsFull(g: Geometry, obs: nat -> Table, x: BSlot)
    requires g.slots > 0 && ShapedAll(g, obs) && x.bucket < g.Buckets() && TriedTaken(g, obs, x, g.slots)
    ensures Unchanging(obs, obs(0)) ==> Full(obs(0), x.bucket)
  {
    if Unchanging(obs, obs(0)) {
      forall s | 0 <= s < g.slots ensures obs(0)[x.bucket][s].occupied {
        EverySlotIsTried(x.pathcode, s, g.slots);
      }
    }
  }

  lemma QueueGrows(g: Geometry, obs: nat -> Table, i1: nat, i2: nat, q: seq<BSlot>, from: nat, y: BSlot)
    requires g.slots > 0 && ShapedAll(g, obs) && i1 < g.Buckets() && i2 < g.Buckets()
    requires QueueHolds(g, obs, i1, i2, q, from) && IsRecord(g, obs, i1, i2, y, from + |q|)
    ensures QueueHolds(g, obs, i1, i2, q + [y], from)
  {
  }

  lemma QueueTail(g: Geometry, obs: nat -> Table, i1: nat, i2: nat, x: BSlot, q: seq<BSlot>, from: nat)
    requires g.slots > 0 && ShapedAll(g, obs) && i1 < g.Buckets() && i2 < g.Buckets()
    requires QueueHolds(g, obs, i1, i2, [x] + q, from)
    ensures IsRecord(g, obs, i1, i2, x, from) && QueueHolds(g, obs, i1, i2, q, from + 1)
  {
    assert ([x] + q)[0] == x;
    forall j | 0 <= j < |q| ensures IsRecord(g, obs, i1, i2, q[j], from + 1 + j) {
      assert ([x] + q)[j + 1] == q[j];
    }
  }

  lemma QueueStart(g: Geometry, obs: nat -> Table, i1: nat, i2: nat)
    requires g.slots > 0 && ShapedAll(g, obs) && i1 < g.Buckets() && i2 < g.Buckets()
    ensures QueueHolds(g, obs, i1, i2, [BSlot(i1, 0, 0), BSlot(i2, 1, 0)], 0)
  {
  }

  /** The inner loop of slot_search: look at the slots of record x, number n,
      until one is free or the queue is full, queueing a record for each.
      `held` is the set of locks held on return. */
  method TrySlots(g: Geometry, obs: nat -> Table, q: BQueue, i1: nat, i2: nat, x: BSlot, start: nat, ghost n: nat)
    returns (found: bool, y: BSlot, now: nat, held: set<nat>, ghost tried: nat)
    requires SlotsAllowed(g.slots) && g.slots > 0 && ShapedAll(g, obs) && i1 < g.Buckets() && i2 < g.Buckets()
    requires q.Valid() && IsRecord(g, obs, i1, i2, x, n) && x.depth < MAX_BFS_PATH_LEN - 1
    requires QueueHolds(g, obs, i1, i2, q.Contents(), n + 1) && |q.Contents()| == 1 + n * g.slots - n && !q.Full()
    requires 2 + n * g.slots - n < MAX_CUCKOO_COUNT - 1
    modifies q`last, q.slots
    ensures held == {} && q.Valid()
    ensures found ==> y.bucket == x.bucket && y.depth == x.depth && y.pathcode / g.slots == x.pathcode
                      && (Unchanging(obs, obs(0)) ==> !obs(0)[y.bucket][y.pathcode % g.slots].occupied)
    ensures found ==> Looked(n, tried, g.slots) && y.pathcode % g.slots == SlotTried(x.pathcode, tried, g.slots)
    ensures !found ==> QueueHolds(g, obs, i1, i2, q.Contents(), n + 1)
    ensures !found ==> tried <= g.slots && |q.Contents()| == 1 + n * g.slots - n + tried && (tried == g.slots || q.Full())
    ensures !found ==> TriedTaken(g, obs, x, tried)
  {
    var S := g.slots;
    var i := 0;
    now, held := start, {};
    y := x;
    while i < S && !q.Full()
      invariant q.Valid() && held == {}
      invariant i <= S && |q.Contents()| == 1 + n * S - n + i
      invariant QueueHolds(g, obs, i1, i2, q.Contents(), n + 1)
      invariant TriedTaken(g, obs, x, i)
    {
      var slot := SlotTried(x.pathcode, i, S);
      held := held + {LockInd(x.bucket)};
      var t: Table := obs(now);
      now := now + 1;
      if !t[x.bucket][slot].occupied {
        CodeOfChild(x.pathcode, slot, S);
        held := held - {LockInd(x.bucket)};
        return true, x.(pathcode := x.pathcode * S + slot), now, held, i;
      }
      if x.depth < MAX_BFS_PATH_LEN - 1 {
        var key := t[x.bucket][slot].key;
        held := held - {LockInd(x.bucket)};
        var y' := BSlot(g.Alt(key, x.bucket), x.pathcode * S + slot, x.depth + 1);
        ChildIsRecord(g, obs, i1, i2, x, n, i, key, y', 2 + n * S + i);
        QueueGrows(g, obs, i1, i2, q.Contents(), n + 1, y');
        q.Enqueue(y');
      }
      i := i + 1;
    }
    found, tried := false, i;
  }

  lemma NextProduct(n: nat, S: nat)
    ensures (n + 1) * S == n * S + S
  {
  }

  /** The queue when record n is about to be dequeued, unless it is full. */
  ghost predicate AtRecord(g: Geometry, obs: nat -> Table, i1: nat, i2: nat, q: seq<BSlot>, n: nat)
    requires g.slots > 0 && ShapedAll(g, obs) && i1 < g.Buckets() && i2 < g.Buckets()
  {
    && QueueHolds(g, obs, i1, i2, q, n)
    && (|q| < MAX_CUCKOO_COUNT - 1 ==>
          && |q| == 2 + n * g.slots - n
          && (Unchanging(obs, obs(0)) ==> AllFullBefore(g, obs(0), i1, i2, n)))
    && (|q| >= MAX_CUCKOO_COUNT - 1 ==> 2 + n * g.slots - n >= MAX_CUCKOO_COUNT - 1)
    && (Unchanging(obs, obs(0)) ==> TakenBefore(g, obs(0), i1, i2, n))
  }

  /** One iteration of slot_search: dequeue record n and try its slots. */
  method SearchRecord(g: Geometry, obs: nat -> Table, q: BQueue, i1: nat, i2: nat, start: nat, ghost n: nat)
    returns (found: bool, y: BSlot, now: nat, held: set<nat>)
    requires SlotsAllowed(g.slots) && g.slots > 0 && ShapedAll(g, obs) && i1 < g.Buckets() && i2 < g.Buckets()
    requires q.Valid() && !q.Full() && !q.Empty() && AtRecord(g, obs, i1, i2, q.Contents(), n)
    modifies q, q.slots
    ensures held == {} && q.Valid()
    ensures found ==> EndsAt(g, obs, i1, i2, y, n) && 0 <= y.depth < MAX_BFS_PATH_LEN - 1
    ensures found && Unchanging(obs, obs(0)) ==> !Exhausted(g, obs(0), i1, i2)
    ensures !found ==> AtRecord(g, obs, i1, i2, q.Contents(), n + 1) && |q.Contents()| > |old(q.Contents())|
  {
    AtLeastFourSlots(g.slots);
    DequeuedIsShallow(n, g.slots);
    var x := q.Dequeue();
    QueueTail(g, obs, i1, i2, x, q.Contents(), n);
    ghost var tried: nat;
    found, y, now, held, tried := TrySlots(g, obs, q, i1, i2, x, start, n);
    NextProduct(n, g.slots);
    if found {
      assert Unchanging(obs, obs(0)) ==> !TakenAt(g, obs(0), i1, i2, n, tried);
    } else {
      TriedIsTaken(g, obs, i1, i2, x, n, tried);
      if tried == g.slots { AllTriedIsFull(g, obs, x); }
    }
  }

  lemma TriedIsTaken(g: Geometry, obs: nat -> Table, i1: nat, i2: nat, x: BSlot, n: nat, tried: nat)
    requires g.slots > 0 && ShapedAll(g, obs) && i1 < g.Buckets() && i2 < g.Buckets()
    requires IsRecord(g, obs, i1, i2, x, n) && TriedTaken(g, obs, x, tried)
    requires tried == g.slots || 1 + n * g.slots - n + tried >= MAX_CUCKOO_COUNT - 1
    requires Unchanging(obs, obs(0)) ==> TakenBefore(g, obs(0), i1, i2, n)
    ensures Unchanging(obs, obs(0)) ==> TakenBefore(g, obs(0), i1, i2, n + 1)
  {
    if Unchanging(obs, obs(0)) {
      forall m: nat, i: nat | m < n + 1 && Looked(m, i, g.slots) ensures TakenAt(g, obs(0), i1, i2, m, i) {
        if m == n { assert i < tried; }
      }
    }
  }

  /** slot_search.  It never meets a record of depth MAX_BFS_PATH_LEN - 1, for
      which it would keep a lock, however the table changes meanwhile.  In an
      unchanged table it fails exactly when every slot it looks at is taken. */
  method SlotSearch(g: Geometry, obs: nat -> Table, i1: nat, i2: nat, start: nat)
    returns (x: BSlot, now: nat, held: set<nat>)
    requires SlotsAllowed(g.slots) && g.slots > 0 && ShapedAll(g, obs) && i1 < g.Buckets() && i2 < g.Buckets()
    ensures held == {}
    ensures -1 <= x.depth < MAX_BFS_PATH_LEN - 1
    ensures x.depth != -1 ==> exists n: nat :: EndsAt(g, obs, i1, i2, x, n)
    ensures Unchanging(obs, obs(0)) ==> (x.depth == -1 <==> Exhausted(g, obs(0), i1, i2))
  {
    var q := new BQueue();
    q.Enqueue(BSlot(i1, 0, 0));
    q.Enqueue(BSlot(i2, 1, 0));
    QueueStart(g, obs, i1, i2);
    assert q.Contents() == [BSlot(i1, 0, 0), BSlot(i2, 1, 0)];
    now, held := start, {};
    ghost var n: nat := 0;   // records dequeued
    while !q.Full() && !q.Empty()
      invariant fresh(q) && fresh(q.slots) && q.Valid() && held == {}
      invariant AtRecord(g, obs, i1, i2, q.Contents(), n)
      decreases MAX_CUCKOO_COUNT - |q.Contents()|
    {
      var found;
      found, x, now, held := SearchRecord(g, obs, q, i1, i2, now, n);
      if found {
        return;
      }
      n := n + 1;
    }
    x := BSlot(0, 0, -1);
    Arith.MulMono(1, g.slots, n);
    assert q.Full();
    if Unchanging(obs, obs(0)) { TakenAllIsExhausted(g, obs(0), i1, i2, n); }
  }
}
