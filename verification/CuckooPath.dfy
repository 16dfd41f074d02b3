/** From the packed result of the search to a cuckoo path: the decoding rebuilds
    what the search visited, and in an unchanged table it is a shortest way to
    a free slot. */
module CuckooPath {
  import opened CuckooTable
  import opened CuckooSearch
  import Arith

  /** One position of a cuckoo path. */
  datatype CuckooRecord = CuckooRecord(bucket: nat, slot: nat, key: Key)

  /** What a decoded path always is, however the table changed meanwhile: it
      starts in i1 or i2 and each bucket is the alternative of the one before
      it for the key recorded there. */
  ghost predicate PathShape(g: Geometry, p: seq<CuckooRecord>, i1: nat, i2: nat) {
    && 0 < |p| < MAX_BFS_PATH_LEN
    && p[0].bucket in {i1, i2}
    && (forall j | 0 <= j < |p| :: p[j].bucket < g.Buckets() && p[j].slot < g.slots)
    && (forall j | 0 < j < |p| :: Follows(g, p, j))
  }

  ghost predicate Follows(g: Geometry, p: seq<CuckooRecord>, j: nat)
    requires 0 < j < |p|
  {
    p[j].bucket == g.Alt(p[j - 1].key, p[j - 1].bucket)
  }

  /** A chain of evictions from i1 or i2 to a free slot of table t. */
  ghost predicate FreePath(g: Geometry, t: Table, i1: nat, i2: nat, p: seq<CuckooRecord>)
    requires Shaped(g, t)
  {
    && 0 < |p|
    && p[0].bucket in {i1, i2}
    && (forall j | 0 <= j < |p| :: InTable(g, p[j]))
    && (forall j | 0 < j < |p| :: Follows(g, p, j))
    && (forall j | 0 <= j < |p| - 1 :: Holds(t, p[j]))
    && !t[p[|p| - 1].bucket][p[|p| - 1].slot].occupied
  }

  predicate InTable(g: Geometry, r: CuckooRecord) {
    r.bucket < g.Buckets() && r.slot < g.slots
  }

  predicate Holds(t: Table, r: CuckooRecord) {
    At(t, r.bucket, r.slot, r.key)
  }

  ghost predicate Shortest(g: Geometry, t: Table, i1: nat, i2: nat, p: seq<CuckooRecord>)
    requires Shaped(g, t)
  {
    FreePath(g, t, i1, i2, p) && forall p' | FreePath(g, t, i1, i2, p') :: |p| <= |p'|
  }

  /** A free path may be cut short where it comes back to a bucket. */
  lemma CutIsFreePath(g: Geometry, t: Table, i1: nat, i2: nat, p: seq<CuckooRecord>, i: nat, j: nat)
    requires Shaped(g, t) && FreePath(g, t, i1, i2, p) && i < j < |p| && p[i].bucket == p[j].bucket
    ensures FreePath(g, t, i1, i2, p[..i] + p[j..])
  {
    var p' := p[..i] + p[j..];
    forall k | 0 < k < |p'| ensures Follows(g, p', k) {
      if k < i {
        assert Follows(g, p, k);
      } else if k == i {
        assert Follows(g, p, i);
      } else {
        assert Follows(g, p, k - i + j);
      }
    }
    forall k | 0 <= k < |p'| - 1 ensures Holds(t, p'[k]) {
      if k < i { assert Holds(t, p[k]); } else { assert Holds(t, p[k - i + j]); }
    }
    forall k | 0 <= k < |p'| ensures InTable(g, p'[k]) {
      if k < i { assert InTable(g, p[k]); } else { assert InTable(g, p[k - i + j]); }
    }
    assert p'[|p'| - 1] == p[|p| - 1];
  }

  /** A shortest path visits no bucket twice. */
  lemma ShortestDoesNotRepeat(g: Geometry, t: Table, i1: nat, i2: nat, p: seq<CuckooRecord>, i: nat, j: nat)
    requires Shaped(g, t) && Shortest(g, t, i1, i2, p) && i < j < |p|
    ensures p[i].bucket != p[j].bucket
  {
    if p[i].bucket == p[j].bucket {
      CutIsFreePath(g, t, i1, i2, p, i, j);
    }
  }

  // ---- the records that lead to record n -----------------------------------

  /** The ancestor of record n at depth j. */
  function Ancestor(n: nat, S: nat, j: nat): (m: nat)
    requires S > 0 && j <= DepthOf(n, S)
    ensures m <= n && DepthOf(m, S) == j
  {
    if DepthOf(n, S) == j then n else Ancestor(Parent(n, S), S, j)
  }

  lemma {:induction false} AncestorIsParent(n: nat, S: nat, j: nat)
    requires S > 0 && j < DepthOf(n, S)
    ensures Ancestor(n, S, j + 1) >= 2
    ensures Ancestor(n, S, j) == Parent(Ancestor(n, S, j + 1), S)
  {
    if j + 1 < DepthOf(n, S) { AncestorIsParent(Parent(n, S), S, j); }
  }

  /** The path code after decoding down to position j of the path. */
  function CodeAt(x: BSlot, n: nat, S: nat, j: nat): nat
    requires S > 0 && j <= DepthOf(n, S) + 1
  {
    if j == DepthOf(n, S) + 1 then x.pathcode else CodeOf(Ancestor(n, S, j), S)
  }

  lemma CodeStep(x: BSlot, n: nat, S: nat, j: nat)
    requires S > 0 && j <= DepthOf(n, S) && x.pathcode / S == CodeOf(n, S)
    ensures CodeAt(x, n, S, j + 1) / S == CodeAt(x, n, S, j)
  {
    if j < DepthOf(n, S) {
      AncestorIsParent(n, S, j);
      var m := Ancestor(n, S, j + 1);
      var code := CodeOf(Parent(m, S), S);
      CodeOfChild(code, SlotTried(code, (m - 2) % S, S), S);
    }
  }

  /** Every free path runs along records of the search; one shorter than the
      depth of the record where the search ended would have ended it earlier. */
  lemma {:induction false} PathIsSearched(g: Geometry, t: Table, i1: nat, i2: nat, p: seq<CuckooRecord>, j: nat) returns (m: nat)
    requires g.slots > 0 && Shaped(g, t) && i1 < g.Buckets() && i2 < g.Buckets()
    requires FreePath(g, t, i1, i2, p) && j < |p|
    ensures DepthOf(m, g.slots) == j && BucketOf(g, t, i1, i2, m) == p[j].bucket
  {
    if j == 0 {
      m := if p[0].bucket == i1 then 0 else 1;
    } else {
      var m0 := PathIsSearched(g, t, i1, i2, p, j - 1);
      assert InTable(g, p[j - 1]) && Holds(t, p[j - 1]) && Follows(g, p, j);
      EverySlotIsTried(CodeOf(m0, g.slots), p[j - 1].slot, g.slots);
      var i: nat :| i < g.slots && SlotTried(CodeOf(m0, g.slots), i, g.slots) == p[j - 1].slot;
      ChildCode(m0, i, g.slots);
      ChildBucket(g, t, i1, i2, m0, i);
      m := 2 + m0 * g.slots + i;
    }
  }

  lemma EndIsShortest(g: Geometry, t: Table, i1: nat, i2: nat, n: nat, p: seq<CuckooRecord>)
    requires g.slots > 0 && Shaped(g, t) && i1 < g.Buckets() && i2 < g.Buckets()
    requires AllFullBefore(g, t, i1, i2, n) && FreePath(g, t, i1, i2, p)
    ensures DepthOf(n, g.slots) < |p|
  {
    var m := PathIsSearched(g, t, i1, i2, p, |p| - 1);
    assert InTable(g, p[|p| - 1]);
    assert !Full(t, BucketOf(g, t, i1, i2, m));
    if n <= m { DepthIsMonotone(n, m, g.slots); }
  }

  /** How many records the search goes through completely before its ring is
      full. */
  function Complete(S: nat): nat
    requires S > 1
  {
    (MAX_CUCKOO_COUNT - 4) / (S - 1)
  }

  lemma CompleteIsLooked(m: nat, i: nat, S: nat)
    requires S > 1 && m < Complete(S) && i < S
    ensures Looked(m, i, S)
  {
    var n := Complete(S);
    Arith.DivMod(MAX_CUCKOO_COUNT - 4, S - 1);
    Arith.MulMono(m + 1, n, S - 1);
    assert (m + 1) * (S - 1) == m * (S - 1) + (S - 1) && m * S - m == m * (S - 1);
  }

  /** When the search fails in an unchanged table, no chain of evictions as short
      as those it went through leads to a free slot. */
  lemma ExhaustedHasNoShortPath(g: Geometry, t: Table, i1: nat, i2: nat, p: seq<CuckooRecord>)
    requires g.slots > 1 && Shaped(g, t) && i1 < g.Buckets() && i2 < g.Buckets()
    requires Exhausted(g, t, i1, i2) && FreePath(g, t, i1, i2, p)
    ensures |p| > DepthOf(Complete(g.slots), g.slots)
  {
    var last := p[|p| - 1];
    var m := PathIsSearched(g, t, i1, i2, p, |p| - 1);
    assert InTable(g, last);
    EverySlotIsTried(CodeOf(m, g.slots), last.slot, g.slots);
    var i: nat :| i < g.slots && SlotTried(CodeOf(m, g.slots), i, g.slots) == last.slot;
    assert !TakenAt(g, t, i1, i2, m, i);
    if m < Complete(g.slots) {
      CompleteIsLooked(m, i, g.slots);
    } else {
      DepthIsMonotone(Complete(g.slots), m, g.slots);
    }
  }

  // ---- cuckoopath_search ---------------------------------------------------

  /** Fill in the slots of the path from the end to the beginning; what is left
      of the code says which bucket the path starts on. */
  method DecodeSlots(g: Geometry, path: array<CuckooRecord>, x: BSlot, ghost n: nat) returns (code: nat)
    requires g.slots > 0 && path.Length == MAX_BFS_PATH_LEN
    requires x.depth == DepthOf(n, g.slots) < MAX_BFS_PATH_LEN - 1 && x.pathcode / g.slots == CodeOf(n, g.slots)
    modifies path
    ensures code == Ancestor(n, g.slots, 0) && code in {0, 1}
    ensures forall j | 0 <= j <= x.depth :: path[j].slot == CodeAt(x, n, g.slots, j + 1) % g.slots
  {
    code := x.pathcode;
    var i := x.depth;
    while i >= 0
      invariant -1 <= i <= x.depth
      invariant code == CodeAt(x, n, g.slots, i + 1)
      invariant forall j | i < j <= x.depth :: path[j].slot == CodeAt(x, n, g.slots, j + 1) % g.slots
    {
      path[i] := path[i].(slot := code % g.slots);
      CodeStep(x, n, g.slots, i);
      code := code / g.slots;
      i := i - 1;
    }
  }

  /** The path so far, decoded up to position i, is the one the search took. */
  ghost predicate Retraces(g: Geometry, t: Table, i1: nat, i2: nat, x: BSlot, n: nat, p: seq<CuckooRecord>, i: nat)
    requires g.slots > 0 && Shaped(g, t) && i1 < g.Buckets() && i2 < g.Buckets()
    requires i < |p| && i <= DepthOf(n, g.slots)
  {
    && p[i].bucket == BucketOf(g, t, i1, i2, Ancestor(n, g.slots, i))
    && forall j | 0 <= j < i :: Holds(t, p[j])
  }

  ghost predicate AllHomed(g: Geometry, obs: nat -> Table) {
    ShapedAll(g, obs) && forall n :: Homed(g, obs(n))
  }

  /** One step along a branch of the search in an unchanged table. */
  lemma RetracesOn(g: Geometry, t: Table, i1: nat, i2: nat, x: BSlot, n: nat, p: seq<CuckooRecord>, i: nat)
    requires g.slots > 0 && Shaped(g, t) && i1 < g.Buckets() && i2 < g.Buckets()
    requires i + 1 < |p| && i + 1 <= DepthOf(n, g.slots) && x.depth == DepthOf(n, g.slots)
    requires Retraces(g, t, i1, i2, x, n, p, i) && AllFullBefore(g, t, i1, i2, n)
    requires p[i].slot == CodeAt(x, n, g.slots, i + 1) % g.slots
    requires p[i].key == t[p[i].bucket][p[i].slot].key && Follows(g, p, i + 1)
    ensures Retraces(g, t, i1, i2, x, n, p, i + 1)
  {
    var m := Ancestor(n, g.slots, i);
    AncestorIsParent(n, g.slots, i);
    assert m != n;
    assert Full(t, BucketOf(g, t, i1, i2, m));
  }

  /** Positions 0..i of a path are filled in, keys only before i. */
  ghost predicate Prefix(g: Geometry, p: seq<CuckooRecord>, i1: nat, i2: nat, i: nat)
    requires i < |p|
  {
    && p[0].bucket in {i1, i2}
    && (forall j | 0 <= j <= i :: InTable(g, p[j]))
    && (forall j | 0 < j <= i :: Follows(g, p, j))
    && (forall j | 0 <= j < i :: g.IsHome(p[j].key, p[j].bucket))
  }

  /** Position i of the path under its bucket's lock: is its slot free?  If not,
      its key is recorded. */
  method Look(g: Geometry, obs: nat -> Table, path: array<CuckooRecord>, i: nat, start: nat)
    returns (free: bool, now: nat, held: set<nat>)
    requires AllHomed(g, obs) && i < path.Length && InTable(g, path[i])
    modifies path
    ensures held == {}
    ensures path[..] == old(path[..])[i := old(path[i]).(key := path[i].key)]
    ensures !free ==> g.IsHome(path[i].key, path[i].bucket)
    ensures Unchanging(obs, obs(0)) ==> free == !obs(0)[path[i].bucket][path[i].slot].occupied
    ensures Unchanging(obs, obs(0)) && !free ==> Holds(obs(0), path[i])
  {
    held := {LockInd(path[i].bucket)};
    var t: Table := obs(start);
    now := start + 1;
    free := !t[path[i].bucket][path[i].slot].occupied;
    if !free { path[i] := path[i].(key := t[path[i].bucket][path[i].slot].key); }
    held := held - {LockInd(path[i].bucket)};
  }

  /** What Prefix and Retraces say does not depend on the key at i or on what
      follows. */
  lemma SameUpTo(g: Geometry, p: seq<CuckooRecord>, p': seq<CuckooRecord>, i1: nat, i2: nat, i: nat)
    requires |p| == |p'| && i < |p| && Prefix(g, p, i1, i2, i)
    requires forall j | 0 <= j < i :: p'[j] == p[j]
    requires p'[i].bucket == p[i].bucket && p'[i].slot == p[i].slot
    ensures Prefix(g, p', i1, i2, i)
  {
    forall j | 0 <= j <= i ensures InTable(g, p'[j]) { assert InTable(g, p[j]); }
    forall j | 0 < j <= i ensures Follows(g, p', j) { assert Follows(g, p, j); }
  }

  ghost predicate SlotsDecoded(p: seq<CuckooRecord>, x: BSlot, n: nat, S: nat)
    requires S > 0 && x.depth == DepthOf(n, S) < |p|
  {
    forall j | 0 <= j <= x.depth :: p[j].slot == CodeAt(x, n, S, j + 1) % S
  }

  /** The finished path in an unchanged table. */
  lemma RetracedIsShortest(g: Geometry, t: Table, i1: nat, i2: nat, x: BSlot, n: nat, p: seq<CuckooRecord>)
    requires g.slots > 0 && Shaped(g, t) && i1 < g.Buckets() && i2 < g.Buckets()
    requires x.depth == DepthOf(n, g.slots) < |p| && SlotsDecoded(p, x, n, g.slots)
    requires Prefix(g, p, i1, i2, x.depth) && Retraces(g, t, i1, i2, x, n, p, x.depth)
    requires x.bucket == BucketOf(g, t, i1, i2, n) && !t[x.bucket][x.pathcode % g.slots].occupied
    requires AllFullBefore(g, t, i1, i2, n)
    ensures Shortest(g, t, i1, i2, p[..x.depth + 1])
  {
    var q := p[..x.depth + 1];
    assert forall j | 0 < j < |q| :: Follows(g, q, j) by {
      forall j | 0 < j < |q| ensures Follows(g, q, j) { assert Follows(g, p, j); }
    }
    forall q' | FreePath(g, t, i1, i2, q') ensures |q| <= |q'| { EndIsShortest(g, t, i1, i2, n, q'); }
  }

  lemma Extended(g: Geometry, p: seq<CuckooRecord>, p': seq<CuckooRecord>, i1: nat, i2: nat, i: nat)
    requires i + 1 < |p| && Prefix(g, p, i1, i2, i) && g.IsHome(p[i].key, p[i].bucket) && p[i + 1].slot < g.slots
    requires p' == p[i + 1 := p[i + 1].(bucket := g.Alt(p[i].key, p[i].bucket))]
    ensures Prefix(g, p', i1, i2, i + 1)
  {
    forall j | 0 <= j <= i + 1 ensures InTable(g, p'[j]) { if j <= i { assert InTable(g, p[j]); } }
    forall j | 0 < j <= i + 1 ensures Follows(g, p', j) { if j <= i { assert Follows(g, p, j); } }
  }

  /** Fill in the buckets and keys of the path from the beginning to the end,
      stopping early where the path has meanwhile become free. */
  method FollowPath(g: Geometry, obs: nat -> Table, path: array<CuckooRecord>, i1: nat, i2: nat, start: nat, x: BSlot, ghost n: nat)
    returns (depth: nat, now: nat, held: set<nat>)
    requires g.slots > 0 && AllHomed(g, obs) && i1 < g.Buckets() && i2 < g.Buckets()
    requires path.Length == MAX_BFS_PATH_LEN && x.depth == DepthOf(n, g.slots) < MAX_BFS_PATH_LEN - 1
    requires SlotsDecoded(path[..], x, n, g.slots) && Prefix(g, path[..], i1, i2, 0)
    requires Unchanging(obs, obs(0)) ==> Retraces(g, obs(0), i1, i2, x, n, path[..], 0) && AllFullBefore(g, obs(0), i1, i2, n)
    modifies path
    ensures held == {} && depth <= x.depth
    ensures SlotsDecoded(path[..], x, n, g.slots) && Prefix(g, path[..], i1, i2, depth)
    ensures Unchanging(obs, obs(0)) ==> depth == x.depth && Retraces(g, obs(0), i1, i2, x, n, path[..], depth)
  {
    ghost var still := Unchanging(obs, obs(0));
    now, held, depth := start, {}, 0;
    while true
      invariant depth <= x.depth && held == {}
      invariant SlotsDecoded(path[..], x, n, g.slots)
      invariant Prefix(g, path[..], i1, i2, depth)
      invariant still ==> Retraces(g, obs(0), i1, i2, x, n, path[..], depth)
      decreases x.depth - depth
    {
      ghost var p0 := path[..];
      var free;
      free, now, held := Look(g, obs, path, depth, now);
      ghost var p1 := path[..];
      SameUpTo(g, p0, p1, i1, i2, depth);
      if still && depth < x.depth {
        AncestorIsParent(n, g.slots, depth);
        assert Full(obs(0), BucketOf(g, obs(0), i1, i2, Ancestor(n, g.slots, depth)));
        assert !free;
      }
      if free || depth == x.depth {
        break;
      }
      path[depth + 1] := path[depth + 1].(bucket := g.Alt(path[depth].key, path[depth].bucket));
      ghost var p2 := path[..];
      assert p2 == p1[depth + 1 := p1[depth + 1].(bucket := g.Alt(p1[depth].key, p1[depth].bucket))];
      Extended(g, p1, p2, i1, i2, depth);
      if still { RetracesOn(g, obs(0), i1, i2, x, n, p2, depth); }
      depth := depth + 1;
    }
  }

  lemma PrefixIsShape(g: Geometry, p: seq<CuckooRecord>, i1: nat, i2: nat, d: nat)
    requires d + 1 < MAX_BFS_PATH_LEN && d < |p| && Prefix(g, p, i1, i2, d)
    ensures PathShape(g, p[..d + 1], i1, i2)
  {
    var q := p[..d + 1];
    forall j | 0 <= j < |q| ensures q[j].bucket < g.Buckets() && q[j].slot < g.slots { assert InTable(g, p[j]); }
    forall j: nat | 0 < j < |q| ensures Follows(g, q, j) { assert Follows(g, p, j); }
  }

  method CuckooPathSearch(g: Geometry, obs: nat -> Table, path: array<CuckooRecord>, i1: nat, i2: nat, start: nat)
    returns (depth: int, now: nat, held: set<nat>)
    requires SlotsAllowed(g.slots) && g.slots > 0 && AllHomed(g, obs) && i1 < g.Buckets() && i2 < g.Buckets()
    requires path.Length == MAX_BFS_PATH_LEN
    modifies path
    ensures held == {} && -1 <= depth < MAX_BFS_PATH_LEN - 1
    ensures depth >= 0 ==> PathShape(g, path[..depth + 1], i1, i2)
    ensures depth >= 0 ==> forall j | 0 <= j < depth :: g.IsHome(path[j].key, path[j].bucket)
    ensures depth >= 0 && Unchanging(obs, obs(0)) ==> Shortest(g, obs(0), i1, i2, path[..depth + 1])
    ensures Unchanging(obs, obs(0)) ==> (depth == -1 <==> Exhausted(g, obs(0), i1, i2))
  {
    var x;
    x, now, held := SlotSearch(g, obs, i1, i2, start);
    if x.depth == -1 {
      return -1, now, held;
    }
    ghost var n: nat :| EndsAt(g, obs, i1, i2, x, n);
    ghost var still := Unchanging(obs, obs(0));
    var code := DecodeSlots(g, path, x, n);
    assert code == 0 || code == 1;
    path[0] := path[0].(bucket := if code == 0 then i1 else i2);
    depth, now, held := FollowPath(g, obs, path, i1, i2, now, x, n);
    if still { RetracedIsShortest(g, obs(0), i1, i2, x, n, path[..]); }
    PrefixIsShape(g, path[..], i1, i2, depth);
  }
}
