/** The cuckoo hash map as one thread uses it: insertion with cuckoo moves and
    expansion, deletion, update and lookup refine a map, and the per-core
    counters count its entries. */
module CuckooMap {
  import opened CuckooIndex
  import opened CuckooTable
  import opened CuckooSearch
  import opened CuckooPath
  import opened Counters
  import Arith

  /** What an insertion answers; TooBig stands for a run that asks for a table of
      2^32 buckets, which `1U << hashpower` cannot express. */
  datatype Status = Inserted | Duplicate | TableFull | TooBig

  /** What an expansion answers; TooLarge as TooBig. */
  datatype Expansion = Expanded | UnderExpansion | TooLarge

  /** cuckoo_insert finds no place for a key: its home buckets are full and the
      search for a path fails. */
  ghost predicate Blocked(g: Geometry, t: Table, k: Key)
    requires g.slots > 0 && Shaped(g, t)
  {
    Full(t, g.First(k)) && Full(t, g.Second(k)) && Exhausted(g, t, g.First(k), g.Second(k))
  }

  ghost predicate Submap(m: map<Key, Val>, m': map<Key, Val>) {
    forall k | k in m :: k in m' && m'[k] == m[k]
  }

  /** Table t of hash power 31 holds a part of m, and no place for key k of m. */
  ghost predicate StuckAt(hash: Key -> Word, slots: nat, m: map<Key, Val>, t: Table, k: Key) {
    var g := Geometry(31, hash, slots);
    slots > 0 && Ok(g, t) && Submap(Abs(t), m) && k in m && k !in Abs(t) && Blocked(g, t, k)
  }

  /** Some table of the largest size, holding a part of m, blocks a key of m. */
  ghost predicate Unplaceable(hash: Key -> Word, slots: nat, m: map<Key, Val>) {
    exists t, k :: StuckAt(hash, slots, m, t, k)
  }

  lemma UnplaceableGrows(hash: Key -> Word, slots: nat, m: map<Key, Val>, m': map<Key, Val>)
    requires Unplaceable(hash, slots, m) && Submap(m, m')
    ensures Unplaceable(hash, slots, m')
  {
    var t, k :| StuckAt(hash, slots, m, t, k);
    assert StuckAt(hash, slots, m', t, k);
  }

  /** Fewer pairs than a bucket has slots never block an insertion. */
  lemma FewAreNotBlocked(g: Geometry, t: Table, k: Key)
    requires g.slots > 0 && Ok(g, t) && |Abs(t)| < g.slots
    ensures !Blocked(g, t, k)
  {
    var b := g.First(k);
    if Full(t, b) { BucketKeys(g, t, b, g.slots); }
  }

  lemma {:induction false} BucketKeys(g: Geometry, t: Table, b: nat, n: nat)
    requires Ok(g, t) && Full(t, b) && n <= g.slots
    ensures n <= |Abs(t)|
  {
    var ks := set j | 0 <= j < n :: t[b][j].key;
    DistinctKeys(g, t, b, n);
    forall k | k in ks ensures k in Abs(t).Keys {
      var j: nat :| j < n && t[b][j].key == k;
      AbsAt(t, b, j);
    }
    SubsetSize(ks, Abs(t).Keys);
    assert |Abs(t).Keys| == |Abs(t)|;
  }

  lemma SubsetSize(a: set<Key>, b: set<Key>)
    requires a <= b
    ensures |a| <= |b|
  {
    assert b == a + (b - a);
  }

  lemma {:induction false} DistinctKeys(g: Geometry, t: Table, b: nat, n: nat)
    requires Ok(g, t) && Full(t, b) && n <= g.slots
    ensures |set j | 0 <= j < n :: t[b][j].key| == n
  {
    var ks := set j | 0 <= j < n :: t[b][j].key;
    if n == 0 {
      assert ks == {};
    } else {
      var rest := set j | 0 <= j < n - 1 :: t[b][j].key;
      DistinctKeys(g, t, b, n - 1);
      var last := t[b][n - 1].key;
      assert At(t, b, n - 1, last);
      if last in rest {
        var j: nat :| j < n - 1 && t[b][j].key == last;
        assert At(t, b, j, last);
      }
      assert ks == rest + {last};
    }
  }

  /** The state of a table: its contents are well placed and without duplicates,
      and its counters agree with them. */
  ghost predicate Consistent(g: Geometry, cores: nat, t: Table, inserts: seq<nat>, deletes: seq<nat>) {
    match g
    case Geometry(_, _, slots) =>
      && SlotsAllowed(slots) && slots > 0 && cores > 0
      && Ok(g, t)
      && |inserts| == |deletes| == cores
      && (forall c | 0 <= c < cores :: inserts[c] < WORD && deletes[c] < WORD)
      && Counts(inserts, deletes, |Abs(t)|)
  }

  lemma ClearedIsConsistent(g: Geometry, cores: nat, t: Table, inserts: seq<nat>, deletes: seq<nat>)
    requires SlotsAllowed(g.slots) && g.slots > 0 && cores > 0 && Shaped(g, t)
    requires forall b, s | 0 <= b < |t| && 0 <= s < |t[b]| :: t[b][s] == Slot(false, 0, 0)
    requires |inserts| == cores && inserts == deletes && forall c | 0 <= c < cores :: inserts[c] == 0
    ensures Consistent(g, cores, t, inserts, deletes) && Abs(t) == map[]
  {
    EmptyTable(t);
    ResetCounts(inserts, deletes);
  }

  /** A table that an expansion copies. */
  ghost predicate Source(t: Table, slots: nat) {
    Unique(t) && forall b: nat | b < |t| :: RowHas(t, b, slots)
  }

  ghost predicate RowHas(t: Table, b: nat, slots: nat)
    requires b < |t|
  {
    |t[b]| == slots
  }

  class CuckooHashMap {
    const hash: Key -> Word
    const slots: nat
    const cores: nat
    const rand: nat -> nat   // what rand() answers when a thread picks its counter
    var hp: HashPower
    var buckets: Table
    var inserts: seq<nat>
    var deletes: seq<nat>

    function Geo(): Geometry
      reads this`hp
    {
      Geometry(hp, hash, slots)
    }

    ghost predicate Valid()
      reads this
    {
      Consistent(Geo(), cores, buckets, inserts, deletes)
    }

    ghost function Contents(): map<Key, Val>
      reads this
    {
      Abs(buckets)
    }

    constructor (hash: Key -> Word, slots: nat, cores: nat, rand: nat -> nat, hp: HashPower)
      requires SlotsAllowed(slots) && cores > 0
      ensures Valid() && Contents() == map[]
      ensures this.hash == hash && this.slots == slots && this.cores == cores && this.hp == hp
    {
      this.hash, this.slots, this.cores, this.rand, this.hp := hash, slots, cores, rand, hp;
      buckets := seq(HashSize(hp), _ => seq(slots, _ => Slot(false, 0, 0)));
      inserts, deletes := seq(cores, _ => 0), seq(cores, _ => 0);
      new;
      AtLeastFourSlots(slots);
      ClearedIsConsistent(Geo(), cores, buckets, inserts, deletes);
    }

    // ---- one bucket --------------------------------------------------------

    /** try_find_insert_bucket: is the key absent, and the first empty slot. */
    method TryFindInsertBucket(key: Key, i: nat) returns (absent: bool, j: int)
      requires Shaped(Geo(), buckets) && i < |buckets|
      ensures absent <==> forall s: nat :: !At(buckets, i, s, key)
      ensures -1 <= j < slots
      ensures absent && j >= 0 ==> !buckets[i][j].occupied && forall s | 0 <= s < j :: buckets[i][s].occupied
      ensures absent && j < 0 ==> Full(buckets, i)
    {
      j := -1;
      var foundEmpty := false;
      for k := 0 to slots
        invariant -1 <= j < k && (foundEmpty <==> j >= 0)
        invariant forall s: nat | s < k :: !At(buckets, i, s, key)
        invariant j >= 0 ==> !buckets[i][j].occupied && forall s | 0 <= s < j :: buckets[i][s].occupied
        invariant j < 0 ==> forall s | 0 <= s < k :: buckets[i][s].occupied
      {
        if buckets[i][k].occupied {
          if buckets[i][k].key == key {
            assert At(buckets, i, k, key);
            return false, j;
          }
        } else if !foundEmpty {
          foundEmpty, j := true, k;
        }
      }
      absent := true;
    }

    /** The slot of a key in a bucket, or -1: the scan that lookup, deletion and
        update share. */
    method Scan(key: Key, i: nat) returns (j: int)
      requires Shaped(Geo(), buckets) && i < |buckets|
      ensures -1 <= j < slots
      ensures j >= 0 ==> At(buckets, i, j, key)
      ensures j < 0 ==> forall s: nat :: !At(buckets, i, s, key)
    {
      for k := 0 to slots
        invariant forall s: nat | s < k :: !At(buckets, i, s, key)
      {
        if buckets[i][k].occupied && buckets[i][k].key == key {
          return k;
        }
      }
      j := -1;
    }

    /** The place of a key in either home bucket, first one first. */
    method Locate(key: Key) returns (found: bool, b: nat, s: nat)
      requires Ok(Geo(), buckets)
      ensures found <==> key in Contents()
      ensures found ==> At(buckets, b, s, key) && Contents()[key] == buckets[b][s].val
    {
      var (i1, i2) := (Geo().First(key), Geo().Second(key));
      var j := Scan(key, i1);
      b, s, found := i1, 0, j >= 0;
      if j >= 0 {
        s := j;
      } else {
        j := Scan(key, i2);
        if j >= 0 { b, s, found := i2, j, true; }
      }
      if found {
        AbsAt(buckets, b, s);
      } else if key in Contents() {
        StoredAtHome(Geo(), buckets, key);
      }
    }

    // ---- lookup, deletion, update ------------------------------------------

    method Find(key: Key) returns (found: bool, val: Val)
      requires Ok(Geo(), buckets)
      ensures found <==> key in Contents()
      ensures found ==> val == Contents()[key]
    {
      var b, s;
      found, b, s := Locate(key);
      val := if found then buckets[b][s].val else 0;
    }

    /** erase; `counterid` is the calling thread's counter. */
    method Erase(key: Key, counterid: nat) returns (erased: bool)
      requires Valid() && counterid < cores
      modifies this`buckets, this`deletes
      ensures Valid()
      ensures erased <==> key in old(Contents())
      ensures Contents() == old(Contents()) - {key}
    {
      var b, s;
      erased, b, s := Locate(key);
      if erased {
        EraseAbs(Geo(), buckets, b, s);
        BumpCounts(inserts, deletes, |Contents()|, counterid);
        RemoveSize(Contents(), key);
        buckets := SetSlot(buckets, b, s, buckets[b][s].(occupied := false));
        deletes := Bump(deletes, counterid);
      }
    }

    /** update_fn, and update with a constant function. */
    method UpdateFn(key: Key, fn: Val -> Val) returns (updated: bool)
      requires Valid()
      modifies this`buckets
      ensures Valid()
      ensures updated <==> key in old(Contents())
      ensures Contents() == if updated then old(Contents())[key := fn(old(Contents())[key])] else old(Contents())
    {
      var b, s;
      updated, b, s := Locate(key);
      if updated {
        UpdateAbs(Geo(), buckets, b, s, fn(buckets[b][s].val));
        ReplaceSize(Contents(), key, fn(buckets[b][s].val));
        buckets := SetSlot(buckets, b, s, buckets[b][s].(val := fn(buckets[b][s].val)));
      }
    }

    /** cuckoo_size: both sums and their difference are taken in 64-bit words. */
    method Size() returns (n: nat)
      requires Valid()
      ensures n == |Contents()| % WORD
    {
      CountsDiffer(inserts, deletes, |Contents()|);
      var ins := SumWrapped(inserts);
      var del := SumWrapped(deletes);
      n := Minus(ins, del);
    }

    /** cuckoo_clear. */
    method Clear()
      requires Valid()
      modifies this`buckets, this`inserts, this`deletes
      ensures Valid() && Contents() == map[]
    {
      buckets := seq(HashSize(hp), _ => seq(slots, _ => Slot(false, 0, 0)));
      inserts, deletes := seq(cores, _ => 0), seq(cores, _ => 0);
      ClearedIsConsistent(Geo(), cores, buckets, inserts, deletes);
    }

    // ---- cuckoo moves --------------------------------------------------------

    /** One swap of cuckoopath_move, if the table is still as the path says. */
    method SwapInto(p: seq<CuckooRecord>, depth: nat) returns (swapped: bool)
      requires Shaped(Geo(), buckets) && AllInTable(Geo(), p) && 0 < depth < |p|
      modifies this`buckets
      ensures swapped <==> CanSwap(Geo(), old(buckets), p, depth)
      ensures buckets == if swapped then Swap(Geo(), old(buckets), p, depth) else old(buckets)
    {
      assert InTable(Geo(), p[depth - 1]) && InTable(Geo(), p[depth]);
      var (fb, fs, tb, ts) := (p[depth - 1].bucket, p[depth - 1].slot, p[depth].bucket, p[depth].slot);
      if buckets[fb][fs].key != p[depth - 1].key || buckets[tb][ts].occupied || !buckets[fb][fs].occupied {
        return false;
      }
      buckets := Move(buckets, fb, fs, tb, ts);
      swapped := true;
    }

    /** The loop of cuckoopath_move, from the end of the path to its start. */
    method MoveAlong(p: seq<CuckooRecord>) returns (moved: bool)
      requires Shaped(Geo(), buckets) && AllInTable(Geo(), p) && |p| > 1
      modifies this`buckets
      ensures (buckets, moved) == Replay(Geo(), old(buckets), p)
    {
      var depth := |p| - 1;
      while depth > 0
        invariant 0 <= depth < |p| && Shaped(Geo(), buckets)
        invariant ReplayFrom(Geo(), buckets, p, depth) == ReplayFrom(Geo(), old(buckets), p, |p| - 1)
      {
        var swapped := SwapInto(p, depth);
        if !swapped {
          return false;
        }
        depth := depth - 1;
      }
      moved := true;
    }

    /** cuckoopath_move. */
    method CuckooPathMove(p: seq<CuckooRecord>, i1: nat, i2: nat) returns (moved: bool)
      requires Ok(Geo(), buckets) && PathShape(Geo(), p, i1, i2)
      modifies this`buckets
      ensures (buckets, moved) == Replay(Geo(), old(buckets), p)
      ensures Ok(Geo(), buckets) && Contents() == old(Contents()) && (moved ==> IsFree(buckets, p[0]))
    {
      InShape(Geo(), p, i1, i2);
      ReplayKeepsMap(Geo(), buckets, p, i1, i2);
      if |p| == 1 {
        moved := !buckets[p[0].bucket][p[0].slot].occupied;
      } else {
        moved := MoveAlong(p);
      }
    }

    /** run_cuckoo: free a slot in i1 or i2.  With no other thread about, a path
        that is found can be followed at the first attempt, so the retry loop of
        the source runs once. */
    method RunCuckoo(i1: nat, i2: nat) returns (done: bool, insertBucket: nat, insertSlot: nat)
      requires SlotsAllowed(slots) && slots > 0 && Ok(Geo(), buckets) && i1 < Geo().Buckets() && i2 < Geo().Buckets()
      modifies this`buckets
      ensures Ok(Geo(), buckets) && Contents() == old(Contents())
      ensures done <==> !Exhausted(Geo(), old(buckets), i1, i2)
      ensures !done ==> buckets == old(buckets)
      ensures done ==> insertBucket in {i1, i2} && insertSlot < slots && !buckets[insertBucket][insertSlot].occupied
    {
      var (g, t) := (Geo(), buckets);
      var found, p := FindPath(g, t, i1, i2);
      if !found {
        return false, 0, 0;
      }
      InShape(g, p, i1, i2);
      ShortestCanBeFollowed(g, t, i1, i2, p);
      done := CuckooPathMove(p, i1, i2);
      assert done;
      assert InTable(g, p[0]);
      insertBucket, insertSlot := p[0].bucket, p[0].slot;
    }

    // ---- insertion -----------------------------------------------------------

    /** add_to_bucket. */
    method AddToBucket(key: Key, val: Val, i: nat, j: nat, counterid: nat)
      requires Valid() && counterid < cores && i < |buckets| && j < slots && !buckets[i][j].occupied
      requires key !in Contents() && Geo().IsHome(key, i)
      modifies this`buckets, this`inserts
      ensures Valid() && Contents() == old(Contents())[key := val]
    {
      InsertAbs(Geo(), buckets, i, j, key, val);
      BumpCounts(inserts, deletes, |Contents()|, counterid);
      ReplaceSize(Contents(), key, val);
      buckets := SetSlot(buckets, i, j, Slot(true, key, val));
      inserts := Bump(inserts, counterid);
    }

    /** cuckoo_insert. */
    method CuckooInsert(key: Key, val: Val, counterid: nat) returns (st: Status)
      requires Valid() && counterid < cores
      modifies this`buckets, this`inserts
      ensures Valid() && st in {Inserted, Duplicate, TableFull}
      ensures st == Duplicate <==> key in old(Contents())
      ensures st == TableFull <==> key !in old(Contents()) && Blocked(Geo(), old(buckets), key)
      ensures st == TableFull ==> buckets == old(buckets)
      ensures Contents() == if st == Inserted then old(Contents())[key := val] else old(Contents())
    {
      var (i1, i2) := (Geo().First(key), Geo().Second(key));
      var absent1, res1 := TryFindInsertBucket(key, i1);
      if !absent1 {
        StoredAnywhere(buckets, key, i1);
        return Duplicate;
      }
      var absent2, res2 := TryFindInsertBucket(key, i2);
      if !absent2 {
        StoredAnywhere(buckets, key, i2);
        return Duplicate;
      }
      if key in Contents() { StoredAtHome(Geo(), buckets, key); }
      if res1 != -1 {
        AddToBucket(key, val, i1, res1, counterid);
        return Inserted;
      }
      if res2 != -1 {
        AddToBucket(key, val, i2, res2, counterid);
        return Inserted;
      }
      var done, b, s := RunCuckoo(i1, i2);
      if !done {
        return TableFull;
      }
      var dup, _, _ := Locate(key);
      if dup {
        return Duplicate;
      }
      AddToBucket(key, val, b, s, counterid);
      st := Inserted;
    }

    /** insert and its loop: a full table is expanded and the insertion tried
        again.  It fails only where a table of hash power 31 blocks a key. */
    method Insert(key: Key, val: Val, counterid: nat) returns (st: Status)
      requires Valid() && counterid < cores
      modifies this
      ensures Valid() && st in {Inserted, Duplicate, TooBig} && hp >= old(hp)
      ensures st == Duplicate <==> key in old(Contents())
      ensures Contents() == if st == Inserted then old(Contents())[key := val] else old(Contents())
      ensures st == TooBig ==> Blocked(old(Geo()), old(buckets), key)
      ensures st == TooBig ==> Unplaceable(hash, slots, old(Contents())[key := val])
      decreases 31 - hp, 2
    {
      ghost var m := Contents();
      st := CuckooInsert(key, val, counterid);
      ghost var first := st;
      while st == TableFull
        invariant Valid() && hp >= old(hp) && st in {Inserted, Duplicate, TableFull}
        invariant st == Duplicate <==> key in m
        invariant Contents() == if st == Inserted then m[key := val] else m
        invariant st == TableFull ==> first == TableFull && Blocked(Geo(), buckets, key)
        decreases 31 - hp, st == TableFull
      {
        if hp == 31 {
          assert StuckAt(hash, slots, m[key := val], buckets, key);
          return TooBig;
        }
        var e := ExpandSimple(hp + 1);
        if e == TooLarge {
          UnplaceableGrows(hash, slots, m, m[key := val]);
          return TooBig;
        }
        st := CuckooInsert(key, val, counterid);
      }
    }

    // ---- expansion -----------------------------------------------------------

    /** What insert_into_table does with slot s of bucket b. */
    method InsertSlot(newMap: CuckooHashMap, t: Table, b: nat, s: nat, ghost next: nat, c: nat) returns (done: bool)
      requires newMap.Valid() && c < newMap.cores && Unique(t) && b < |t| && s < |t[b]| && next == s + 1
      requires newMap.Contents() == Abs(UpTo(t, b, s))
      modifies newMap
      ensures newMap.Valid() && newMap.hp >= old(newMap.hp)
      ensures done ==> newMap.Contents() == Abs(UpTo(t, b, next))
      ensures !done ==> Unplaceable(newMap.hash, newMap.slots, Abs(t))
      decreases 31 - newMap.hp, 3
    {
      hide Consistent;
      NextSlot(t, b, s, next);
      done := true;
      if t[b][s].occupied {
        var st := newMap.Insert(t[b][s].key, t[b][s].val, c);
        done := st != TooBig;
        if !done {
          PartIsSubmap(UpTo(t, b, next), t);
          UnplaceableGrows(newMap.hash, newMap.slots, Abs(UpTo(t, b, next)), Abs(t));
        }
      }
    }

    /** The inner loop of insert_into_table. */
    method InsertBucket(newMap: CuckooHashMap, t: Table, b: nat, ghost next: nat, c: nat) returns (done: bool)
      requires newMap.Valid() && Source(t, newMap.slots) && b < |t| && c < newMap.cores && next == b + 1
      requires newMap.Contents() == AbsBefore(t, b)
      modifies newMap
      ensures newMap.Valid() && newMap.hp >= old(newMap.hp)
      ensures done ==> newMap.Contents() == AbsBefore(t, next)
      ensures !done ==> Unplaceable(newMap.hash, newMap.slots, Abs(t))
      decreases 31 - newMap.hp, 4
    {
      hide Consistent;
      var s: nat := 0;
      assert RowHas(t, b, newMap.slots);
      StartBucket(t, b);
      while s < newMap.slots
        invariant s <= newMap.slots && newMap.Valid() && newMap.hp >= old(newMap.hp)
        invariant newMap.Contents() == Abs(UpTo(t, b, s))
      {
        var next: nat := s + 1;
        done := InsertSlot(newMap, t, b, s, next, c);
        if !done {
          return;
        }
        s := next;
      }
      EndBucket(t, b);
      done := true;
    }

    /** insert_into_table: one thread's share of an expansion, with its counter c. */
    method InsertIntoTable(newMap: CuckooHashMap, t: Table, from: nat, end: nat, c: nat) returns (done: bool)
      requires c < newMap.cores && newMap.Valid() && from <= end <= |t| && newMap.Contents() == AbsBefore(t, from)
      requires Source(t, newMap.slots)
      modifies newMap
      ensures newMap.Valid() && newMap.hp >= old(newMap.hp)
      ensures done ==> newMap.Contents() == AbsBefore(t, end)
      ensures !done ==> Unplaceable(newMap.hash, newMap.slots, Abs(t))
      decreases 31 - newMap.hp, 5
    {
      hide Consistent;
      var b: nat := from;
      while b < end
        invariant from <= b <= end && newMap.Valid() && newMap.hp >= old(newMap.hp)
        invariant newMap.Contents() == AbsBefore(t, b)
      {
        var next: nat := b + 1;
        done := InsertBucket(newMap, t, b, next, c);
        if !done {
          return;
        }
        b := next;
      }
      done := true;
    }

    /** The insertion threads of an expansion, one after the other: every old
        bucket is in one thread's range.  Each thread has picked a counter. */
    method CopyByThreads(newMap: CuckooHashMap, t: Table, threads: nat, counters: nat -> nat) returns (done: bool)
      requires (forall i :: counters(i) < newMap.cores) && newMap.Valid() && newMap.Contents() == map[] && threads > 0
      requires Source(t, newMap.slots)
      modifies newMap
      ensures newMap.Valid() && newMap.hp >= old(newMap.hp)
      ensures done ==> newMap.Contents() == Abs(t)
      ensures !done ==> Unplaceable(newMap.hash, newMap.slots, Abs(t))
      decreases 31 - newMap.hp, 6
    {
      hide Consistent;
      EmptyTable([]);
      assert t[..0] == [];
      var i: nat, from: nat := 0, 0;
      while i < threads
        invariant i <= threads && from == RangeStart(i, threads, |t|)
        invariant newMap.Valid() && newMap.Contents() == AbsBefore(t, from) && newMap.hp >= old(newMap.hp)
      {
        RangesAscend(i, threads, |t|);
        var end := RangeStart(i + 1, threads, |t|);
        done := InsertIntoTable(newMap, t, from, end, counters(i));
        if !done {
          return;
        }
        i, from := i + 1, end;
      }
      assert t[..from] == t;
      done := true;
    }

    /** A map of at least the demanded size with the same contents. */
    method Copied(n: HashPower) returns (newMap: CuckooHashMap, done: bool)
      requires Valid()
      ensures fresh(newMap) && newMap.Valid() && newMap.hp >= n
      ensures newMap.hash == hash && newMap.slots == slots && newMap.cores == cores
      ensures done ==> newMap.Contents() == Contents()
      ensures !done ==> Unplaceable(hash, slots, Contents())
      decreases 32 - n, 0
    {
      newMap := new CuckooHashMap(hash, slots, cores, rand, n);
      done := CopyByThreads(newMap, buckets, cores, i => rand(i) % cores);
    }

    /** cuckoo_expand_simple: the new table has at least the demanded size and
        represents the same map. */
    method ExpandSimple(n: HashPower) returns (e: Expansion)
      requires Valid()
      modifies this
      ensures Valid() && Contents() == old(Contents())
      ensures e == UnderExpansion <==> n <= old(hp)
      ensures e == Expanded ==> hp >= n
      ensures e != Expanded ==> hp == old(hp) && buckets == old(buckets)
      ensures e == TooLarge ==> Unplaceable(hash, slots, Contents())
      decreases 32 - n, 1
    {
      if n <= hp {
        return UnderExpansion;
      }
      var newMap, done := Copied(n);
      if !done {
        return TooLarge;
      }
      hp, buckets, inserts, deletes := newMap.hp, newMap.buckets, newMap.inserts, newMap.deletes;
      e := Expanded;
    }
  }

  lemma StoredAnywhere(t: Table, k: Key, b: nat)
    requires exists s: nat :: At(t, b, s, k)
    ensures k in Abs(t)
  {
    var s: nat :| At(t, b, s, k);
    assert Stored(t, k);
    StoredIffMapped(t, k);
  }

  // ---- the order in which an expansion visits the old table ------------------

  /** The map that the buckets before b represent. */
  ghost function AbsBefore(t: Table, b: nat): map<Key, Val>
    requires b <= |t|
  {
    Abs(t[..b])
  }

  /** The buckets before b and the slots before s of bucket b. */
  function UpTo(t: Table, b: nat, s: nat): Table
    requires b < |t| && s <= |t[b]|
  {
    t[..b] + [t[b][..s]]
  }

  /** A table with fewer slots of the same content. */
  ghost predicate Part(p: Table, t: Table) {
    |p| <= |t| && forall b | 0 <= b < |p| :: |p[b]| <= |t[b]| && forall s | 0 <= s < |p[b]| :: p[b][s] == t[b][s]
  }

  lemma PartIsUnique(p: Table, t: Table)
    requires Part(p, t) && Unique(t)
    ensures Unique(p)
  {
    forall k, b: nat, s: nat, b': nat, s': nat | At(p, b, s, k) && At(p, b', s', k) ensures b == b' && s == s' {
      assert At(t, b, s, k) && At(t, b', s', k);
    }
  }

  lemma PartIsSubmap(p: Table, t: Table)
    requires Part(p, t) && Unique(t)
    ensures Submap(Abs(p), Abs(t))
  {
    PartIsUnique(p, t);
    forall k | k in Abs(p) ensures k in Abs(t) && Abs(t)[k] == Abs(p)[k] {
      StoredIffMapped(p, k);
      var b: nat, s: nat :| At(p, b, s, k);
      AbsAt(p, b, s);
      AbsAt(t, b, s);
    }
  }

  /** Parts with the same occupied slots represent the same map. */
  lemma SameSlotsSameAbs(p: Table, q: Table)
    requires Unique(p) && Unique(q)
    requires forall k, b: nat, s: nat :: At(p, b, s, k) <==> At(q, b, s, k)
    requires forall k, b: nat, s: nat | At(p, b, s, k) :: p[b][s] == q[b][s]
    ensures Abs(p) == Abs(q)
  {
    forall b, s | 0 <= b < |q| && 0 <= s < |q[b]| && q[b][s].occupied
      ensures q[b][s].key in Abs(p) && Abs(p)[q[b][s].key] == q[b][s].val
    {
      assert At(q, b, s, q[b][s].key);
      assert At(p, b, s, q[b][s].key);
      AbsAt(p, b, s);
    }
    forall k | k in Abs(p) ensures Stored(q, k) {
      StoredIffMapped(p, k);
      var b: nat, s: nat :| At(p, b, s, k);
      assert At(q, b, s, k);
    }
    AbsIs(q, Abs(p));
  }

  lemma StartBucket(t: Table, b: nat)
    requires Unique(t) && b < |t|
    ensures Abs(UpTo(t, b, 0)) == AbsBefore(t, b)
  {
    PartIsUnique(UpTo(t, b, 0), t);
    PartIsUnique(t[..b], t);
    SameSlotsSameAbs(UpTo(t, b, 0), t[..b]);
  }

  lemma EndBucket(t: Table, b: nat)
    requires Unique(t) && b < |t|
    ensures Abs(UpTo(t, b, |t[b]|)) == AbsBefore(t, b + 1)
  {
    assert t[b][..|t[b]|] == t[b];
    assert UpTo(t, b, |t[b]|) == t[..b + 1];
  }

  /** The next slot adds its pair, under a key not met before, or nothing. */
  lemma NextSlot(t: Table, b: nat, s: nat, next: nat)
    requires Unique(t) && b < |t| && s < |t[b]| && next == s + 1
    ensures t[b][s].occupied ==> t[b][s].key !in Abs(UpTo(t, b, s))
    ensures Abs(UpTo(t, b, next)) ==
            if t[b][s].occupied then Abs(UpTo(t, b, s))[t[b][s].key := t[b][s].val] else Abs(UpTo(t, b, s))
  {
    var p: Table := UpTo(t, b, s);
    var q: Table := UpTo(t, b, next);
    var x := t[b][s];
    PartIsUnique(p, t);
    PartIsUnique(q, t);
    if x.occupied {
      StoredIffMapped(p, x.key);
      if Stored(p, x.key) {
        var c: nat, r: nat :| At(p, c, r, x.key);
        assert At(t, c, r, x.key) && At(t, b, s, x.key);
      }
      forall c, r | 0 <= c < |q| && 0 <= r < |q[c]| && q[c][r].occupied
        ensures q[c][r].key in Abs(p)[x.key := x.val] && Abs(p)[x.key := x.val][q[c][r].key] == q[c][r].val
      {
        if (c, r) != (b, s) { AbsAt(p, c, r); }
      }
      forall k | k in Abs(p)[x.key := x.val] ensures Stored(q, k) {
        if k == x.key {
          assert At(q, b, s, k);
        } else {
          StoredIffMapped(p, k);
          var c: nat, r: nat :| At(p, c, r, k);
          assert At(q, c, r, k);
        }
      }
      AbsIs(q, Abs(p)[x.key := x.val]);
    } else {
      SameSlotsSameAbs(q, p);
    }
  }

  /** Where thread i's range of old buckets starts; the last range ends with the
      table. */
  function RangeStart(i: nat, threads: nat, n: nat): (b: nat)
    requires 0 < threads && i <= threads
    ensures b <= n
  {
    Arith.DivMod(n, threads);
    Arith.MulMono(i, threads, n / threads);
    if i == threads then n else i * (n / threads)
  }

  lemma RangesAscend(i: nat, threads: nat, n: nat)
    requires i < threads
    ensures RangeStart(i, threads, n) <= RangeStart(i + 1, threads, n) <= n
  {
    var per := n / threads;
    Arith.DivMod(n, threads);
    Arith.MulMono(i, i + 1, per);
    Arith.MulMono(i + 1, threads, per);
    assert per * threads == threads * per;
  }

  /** Every old bucket is in the range of exactly one thread, for every number of
      threads. */
  lemma {:induction false} RangesPartition(b: nat, threads: nat, n: nat) returns (i: nat)
    requires 0 < threads && b < n
    ensures i < threads && RangeStart(i, threads, n) <= b < RangeStart(i + 1, threads, n)
    ensures forall j: nat | j < threads && RangeStart(j, threads, n) <= b < RangeStart(j + 1, threads, n) :: j == i
  {
    i := 0;
    while b >= RangeStart(i + 1, threads, n)
      invariant i < threads && RangeStart(i, threads, n) <= b
      decreases threads - i
    {
      i := i + 1;
    }
    forall j: nat | j < threads && RangeStart(j, threads, n) <= b < RangeStart(j + 1, threads, n) ensures j == i {
      if j < i { StartsAscend(j + 1, i, threads, n); }
      if i < j { StartsAscend(i + 1, j, threads, n); }
    }
  }

  lemma {:induction false} StartsAscend(i: nat, j: nat, threads: nat, n: nat)
    requires 0 < threads && i <= j <= threads
    ensures RangeStart(i, threads, n) <= RangeStart(j, threads, n)
  {
    if i < j {
      StartsAscend(i, j - 1, threads, n);
      RangesAscend(j - 1, threads, n);
    }
  }

  /** cuckoopath_search in a table that nobody changes. */
  method FindPath(g: Geometry, t: Table, i1: nat, i2: nat) returns (found: bool, p: seq<CuckooRecord>)
    requires SlotsAllowed(g.slots) && g.slots > 0 && Ok(g, t) && i1 < g.Buckets() && i2 < g.Buckets()
    ensures found ==> PathShape(g, p, i1, i2) && Shortest(g, t, i1, i2, p)
    ensures found <==> !Exhausted(g, t, i1, i2)
  {
    var path := new CuckooRecord[MAX_BFS_PATH_LEN](_ => CuckooRecord(0, 0, 0));
    var obs := (n: nat) => t;
    var depth, now, held := CuckooPathSearch(g, obs, path, i1, i2, 0);
    assert Unchanging(obs, obs(0));
    found := depth >= 0;
    p := if found then path[..depth + 1] else [];
  }

  predicate AllInTable(g: Geometry, p: seq<CuckooRecord>) {
    forall j | 0 <= j < |p| :: InTable(g, p[j])
  }

  /** The pair recorded at position d - 1 is still there and position d is free. */
  predicate CanSwap(g: Geometry, t: Table, p: seq<CuckooRecord>, d: nat)
    requires Shaped(g, t) && AllInTable(g, p) && 0 < d < |p|
  {
    InTable(g, p[d]) && Holds(t, p[d - 1]) && !t[p[d].bucket][p[d].slot].occupied
  }

  function Swap(g: Geometry, t: Table, p: seq<CuckooRecord>, d: nat): (t': Table)
    requires Shaped(g, t) && AllInTable(g, p) && 0 < d < |p| && CanSwap(g, t, p, d)
    ensures Shaped(g, t') && IsFree(t', p[d - 1])
    ensures forall b | 0 <= b < |t| && b != p[d - 1].bucket && b != p[d].bucket :: t'[b] == t[b]
  {
    assert InTable(g, p[d - 1]) && InTable(g, p[d]);
    Move(t, p[d - 1].bucket, p[d - 1].slot, p[d].bucket, p[d].slot)
  }

  /** The swaps from position d of a path down to its start: the table they
      leave and whether all of them found what the path says. */
  function ReplayFrom(g: Geometry, t: Table, p: seq<CuckooRecord>, d: nat): (r: (Table, bool))
    requires Shaped(g, t) && AllInTable(g, p) && d < |p|
    decreases d
  {
    if d == 0 then (t, true)
    else if CanSwap(g, t, p, d) then ReplayFrom(g, Swap(g, t, p, d), p, d - 1)
    else (t, false)
  }

  function Replay(g: Geometry, t: Table, p: seq<CuckooRecord>): (r: (Table, bool))
    requires Shaped(g, t) && AllInTable(g, p) && 0 < |p|
  {
    if |p| == 1 then (t, !t[p[0].bucket][p[0].slot].occupied) else ReplayFrom(g, t, p, |p| - 1)
  }

  ghost predicate IsFree(t: Table, r: CuckooRecord) {
    r.bucket < |t| && r.slot < |t[r.bucket]| && !t[r.bucket][r.slot].occupied
  }

  lemma InShape(g: Geometry, p: seq<CuckooRecord>, i1: nat, i2: nat)
    requires PathShape(g, p, i1, i2)
    ensures AllInTable(g, p)
  {
  }

  lemma {:induction false} ReplayFromKeepsMap(g: Geometry, t: Table, p: seq<CuckooRecord>, d: nat)
    requires Ok(g, t) && AllInTable(g, p) && d < |p|
    requires forall j | 0 < j < |p| :: Follows(g, p, j)
    ensures var (t', moved) := ReplayFrom(g, t, p, d);
            Ok(g, t') && Abs(t') == Abs(t) && (moved && (d > 0 || IsFree(t, p[0])) ==> IsFree(t', p[0]))
    decreases d
  {
    if d > 0 && CanSwap(g, t, p, d) {
      assert Follows(g, p, d) && InTable(g, p[d - 1]) && InTable(g, p[d]);
      MoveAbs(g, t, p[d - 1].bucket, p[d - 1].slot, p[d].bucket, p[d].slot);
      ReplayFromKeepsMap(g, Swap(g, t, p, d), p, d - 1);
    }
  }

  /** Replaying any path of the right shape, however stale, leaves the map as it
      was; if every swap found what it expected, the first position is free. */
  lemma ReplayKeepsMap(g: Geometry, t: Table, p: seq<CuckooRecord>, i1: nat, i2: nat)
    requires Ok(g, t) && PathShape(g, p, i1, i2) && AllInTable(g, p)
    ensures var (t', moved) := Replay(g, t, p);
            Ok(g, t') && Abs(t') == Abs(t) && (moved ==> IsFree(t', p[0]))
  {
    if |p| > 1 { ReplayFromKeepsMap(g, t, p, |p| - 1); }
  }

  /** The part of a path before position d is as it was in table t0, and
      position d is free. */
  ghost predicate OnTrack(t0: Table, t: Table, p: seq<CuckooRecord>, d: nat) {
    && d < |p| && |t| == |t0|
    && (forall j | 0 <= j <= d :: p[j].bucket < |t|)
    && (forall j | 0 <= j < d :: t[p[j].bucket] == t0[p[j].bucket])
    && IsFree(t, p[d])
  }

  lemma SwapStaysOnTrack(g: Geometry, t0: Table, t: Table, i1: nat, i2: nat, p: seq<CuckooRecord>, d: nat)
    requires Shaped(g, t0) && Shaped(g, t) && Shortest(g, t0, i1, i2, p) && OnTrack(t0, t, p, d) && d > 0
    ensures AllInTable(g, p) && CanSwap(g, t, p, d) && OnTrack(t0, Swap(g, t, p, d), p, d - 1)
  {
    assert Holds(t0, p[d - 1]) && InTable(g, p[d - 1]) && InTable(g, p[d]);
    var t': Table := Swap(g, t, p, d);
    forall j | 0 <= j < d - 1 ensures t'[p[j].bucket] == t[p[j].bucket] {
      ShortestDoesNotRepeat(g, t0, i1, i2, p, j, d - 1);
      ShortestDoesNotRepeat(g, t0, i1, i2, p, j, d);
    }
  }

  /** Along a shortest path every move finds what it expects and leaves the rest
      of the path alone. */
  lemma {:induction false} ReplayFollowsShortest(g: Geometry, t0: Table, t: Table, i1: nat, i2: nat, p: seq<CuckooRecord>, d: nat)
    requires Shaped(g, t0) && Shaped(g, t) && Shortest(g, t0, i1, i2, p) && OnTrack(t0, t, p, d)
    ensures AllInTable(g, p) && ReplayFrom(g, t, p, d).1
    decreases d
  {
    if d > 0 {
      SwapStaysOnTrack(g, t0, t, i1, i2, p, d);
      ReplayFollowsShortest(g, t0, Swap(g, t, p, d), i1, i2, p, d - 1);
    }
  }

  /** In an unchanged table the path that the search finds can be followed. */
  lemma ShortestCanBeFollowed(g: Geometry, t: Table, i1: nat, i2: nat, p: seq<CuckooRecord>)
    requires Shaped(g, t) && Shortest(g, t, i1, i2, p)
    ensures AllInTable(g, p) && Replay(g, t, p).1
  {
    assert AllInTable(g, p);
    forall j | 0 <= j < |p| ensures p[j].bucket < |t| { assert InTable(g, p[j]); }
    assert InTable(g, p[|p| - 1]);
    ReplayFollowsShortest(g, t, t, i1, i2, p, |p| - 1);
  }

  lemma RemoveSize(m: map<Key, Val>, k: Key)
    requires k in m
    ensures |m - {k}| == |m| - 1
  {
    assert (m - {k}).Keys == m.Keys - {k};
    assert |(m - {k}).Keys| == |m - {k}| && |m.Keys| == |m|;
  }

  lemma ReplaceSize(m: map<Key, Val>, k: Key, v: Val)
    ensures |m[k := v]| == if k in m then |m| else |m| + 1
  {
    assert m[k := v].Keys == m.Keys + {k};
    assert |m[k := v].Keys| == |m[k := v]| && |m.Keys| == |m|;
  }

  lemma EmptyTable(t: Table)
    requires forall b, s | 0 <= b < |t| && 0 <= s < |t[b]| :: !t[b][s].occupied
    ensures Unique(t) && Abs(t) == map[]
  {
    AbsIs(t, map[]);
  }
}
