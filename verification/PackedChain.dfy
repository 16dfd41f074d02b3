/** One bin of the packed CLHT table, under its lock: linked buckets of three
    entries that are kept full from the front, so that searches may stop at the
    first bucket that is not full. */
module PackedChain {
  import opened Chains

  class Bucket {
    var last: nat
    var entries: seq<Entry>
    var next: Bucket?

    constructor ()
      ensures last == 0 && next == null && entries == [EMPTY, EMPTY, EMPTY]
    {
      last, next := 0, null;
      entries := [EMPTY, EMPTY, EMPTY];
    }
  }

  /** No key twice; here key 0 is a key like any other. */
  ghost predicate Unique(items: seq<Entry>) {
    forall i, j | 0 <= i < j < |items| :: items[i].key != items[j].key
  }

  lemma {:induction false} UniqueFind(items: seq<Entry>, g: nat)
    requires Unique(items) && g < |items|
    ensures Find(items, items[g].key) == Some(items[g].val)
  {
    if g > 0 { UniqueFind(items[1..], g - 1); }
  }

  /** Fill the hole with the last item. */
  function SwapWithLast(items: seq<Entry>, g: nat): seq<Entry>
    requires g < |items|
  {
    items[g := items[|items| - 1]][..|items| - 1]
  }

  /** Filling the hole with the last item removes exactly one pair. */
  lemma SwapWithLastRemoves(items: seq<Entry>, g: nat, k: Key)
    requires Unique(items) && g < |items|
    ensures Unique(SwapWithLast(items, g))
    ensures Find(SwapWithLast(items, g), k) == if k == items[g].key then None else Find(items, k)
  {
    var rest := SwapWithLast(items, g);
    var n := |items| - 1;
    if Find(items, k).Some? && k != items[g].key {
      var s := FindSome(items, k);
      UniqueFind(items, s);
      UniqueFind(rest, if s == n then g else s);
    } else if Find(rest, k).Some? {
      var r := FindSome(rest, k);
      SomeFound(items, k, if r == g then n else r);
    }
  }

  lemma AppendAdds(items: seq<Entry>, k: Key, v: Val, k': Key)
    requires Unique(items) && Find(items, k) == None
    ensures Unique(items + [Entry(k, v)])
    ensures Find(items + [Entry(k, v)], k') == if k' == k then Some(v) else Find(items, k')
  {
    FindNone(items, k);
    var more := items + [Entry(k, v)];
    UniqueFind(more, |items|);
    if Find(items, k').Some? {
      var s := FindSome(items, k');
      UniqueFind(more, s);
    } else if Find(more, k').Some? {
      var s := FindSome(more, k');
      if s < |items| { SomeFound(items, k', s); }
    }
  }

  datatype View = View(entries: seq<Entry>, last: nat)

  /** How many of n items are in bucket i when all earlier buckets are full. */
  function Share(n: nat, i: nat): nat {
    if n <= 3 * i then 0 else if n >= 3 * i + 3 then 3 else n - 3 * i
  }

  /** Bucket i has its share, and item 3 * i + j is its entry j. */
  ghost predicate BucketOk(v: View, items: seq<Entry>, i: nat) {
    && |v.entries| == ENTRIES_PER_BUCKET && v.last == Share(|items|, i)
    && forall j | 0 <= j < v.last :: v.entries[j] == items[3 * i + j]
  }

  /** Packed: every bucket before the last nonempty one is full, and all later
      ones are empty. */
  ghost predicate Packed(vs: seq<View>, items: seq<Entry>) {
    |items| <= 3 * |vs| && forall i: nat | i < |vs| :: BucketAt(vs, items, i)
  }

  ghost predicate BucketAt(vs: seq<View>, items: seq<Entry>, i: nat)
    requires i < |vs|
  {
    BucketOk(vs[i], items, i)
  }

  lemma PackedAdd(vs: seq<View>, items: seq<Entry>, i: nat, e: Entry)
    requires Packed(vs, items) && i < |vs| && vs[i].last < ENTRIES_PER_BUCKET && (i == 0 || vs[i - 1].last == ENTRIES_PER_BUCKET)
    ensures |items| == 3 * i + vs[i].last && vs[i].last < |vs[i].entries|
    ensures Packed(vs[i := View(vs[i].entries[vs[i].last := e], vs[i].last + 1)], items + [e])
  {
    assert BucketAt(vs, items, i);
    if i > 0 { assert BucketAt(vs, items, i - 1); }
    var vs' := vs[i := View(vs[i].entries[vs[i].last := e], vs[i].last + 1)];
    forall c: nat | c < |vs'| ensures BucketAt(vs', items + [e], c) {
      assert BucketAt(vs, items, c);
    }
  }

  lemma PackedGrow(vs: seq<View>, items: seq<Entry>, e: Entry)
    requires Packed(vs, items) && |vs| > 0 && vs[|vs| - 1].last == ENTRIES_PER_BUCKET
    ensures Packed(vs + [View([EMPTY, EMPTY, EMPTY][0 := e], 1)], items + [e])
  {
    assert BucketAt(vs, items, |vs| - 1);
    var vs' := vs + [View([EMPTY, EMPTY, EMPTY][0 := e], 1)];
    forall c: nat | c < |vs'| ensures BucketAt(vs', items + [e], c) {
      if c < |vs| { assert BucketAt(vs, items, c); }
    }
  }

  /** Bucket i gets these entries and bucket m loses its last one. */
  function Filled(vs: seq<View>, i: nat, es: seq<Entry>, m: nat): seq<View>
    requires i < |vs| && m < |vs| && vs[m].last > 0
  {
    var vs1 := vs[i := View(es, vs[i].last)];
    vs1[m := View(vs1[m].entries, vs[m].last - 1)]
  }

  /** Entry j of bucket i becomes what the last entry of bucket m was. */
  lemma PackedFill(vs: seq<View>, items: seq<Entry>, i: nat, j: nat, m: nat, es: seq<Entry>)
    requires Packed(vs, items) && i <= m < |vs| && j < vs[i].last && 0 < vs[m].last <= |vs[m].entries| && |items| == 3 * m + vs[m].last
    requires |es| == ENTRIES_PER_BUCKET && FilledAt(es, vs[i].entries, j, if i == m then vs[m].last - 1 else 3, vs[m].entries[vs[m].last - 1])
    ensures 3 * i + j < |items|
    ensures Packed(Filled(vs, i, es, m), SwapWithLast(items, 3 * i + j))
  {
    assert BucketAt(vs, items, i) && BucketAt(vs, items, m);
    var vs2 := Filled(vs, i, es, m);
    var rest := SwapWithLast(items, 3 * i + j);
    assert vs[m].entries[vs[m].last - 1] == items[3 * m + (vs[m].last - 1)];
    forall c: nat | c < |vs2| ensures BucketAt(vs2, rest, c) {
      assert BucketAt(vs, items, c);
      forall r | 0 <= r < vs2[c].last ensures vs2[c].entries[r] == rest[3 * c + r] {
        assert vs[c].entries[r] == items[3 * c + r];
      }
    }
  }

  /** es is what it was, except for x at entry j, as far as entry `to`. */
  ghost predicate FilledAt(es: seq<Entry>, was: seq<Entry>, j: nat, to: nat, x: Entry) {
    && |was| == |es| && to <= |es|
    && forall r | 0 <= r < to :: es[r] == if r == j then x else was[r]
  }

  class Bin {
    const head: Bucket
    ghost var chain: seq<Bucket>
    ghost var items: seq<Entry>

    /** Bucket i of the chain points to the next one. */
    ghost predicate LinkAt(i: nat)
      requires i < |chain|
      reads this`chain, chain
    {
      if i + 1 < |chain| then chain[i].next == chain[i + 1] else chain[i].next == null
    }

    ghost predicate Linked()
      reads this`chain, chain
    {
      && |chain| > 0 && chain[0] == head
      && (forall i, j | 0 <= i < j < |chain| :: chain[i] != chain[j])
      && (forall i: nat | i < |chain| :: LinkAt(i))
    }

    /** What the buckets hold, without the links. */
    ghost function Views(): (vs: seq<View>)
      reads this`chain, chain
      ensures |vs| == |chain| && forall i | 0 <= i < |chain| :: vs[i] == View(chain[i].entries, chain[i].last)
    {
      ViewsOf(chain)
    }

    static ghost function ViewsOf(c: seq<Bucket>): (vs: seq<View>)
      reads c
      ensures |vs| == |c| && forall i | 0 <= i < |c| :: vs[i] == View(c[i].entries, c[i].last)
    {
      seq(|c|, i requires 0 <= i < |c| reads c => View(c[i].entries, c[i].last))
    }

    ghost predicate Valid()
      reads this, chain
    {
      Linked() && Unique(items) && Packed(Views(), items)
    }

    constructor ()
      ensures Valid() && items == [] && fresh(chain)
    {
      head := new Bucket();
      new;
      chain, items := [head], [];
    }

    /** The entries of bucket i from the last one down. */
    method SearchDown(bucket: Bucket, key: Key, ghost i: nat) returns (found: bool, j: nat)
      requires BucketOk(View(bucket.entries, bucket.last), items, i)
      ensures found ==> j < bucket.last && 3 * i + j < |items| && items[3 * i + j] == bucket.entries[j] && items[3 * i + j].key == key
      ensures !found ==> forall g | 3 * i <= g < 3 * i + bucket.last :: items[g].key != key
    {
      j := bucket.last;
      while j > 0
        invariant 0 <= j <= bucket.last
        invariant forall g | 3 * i + j <= g < 3 * i + bucket.last :: items[g].key != key
      {
        j := j - 1;
        assert bucket.entries[j] == items[3 * i + j];
        if bucket.entries[j].key == key {
          return true, j;
        }
      }
      return false, 0;
    }

    /** The search of bucket_exists and clht_get; its early exit skips only empty
        buckets. */
    method Search(key: Key) returns (found: bool, bucket: Bucket?, j: nat, ghost i: nat)
      requires Linked() && Packed(Views(), items)
      ensures found ==> i < |chain| && bucket == chain[i] && j < bucket.last && j < |bucket.entries| && 3 * i + j < |items|
      ensures found ==> items[3 * i + j] == bucket.entries[j] && items[3 * i + j].key == key
      ensures !found ==> !HasKey(items, key)
    {
      bucket := head;
      i := 0;
      while bucket != null
        invariant i <= |chain| && bucket == (if i < |chain| then chain[i] else null)
        invariant forall g | 0 <= g < 3 * i && g < |items| :: items[g].key != key
        decreases |chain| - i
      {
        assert BucketAt(Views(), items, i);
        found, j := SearchDown(bucket, key, i);
        if found {
          return;
        }
        if bucket.last < ENTRIES_PER_BUCKET {
          return;
        }
        assert LinkAt(i);
        bucket, i := bucket.next, i + 1;
      }
      return false, null, 0, i;
    }

    method Exists(key: Key) returns (found: bool)
      requires Valid()
      ensures found <==> Find(items, key).Some?
    {
      FindNone(items, key);
      var hit, bucket, j, i := Search(key);
      found := hit;
    }

    method Get(key: Key) returns (val: Option<Val>)
      requires Valid()
      ensures val == Find(items, key)
    {
      FindNone(items, key);
      var found, bucket, j, i := Search(key);
      if found { UniqueFind(items, 3 * i + j); }
      val := if found then Some(bucket.entries[j].val) else None;
    }

    /** The share of clht_size that is this bin's. */
    method Size() returns (n: nat)
      requires Valid()
      ensures n == |items|
    {
      n := 0;
      var bucket: Bucket? := head;
      ghost var i := 0;
      while bucket != null
        invariant 0 <= i <= |chain| && bucket == (if i < |chain| then chain[i] else null)
        invariant n == (if |items| < 3 * i then |items| else 3 * i)
        decreases |chain| - i
      {
        assert BucketAt(Views(), items, i);
        n := n + bucket.last;
        if bucket.last < ENTRIES_PER_BUCKET {
          return;
        }
        assert LinkAt(i);
        bucket, i := bucket.next, i + 1;
      }
    }

    /** The entries of bucket i from the first one up. */
    method SearchUp(bucket: Bucket, key: Key, ghost i: nat) returns (found: bool, j: nat)
      requires BucketOk(View(bucket.entries, bucket.last), items, i)
      ensures found ==> j < bucket.last && 3 * i + j < |items| && bucket.entries[j] == items[3 * i + j] && items[3 * i + j].key == key
      ensures !found ==> forall g | 3 * i <= g < 3 * i + bucket.last :: items[g].key != key
    {
      j := 0;
      while j < bucket.last
        invariant j <= bucket.last && forall g | 3 * i <= g < 3 * i + j :: items[g].key != key
      {
        assert bucket.entries[j] == items[3 * i + j];
        if bucket.entries[j].key == key {
          return true, j;
        }
        j := j + 1;
      }
      return false, j;
    }

    method SetEntry(bucket: Bucket, j: nat, e: Entry, ghost i: nat)
      requires Linked() && i < |chain| && bucket == chain[i] && j < |bucket.entries|
      modifies bucket
      ensures Linked() && Views() == old(Views())[i := View(old(bucket.entries)[j := e], old(bucket.last))]
    {
      bucket.entries := bucket.entries[j := e];
      forall k: nat | k < |chain| ensures LinkAt(k) { assert old(LinkAt(k)); }
    }

    method SetLast(bucket: Bucket, last: nat, ghost i: nat)
      requires Linked() && i < |chain| && bucket == chain[i]
      modifies bucket
      ensures Linked() && Views() == old(Views())[i := View(old(bucket.entries), last)]
    {
      bucket.last := last;
      forall k: nat | k < |chain| ensures LinkAt(k) { assert old(LinkAt(k)); }
    }

    /** The new entry goes to the end of bucket i. */
    method Append(bucket: Bucket, e: Entry, ghost i: nat)
      requires Linked() && Packed(Views(), items) && i < |chain| && bucket == chain[i] && bucket.last < ENTRIES_PER_BUCKET
      requires i == 0 || chain[i - 1].last == ENTRIES_PER_BUCKET
      modifies bucket
      ensures Linked() && Packed(Views(), items + [e])
    {
      ghost var vs := Views();
      PackedAdd(vs, items, i, e);
      var last := bucket.last;
      SetEntry(bucket, last, e, i);
      SetLast(bucket, last + 1, i);
      assert Views() == vs[i := View(vs[i].entries[last := e], last + 1)];
    }

    /** Put the pair into bucket i, the first one with room. */
    method AddHere(bucket: Bucket, key: Key, val: Val, ghost i: nat)
      requires Valid() && i < |chain| && bucket == chain[i] && bucket.last < ENTRIES_PER_BUCKET
      requires i == 0 || chain[i - 1].last == ENTRIES_PER_BUCKET
      requires Find(items, key) == None
      modifies this`items, bucket
      ensures Valid() && items == old(items) + [Entry(key, val)]
    {
      AppendAdds(items, key, val, key);
      Append(bucket, Entry(key, val), i);
      items := items + [Entry(key, val)];
    }

    /** A bucket with one entry goes to the end of the chain. */
    method Extend(bucket: Bucket, e: Entry)
      requires Linked() && Packed(Views(), items) && bucket == chain[|chain| - 1] && bucket.last == ENTRIES_PER_BUCKET
      modifies this`chain, bucket
      ensures Linked() && Packed(Views(), items + [e]) && fresh(set b | b in chain && b !in old(chain))
    {
      ghost var vs := Views();
      PackedGrow(vs, items, e);
      var b := new Bucket();
      bucket.next := b;
      b.entries := b.entries[0 := e];
      b.last := b.last + 1;
      chain := chain + [b];
      forall k: nat | k < |chain| ensures LinkAt(k) {
        if k + 1 < |old(chain)| { assert old(LinkAt(k)); }
      }
      assert Views() == vs + [View([EMPTY, EMPTY, EMPTY][0 := e], 1)];
    }

    /** Put the pair into a new bucket at the end of a chain that is full. */
    method Grow(bucket: Bucket, key: Key, val: Val)
      requires Valid() && bucket == chain[|chain| - 1] && bucket.last == ENTRIES_PER_BUCKET
      requires Find(items, key) == None
      modifies this, bucket
      ensures Valid() && items == old(items) + [Entry(key, val)] && fresh(set b | b in chain && b !in old(chain))
    {
      AppendAdds(items, key, val, key);
      Extend(bucket, Entry(key, val));
      items := items + [Entry(key, val)];
    }

    /** The bucket where the search of clht_put ends: the first one with room, or
        the last one. */
    method Room() returns (bucket: Bucket, ghost i: nat)
      requires Linked() && Packed(Views(), items)
      ensures i < |chain| && bucket == chain[i] && bucket.last <= ENTRIES_PER_BUCKET
      ensures bucket.last == ENTRIES_PER_BUCKET ==> i == |chain| - 1
      ensures i == 0 || chain[i - 1].last == ENTRIES_PER_BUCKET
    {
      bucket := head;
      i := 0;
      assert LinkAt(i);
      assert BucketAt(Views(), items, i);
      while bucket.last == ENTRIES_PER_BUCKET && bucket.next != null
        invariant i < |chain| && bucket == chain[i] && bucket.last <= ENTRIES_PER_BUCKET && LinkAt(i)
        invariant i == 0 || chain[i - 1].last == ENTRIES_PER_BUCKET
        decreases |chain| - i
      {
        bucket, i := bucket.next, i + 1;
        assert LinkAt(i);
        assert BucketAt(Views(), items, i);
      }
    }

    /** clht_put.  After the first search, the one under the lock cannot find
        the key either. */
    method Put(key: Key, val: Val) returns (ok: bool)
      requires Valid()
      modifies this, chain
      ensures Valid() && (ok <==> Find(old(items), key) == None)
      ensures items == if ok then old(items) + [Entry(key, val)] else old(items)
    {
      var present := Exists(key);
      if present {
        return false;
      }
      var bucket, i := Room();
      if bucket.last < ENTRIES_PER_BUCKET {
        AddHere(bucket, key, val, i);
      } else {
        Grow(bucket, key, val);
      }
      ok := true;
    }

    /** The last bucket that is not empty. */
    method LastBucket(bucket: Bucket, ghost i: nat) returns (blast: Bucket, ghost m: nat)
      requires Linked() && Packed(Views(), items) && i < |chain| && bucket == chain[i] && bucket.last > 0
      ensures i <= m < |chain| && blast == chain[m] && 0 < blast.last && |items| == 3 * m + blast.last
    {
      blast, m := bucket, i;
      assert LinkAt(m);
      while blast.next != null && blast.next.last > 0
        invariant i <= m < |chain| && blast == chain[m] && blast.last > 0 && LinkAt(m)
        decreases |chain| - m
      {
        blast, m := blast.next, m + 1;
        assert LinkAt(m);
      }
      assert BucketAt(Views(), items, m);
      if m + 1 < |chain| { assert BucketAt(Views(), items, m + 1); }
    }

    /** The writes into the hole: the key goes first and comes last. */
    method Overwrite(bucket: Bucket, j: nat, blast: Bucket, ghost i: nat)
      requires Linked() && i < |chain| && bucket == chain[i] && j < |bucket.entries| && 0 < blast.last <= |blast.entries|
      modifies bucket
      ensures Linked() && |bucket.entries| == |old(bucket.entries)|
      ensures Views() == old(Views())[i := View(bucket.entries, old(bucket.last))]
      ensures forall r | 0 <= r < |bucket.entries| && r != j :: bucket.entries[r] == old(bucket.entries[r])
      ensures bucket != blast || j + 1 != old(blast.last) ==> bucket.entries[j] == old(blast.entries[blast.last - 1])
    {
      var blastLast := blast.last;
      assert blastLast != 0;
      bucket.entries := bucket.entries[j := bucket.entries[j].(key := 0)];
      bucket.entries := bucket.entries[j := bucket.entries[j].(val := blast.entries[blastLast - 1].val)];
      bucket.entries := bucket.entries[j := bucket.entries[j].(key := blast.entries[blastLast - 1].key)];
      forall k: nat | k < |chain| ensures LinkAt(k) { assert old(LinkAt(k)); }
    }

    /** The last entry of the chain fills the hole and is dropped at the end. */
    method FillHole(bucket: Bucket, j: nat, blast: Bucket, ghost i: nat, ghost m: nat)
      requires Linked() && Packed(Views(), items) && i <= m < |chain| && bucket == chain[i] && blast == chain[m]
      requires j < bucket.last && 0 < blast.last && |items| == 3 * m + blast.last && 3 * i + j < |items|
      modifies bucket, blast
      ensures Linked() && Packed(Views(), SwapWithLast(items, 3 * i + j))
    {
      ghost var vs := Views();
      assert BucketAt(vs, items, i) && BucketAt(vs, items, m);
      Overwrite(bucket, j, blast, i);
      ghost var es := bucket.entries;
      assert bucket == blast ==> i == m;
      PackedFill(vs, items, i, j, m, es);
      SetLast(blast, blast.last - 1, m);
      assert Views() == Filled(vs, i, es, m);
    }

    /** Take item 3 * i + j out of the chain. */
    method Take(bucket: Bucket, j: nat, ghost i: nat)
      requires Valid() && i < |chain| && bucket == chain[i] && j < bucket.last && 3 * i + j < |items|
      modifies this`items, chain
      ensures Valid() && items == SwapWithLast(old(items), 3 * i + j)
    {
      var blast, m := LastBucket(bucket, i);
      FillHole(bucket, j, blast, i, m);
      SwapWithLastRemoves(items, 3 * i + j, 0);
      items := SwapWithLast(items, 3 * i + j);
    }

    /** Where a key is. */
    method Locate(key: Key) returns (found: bool, bucket: Bucket?, j: nat, ghost i: nat)
      requires Linked() && Packed(Views(), items)
      ensures !found ==> !HasKey(items, key)
      ensures found ==> i < |chain| && bucket == chain[i] && j < bucket.last && j < |bucket.entries| && 3 * i + j < |items|
      ensures found ==> items[3 * i + j] == bucket.entries[j] && items[3 * i + j].key == key
    {
      bucket := head;
      i := 0;
      while bucket != null
        invariant i <= |chain| && bucket == (if i < |chain| then chain[i] else null)
        invariant forall g | 0 <= g < 3 * i && g < |items| :: items[g].key != key
        decreases |chain| - i
      {
        assert BucketAt(Views(), items, i);
        found, j := SearchUp(bucket, key, i);
        if found {
          return;
        }
        if bucket.last < ENTRIES_PER_BUCKET {
          return;
        }
        assert LinkAt(i);
        bucket, i := bucket.next, i + 1;
      }
      return false, null, 0, i;
    }

    /** Remove a key and return its value; exactly that pair goes. */
    method Remove(key: Key) returns (val: Option<Val>)
      requires Valid()
      modifies this`items, chain
      ensures Valid() && val == Find(old(items), key)
      ensures val == None ==> items == old(items)
      ensures val.Some? ==> exists g :: 0 <= g < |old(items)| && old(items)[g] == Entry(key, val.value) && items == SwapWithLast(old(items), g)
    {
      var present := Exists(key);
      if !present {
        return None;
      }
      FindNone(items, key);
      var found, bucket, j, i := Locate(key);
      ghost var g := 3 * i + j;
      UniqueFind(items, g);
      val := Some(bucket.entries[j].val);
      Take(bucket, j, i);
      assert old(items)[g] == Entry(key, val.value);
    }
  }
}
