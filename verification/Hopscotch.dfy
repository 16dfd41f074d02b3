/** The hopscotch table of 64-bit entries, used by one thread: each key stays
    within H slots of the slot it hashes to; an insertion that claims a farther
    slot moves other keys towards it. */
module Hopscotch {

  const H := 16
  const ADD_RANGE := 256

  const WORD32 := 0x1_0000_0000
  const STATE := 0x4000_0000_0000_0000   // 1L << 62
  const WORD64 := 0x1_0000_0000_0000_0000

  type Entry = e: nat | e < WORD64
  type Key = k: Entry | k < WORD32

  /** (e << 2) >> 2 */
  function Low(e: Entry): (n: Entry)
    ensures n < STATE
  {
    e % STATE
  }

  /** ((e << 2) >> 2) | (state << 62) */
  function Tagged(e: Entry, state: nat): Entry
    requires state < 4
  {
    Low(e) + state * STATE
  }

  function GetKey(e: Entry): Key {
    e % WORD32
  }

  /** The entry CreateBucketEntry makes for thread 0: the key in state 3. */
  function Claim(key: Key): Entry {
    key + 3 * STATE
  }

  /** getHeader in a signed 16-bit integer, shifted right by 14. */
  function Header(e: Entry): int {
    var top := e / STATE;
    if top >= 2 then top - 4 else top
  }

  /** The test for a removed entry in BucketInsert never holds. */
  lemma HeaderIsNeverTwo(e: Entry)
    ensures -2 <= Header(e) <= 1
  {
  }

  lemma TagOfKey(key: Key, state: nat)
    requires state < 4
    ensures Low(key + state * STATE) == key && GetKey(key + state * STATE) == key
  {
    assert STATE == 0x4000_0000 * WORD32;
  }

  datatype Outcome = Done | InsertionFailure | ResizeNeeded | RehashNeeded

  // ---- contents ------------------------------------------------------------

  /** Slots as they are between insertions: keys near the slot they hash to, and
      no key twice. */
  ghost predicate Settled(s: seq<Entry>, hash: Key -> nat) {
    && (forall i | 0 <= i < |s| && s[i] != 0 :: s[i] < WORD32 && hash(s[i]) <= i <= hash(s[i]) + H)
    && (forall i, j | 0 <= i < j < |s| && s[i] != 0 :: s[i] != s[j])
  }

  function Keys(s: seq<Entry>): set<Entry> {
    set i | 0 <= i < |s| && s[i] != 0 :: s[i]
  }

  /** Moving an entry to an empty slot near its base. */
  lemma MoveKeepsKeys(s: seq<Entry>, hash: Key -> nat, from: nat, to: nat)
    requires Settled(s, hash) && from < |s| && to < |s| && s[from] != 0 && s[to] == 0
    requires hash(s[from]) <= to <= hash(s[from]) + H
    ensures Settled(s[to := s[from]][from := 0], hash) && Keys(s[to := s[from]][from := 0]) == Keys(s)
  {
    var s' := s[to := s[from]][from := 0];
    assert s'[to] == s[from];
    forall e ensures e in Keys(s) <==> e in Keys(s') {
      if e in Keys(s) {
        var i :| 0 <= i < |s| && s[i] != 0 && s[i] == e;
        assert s'[if i == from then to else i] == e;
      }
    }
  }

  lemma StoreAddsKey(s: seq<Entry>, hash: Key -> nat, i: nat, key: Key)
    requires Settled(s, hash) && i < |s| && s[i] == 0 && key != 0 && key !in Keys(s)
    requires hash(key) <= i <= hash(key) + H
    ensures Settled(s[i := key], hash) && Keys(s[i := key]) == Keys(s) + {key}
  {
    var s' := s[i := key];
    assert s'[i] == key;
    forall e ensures e in Keys(s) + {key} <==> e in Keys(s') {
      if e in Keys(s) {
        var j :| 0 <= j < |s| && s[j] != 0 && s[j] == e;
        assert s'[j] == e;
      }
    }
  }

  // ---- hops ----------------------------------------------------------------

  /** The key in slot r may live in slot c. */
  predicate MayMove(s: seq<Entry>, hash: Key -> nat, r: nat, c: nat)
    requires r < |s|
  {
    c - hash(GetKey(s[r])) < H
  }

  /** The first slot from r on with a key that may move to slot c, or c. */
  function Mover(s: seq<Entry>, hash: Key -> nat, c: nat, r: nat): (m: nat)
    requires r <= c < |s|
    ensures r <= m <= c && (m < c ==> MayMove(s, hash, m, c))
    ensures forall i | r <= i < m :: !MayMove(s, hash, i, c)
    decreases c - r
  {
    if r == c || MayMove(s, hash, r, c) then r else Mover(s, hash, c, r + 1)
  }

  lemma {:induction false} MoverIs(s: seq<Entry>, hash: Key -> nat, c: nat, r: nat, m: nat)
    requires r <= m <= c < |s| && (m < c ==> MayMove(s, hash, m, c))
    requires forall i | r <= i < m :: !MayMove(s, hash, i, c)
    ensures Mover(s, hash, c, r) == m
    decreases m - r
  {
    if r < m { MoverIs(s, hash, c, r + 1, m); }
  }

  /** Moving keys into the free slot c, and so on, ends before the free slot is
      within H slots of base. */
  predicate Sticks(s: seq<Entry>, hash: Key -> nat, base: nat, c: nat)
    requires c < |s|
    decreases c
  {
    && base + H < c
    && var r := Mover(s, hash, c, c - H);
       r == c || Sticks(s[c := s[r]][r := 0], hash, base, r)
  }

  /** Where it ends: the same keys are stored, every slot from base to the free
      one is taken, and none of the H keys before it may move to it. */
  lemma {:induction false} StuckAt(s: seq<Entry>, hash: Key -> nat, base: nat, c: nat) returns (s': seq<Entry>, c': nat)
    requires Settled(s, hash) && FirstFree(s, base, c) && Sticks(s, hash, base, c)
    ensures Settled(s', hash) && Keys(s') == Keys(s) && |s'| == |s| && base + H < c' <= c && FirstFree(s', base, c')
    ensures forall r | c' - H <= r < c' :: !MayMove(s', hash, r, c')
    decreases c
  {
    var r := Mover(s, hash, c, c - H);
    if r == c {
      s', c' := s, c;
    } else {
      HopKeeps(s, hash, base, c);
      s', c' := StuckAt(s[c := s[r]][r := 0], hash, base, r);
    }
  }

  lemma HopKeeps(s: seq<Entry>, hash: Key -> nat, base: nat, c: nat)
    requires Settled(s, hash) && FirstFree(s, base, c) && base + H < c && Mover(s, hash, c, c - H) < c
    ensures var r := Mover(s, hash, c, c - H);
            var s' := s[c := s[r]][r := 0];
            Settled(s', hash) && Keys(s') == Keys(s) && FirstFree(s', base, r) && c - H <= r < c
  {
    var r := Mover(s, hash, c, c - H);
    TagOfKey(s[r], 0);
    MoveKeepsKeys(s, hash, r, c);
  }

  // ---- the table -----------------------------------------------------------

  class LFHash {
    const total: nat
    const hash: Key -> nat
    const buckets: array<Entry>

    /** The array reaches far enough past TotalBuckets for the longest search. */
    ghost predicate Shaped() {
      && total + ADD_RANGE + 1 <= buckets.Length
      && forall k :: hash(k) < total
    }

    ghost predicate Valid()
      reads buckets
    {
      Shaped() && Settled(buckets[..], hash)
    }

    ghost function Contents(): set<Entry>
      reads buckets
    {
      Keys(buckets[..])
    }

    constructor (total: nat, hash: Key -> nat)
      requires total > 0 && forall k :: hash(k) < total
      ensures Valid() && Contents() == {} && fresh(buckets)
    {
      this.total, this.hash := total, hash;
      buckets := new Entry[total + ADD_RANGE + 1](i => 0);
    }

    /** A strong compare-and-swap. */
    method CompareExchange(i: nat, expected: Entry, desired: Entry) returns (ok: bool)
      requires i < buckets.Length
      modifies buckets
      ensures ok <==> old(buckets[i]) == expected
      ensures buckets[..] == if ok then old(buckets[..])[i := desired] else old(buckets[..])
    {
      ok := buckets[i] == expected;
      if ok { buckets[i] := desired; }
    }

    /** Exact for every key but 0, which every empty slot looks like. */
    method Contains(key: Key) returns (found: bool)
      requires Valid()
      ensures key != 0 ==> (found <==> key in Contents())
      ensures key == 0 ==> (found <==> exists i :: hash(0) <= i <= hash(0) + H && buckets[i] == 0)
    {
      var base := hash(key);
      found := false;
      var p := 0;
      while p <= H
        invariant 0 <= p <= H + 1
        invariant found <==> exists i :: base <= i < base + p && buckets[i] == key
      {
        var e := buckets[base + p];
        assert e != 0 ==> e == buckets[..][base + p] < WORD32;
        if key == e || e == Tagged(key, 1) {
          found := true;
        }
        p := p + 1;
      }
      if key != 0 && key in Contents() {
        var i :| 0 <= i < |buckets[..]| && buckets[..][i] != 0 && buckets[..][i] == key;
        assert buckets[i] == key;
      }
      if key != 0 && found {
        var i :| base <= i <= base + H && buckets[i] == key;
        assert buckets[..][i] == key;
      }
    }

    /** Slot `loc` is claimed for `key`; everything else is settled. */
    ghost predicate Claimed(loc: nat, key: Key)
      reads buckets
    {
      && Shaped() && loc < buckets.Length && buckets[loc] == Claim(key)
      && Settled(buckets[..][loc := 0], hash)
    }

    /** What is stored besides the claim. */
    ghost function Others(loc: nat): set<Entry>
      requires loc < buckets.Length
      reads buckets
    {
      Keys(buckets[..][loc := 0])
    }

    ghost predicate FullFromTo(lo: nat, hi: nat)
      requires hi <= buckets.Length
      reads buckets
    {
      forall i | lo <= i < hi :: buckets[i] != 0
    }

    /** One hop: a key in one of the H slots before the claim that may live in the
        claimed slot moves there, and the claim takes its slot.  Without such a
        key the source gives up. */
    method Relocate(loc: nat, key: Key) returns (moved: bool, slot: nat)
      requires Claimed(loc, key) && hash(key) + H < loc && FullFromTo(hash(key), loc)
      modifies buckets
      ensures moved <==> exists r :: loc - H <= r < loc && loc - hash(GetKey(old(buckets[r]))) < H
      ensures var s := old(buckets[..])[loc := 0];
              var r := Mover(s, hash, loc, loc - H);
              (moved <==> r < loc) && (moved ==> slot == r && buckets[..][r := 0] == s[loc := s[r]][r := 0])
      ensures moved ==> loc - H <= slot < loc && Claimed(slot, key) && Others(slot) == old(Others(loc))
      ensures moved ==> FullFromTo(hash(key), slot)
      ensures !moved ==> buckets[..] == old(buckets[..])
    {
      ghost var s0 := buckets[..][loc := 0];
      var replace := loc - H;
      assert buckets[replace] == s0[replace];
      var hopDist := loc - hash(GetKey(buckets[replace]));
      while hopDist >= H && replace < loc
        invariant loc - H <= replace <= loc
        invariant hopDist == loc - hash(GetKey(buckets[replace]))
        invariant forall r | loc - H <= r < replace :: loc - hash(GetKey(buckets[r])) >= H
        decreases loc - replace
      {
        replace := replace + 1;
        hopDist := loc - hash(GetKey(buckets[replace]));
      }
      forall r | loc - H <= r < loc ensures s0[r] == buckets[r] {}
      MoverIs(s0, hash, loc, loc - H, replace);
      if hopDist > H || replace >= loc {
        return false, loc;
      }
      slot := replace;
      var e := buckets[replace];
      assert e == s0[replace] && e != 0;
      TagOfKey(e, 0);
      TagOfKey(e, 1);
      TagOfKey(key, 3);
      var exp := Low(buckets[replace]);
      var ok := CompareExchange(replace, exp, Tagged(exp, 1));
      assert ok;
      var dest := Tagged(buckets[loc], 3);
      var fin := Low(buckets[replace]);
      ok := CompareExchange(loc, dest, fin);
      assert ok;
      exp := Tagged(buckets[replace], 1);
      ok := CompareExchange(replace, exp, Claim(key));
      assert ok;
      MoveKeepsKeys(s0, hash, replace, loc);
      assert buckets[..][replace := 0] == s0[loc := s0[replace]][replace := 0];
      return true, replace;
    }

    /** Into the first empty slot of the neighbourhood; the search for a removed
        entry finds none, so a full neighbourhood ends in the rehash exit. */
    method BucketInsert(base: nat, key: Key) returns (r: Outcome)
      requires Shaped() && base < total
      modifies buckets
      ensures r == Done || r == RehashNeeded
      ensures r == Done <==> exists i :: base <= i <= base + H && old(buckets[i]) == 0
      ensures r == Done ==> exists i :: FirstFree(old(buckets[..]), base, i) && i <= base + H && buckets[..] == old(buckets[..])[i := key]
      ensures r == RehashNeeded ==> buckets[..] == old(buckets[..])
    {
      var p := 0;
      while p <= H
        invariant 0 <= p <= H + 1 && buckets[..] == old(buckets[..])
        invariant FullFromTo(base, base + p)
      {
        if buckets[base + p] == 0 {
          var ok := CompareExchange(base + p, 0, key);
          assert FirstFree(old(buckets[..]), base, base + p);
          return Done;
        }
        p := p + 1;
      }
      p := 0;
      while p <= H
        invariant 0 <= p <= H + 1 && buckets[..] == old(buckets[..])
      {
        HeaderIsNeverTwo(buckets[base + p]);
        if Header(buckets[base + p]) == 2 { assert false; }
        p := p + 1;
      }
      return RehashNeeded;
    }

    /** Insert a key.  Every insertion that returns leaves the keys stored before
        and the new one, all within their neighbourhoods; key 0 is never stored. */
    method Add(key: Key) returns (r: Outcome)
      requires Valid()
      modifies buckets
      ensures r == Done ==> Valid() && Contents() == old(Contents()) + (if key == 0 then {} else {key})
      ensures old(key in Contents()) ==> r == Done && buckets[..] == old(buckets[..])
      ensures old(key !in Contents()) ==>
                (r == InsertionFailure <==> old(FullFromTo(hash(key), hash(key) + ADD_RANGE - 1)))
      ensures old(exists i :: hash(key) <= i <= hash(key) + H && buckets[i] == 0) ==> r == Done
      ensures r == ResizeNeeded <==>
                old(key !in Contents()) && exists c: nat :: GivesUp(old(buckets[..]), hash, hash(key), c)
      ensures r != RehashNeeded
    {
      var base := hash(key);
      var found := Contains(key);
      if found {
        assert key != 0 ==> Contents() + {key} == Contents();
        return Done;
      }
      var slotIndex, trails := base, 1;
      while trails - 1 < ADD_RANGE && buckets[slotIndex] != 0
        invariant trails == slotIndex - base + 1 && base <= slotIndex <= base + ADD_RANGE
        invariant FullFromTo(base, slotIndex)
      {
        slotIndex := slotIndex + 1;
        trails := trails + 1;
      }
      ghost var was := buckets[..];
      ghost var first := slotIndex;
      assert buckets[slotIndex] == 0 ==> FirstFree(was, base, first);
      var claimed := CompareExchange(slotIndex, 0, Claim(key));
      if trails >= ADD_RANGE {
        return InsertionFailure;
      }
      assert was[slotIndex] == 0 && claimed && buckets[..][slotIndex := 0] == was;
      while slotIndex - base > H
        invariant base <= slotIndex < base + ADD_RANGE && Claimed(slotIndex, key) && FullFromTo(base, slotIndex)
        invariant Others(slotIndex) == Keys(was)
        invariant Sticks(was, hash, base, first) == Sticks(buckets[..][slotIndex := 0], hash, base, slotIndex)
        decreases slotIndex
      {
        var moved, slot := Relocate(slotIndex, key);
        if !moved {
          assert GivesUp(was, hash, base, first);
          return ResizeNeeded;
        }
        slotIndex := slot;
      }
      var cleared := CompareExchange(slotIndex, buckets[slotIndex], 0);
      ghost var freed := buckets[..];
      assert FirstFree(freed, base, slotIndex);
      r := BucketInsert(base, key);
      ghost var i :| FirstFree(freed, base, i) && i <= base + H && buckets[..] == freed[i := key];
      if key != 0 { StoreAddsKey(freed, hash, i, key); } else { assert freed[i := key] == freed; }
    }
  }

  /** An insertion claims slot c and cannot bring it near its base. */
  ghost predicate GivesUp(s: seq<Entry>, hash: Key -> nat, base: nat, c: nat) {
    FirstFree(s, base, c) && c < base + ADD_RANGE - 1 && Sticks(s, hash, base, c)
  }

  ghost predicate FirstFree(s: seq<Entry>, base: nat, i: int) {
    && base <= i < |s| && s[i] == 0
    && forall j | base <= j < i :: s[j] != 0
  }
}
