/** The contents of a bucketized cuckoo table as a value: buckets of slots, the
    map they represent, and what writing one slot does to that map. */
module CuckooTable {
  import opened CuckooIndex

  type Key = nat
  type Val = nat

  /** The number of buckets, the hash function, and SLOT_PER_BUCKET. */
  datatype Geometry = Geometry(hp: HashPower, hash: Key -> Word, slots: nat)
  {
    function Buckets(): nat {
      HashSize(hp)
    }

    function First(k: Key): (b: nat)
      ensures b < Buckets()
    {
      IndexHash(hp, hash(k))
    }

    function Alt(k: Key, b: nat): (b': nat)
      ensures b' < Buckets()
    {
      AltIndex(hp, hash(k), b)
    }

    function Second(k: Key): (b: nat)
      ensures b < Buckets()
    {
      Alt(k, First(k))
    }

    predicate IsHome(k: Key, b: nat) {
      b == First(k) || b == Second(k)
    }
  }

  /** The alternative of a home bucket is the other home bucket. */
  lemma AltOfHome(g: Geometry, k: Key, b: nat)
    requires g.IsHome(k, b)
    ensures g.IsHome(k, g.Alt(k, b)) && g.Alt(k, g.Alt(k, b)) == b
  {
    AltIsInvolution(g.hp, g.hash(k), b);
    AltIsInvolution(g.hp, g.hash(k), g.First(k));
  }

  /** A slot keeps the bytes of a key after it is erased. */
  datatype Slot = Slot(occupied: bool, key: Key, val: Val)

  type Table = seq<seq<Slot>>

  ghost predicate Shaped(g: Geometry, t: Table) {
    |t| == g.Buckets() && forall b | 0 <= b < |t| :: |t[b]| == g.slots
  }

  predicate At(t: Table, b: nat, s: nat, k: Key) {
    b < |t| && s < |t[b]| && t[b][s].occupied && t[b][s].key == k
  }

  /** Every stored key is in one of its two home buckets. */
  ghost predicate Homed(g: Geometry, t: Table) {
    forall b, s | 0 <= b < |t| && 0 <= s < |t[b]| && t[b][s].occupied :: g.IsHome(t[b][s].key, b)
  }

  /** No key is stored twice. */
  ghost predicate Unique(t: Table) {
    forall k, b: nat, s: nat, b': nat, s': nat | At(t, b, s, k) && At(t, b', s', k) :: b == b' && s == s'
  }

  ghost predicate Ok(g: Geometry, t: Table) {
    Shaped(g, t) && Homed(g, t) && Unique(t)
  }

  ghost predicate Stored(t: Table, k: Key) {
    exists b: nat, s: nat :: At(t, b, s, k)
  }

  function Keys(t: Table): set<Key> {
    set b, s | 0 <= b < |t| && 0 <= s < |t[b]| && t[b][s].occupied :: t[b][s].key
  }

  lemma KeysAreStored(t: Table, k: Key)
    ensures k in Keys(t) <==> Stored(t, k)
  {
    if k in Keys(t) {
      var b, s :| 0 <= b < |t| && 0 <= s < |t[b]| && t[b][s].occupied && t[b][s].key == k;
      assert At(t, b, s, k);
    }
  }

  ghost function ValueOf(t: Table, k: Key): Val
    requires k in Keys(t)
  {
    KeysAreStored(t, k);
    var b: nat, s: nat :| At(t, b, s, k);
    t[b][s].val
  }

  /** The map a table represents. */
  ghost function Abs(t: Table): map<Key, Val> {
    map k | k in Keys(t) :: ValueOf(t, k)
  }

  lemma AbsAt(t: Table, b: nat, s: nat)
    requires Unique(t) && b < |t| && s < |t[b]| && t[b][s].occupied
    ensures t[b][s].key in Abs(t) && Abs(t)[t[b][s].key] == t[b][s].val
  {
    var k := t[b][s].key;
    assert At(t, b, s, k);
    KeysAreStored(t, k);
  }

  lemma StoredIffMapped(t: Table, k: Key)
    ensures Stored(t, k) <==> k in Abs(t)
  {
    KeysAreStored(t, k);
  }

  /** A stored key is found by looking at its two home buckets. */
  lemma StoredAtHome(g: Geometry, t: Table, k: Key)
    requires Ok(g, t) && k in Abs(t)
    ensures exists b: nat, s: nat :: g.IsHome(k, b) && At(t, b, s, k)
  {
    StoredIffMapped(t, k);
    var b: nat, s: nat :| At(t, b, s, k);
    assert g.IsHome(k, b);
  }

  /** A map with exactly the table's pairs is what the table represents. */
  lemma AbsIs(t: Table, m: map<Key, Val>)
    requires Unique(t)
    requires forall b, s | 0 <= b < |t| && 0 <= s < |t[b]| && t[b][s].occupied ::
               t[b][s].key in m && m[t[b][s].key] == t[b][s].val
    requires forall k | k in m :: Stored(t, k)
    ensures Abs(t) == m
  {
    forall k ensures k in Abs(t) <==> k in m {
      StoredIffMapped(t, k);
      if Stored(t, k) {
        var b: nat, s: nat :| At(t, b, s, k);
      }
    }
    forall k | k in m ensures Abs(t)[k] == m[k] {
      var b: nat, s: nat :| At(t, b, s, k);
      AbsAt(t, b, s);
    }
  }

  // ---- writing one slot ----------------------------------------------------

  function SetSlot(t: Table, b: nat, s: nat, x: Slot): (t': Table)
    requires b < |t| && s < |t[b]|
    ensures |t'| == |t| && forall c | 0 <= c < |t| :: |t'[c]| == |t[c]|
    ensures t'[b][s] == x
    ensures forall c, r | 0 <= c < |t| && 0 <= r < |t[c]| && (c, r) != (b, s) :: t'[c][r] == t[c][r]
  {
    t[b := t[b][s := x]]
  }

  lemma InsertAbs(g: Geometry, t: Table, b: nat, s: nat, k: Key, v: Val)
    requires Ok(g, t) && b < |t| && s < |t[b]| && !t[b][s].occupied
    requires k !in Abs(t) && g.IsHome(k, b)
    ensures Ok(g, SetSlot(t, b, s, Slot(true, k, v)))
    ensures Abs(SetSlot(t, b, s, Slot(true, k, v))) == Abs(t)[k := v]
  {
    var t': Table := SetSlot(t, b, s, Slot(true, k, v));
    StoredIffMapped(t, k);
    forall k', c: nat, r: nat, c': nat, r': nat | At(t', c, r, k') && At(t', c', r', k') ensures c == c' && r == r' {
      if (c, r) != (b, s) { assert At(t, c, r, k'); }
      if (c', r') != (b, s) { assert At(t, c', r', k'); }
    }
    forall c, r | 0 <= c < |t'| && 0 <= r < |t'[c]| && t'[c][r].occupied
      ensures t'[c][r].key in Abs(t)[k := v] && Abs(t)[k := v][t'[c][r].key] == t'[c][r].val
    {
      if (c, r) != (b, s) {
        AbsAt(t, c, r);
        assert At(t, c, r, t[c][r].key);
      }
    }
    forall k' | k' in Abs(t)[k := v] ensures Stored(t', k') {
      if k' == k {
        assert At(t', b, s, k);
      } else {
        StoredIffMapped(t, k');
        var c: nat, r: nat :| At(t, c, r, k');
        assert At(t', c, r, k');
      }
    }
    AbsIs(t', Abs(t)[k := v]);
  }

  lemma EraseAbs(g: Geometry, t: Table, b: nat, s: nat)
    requires Ok(g, t) && b < |t| && s < |t[b]| && t[b][s].occupied
    ensures Ok(g, SetSlot(t, b, s, t[b][s].(occupied := false)))
    ensures Abs(SetSlot(t, b, s, t[b][s].(occupied := false))) == Abs(t) - {t[b][s].key}
  {
    var t': Table := SetSlot(t, b, s, t[b][s].(occupied := false));
    var k := t[b][s].key;
    assert At(t, b, s, k);
    forall c: nat, r: nat, k' | At(t', c, r, k') ensures At(t, c, r, k') {}
    forall c, r | 0 <= c < |t'| && 0 <= r < |t'[c]| && t'[c][r].occupied
      ensures t'[c][r].key in Abs(t) - {k} && (Abs(t) - {k})[t'[c][r].key] == t'[c][r].val
    {
      AbsAt(t, c, r);
      assert At(t, c, r, t[c][r].key);
    }
    forall k' | k' in Abs(t) - {k} ensures Stored(t', k') {
      StoredIffMapped(t, k');
      var c: nat, r: nat :| At(t, c, r, k');
      assert At(t', c, r, k');
    }
    AbsIs(t', Abs(t) - {k});
  }

  lemma SetTwice(t: Table, b: nat, s: nat, x: Slot, y: Slot)
    requires b < |t| && s < |t[b]|
    ensures SetSlot(SetSlot(t, b, s, x), b, s, y) == SetSlot(t, b, s, y)
  {
    assert t[b][s := x][s := y] == t[b][s := y];
  }

  lemma SetInEitherOrder(t: Table, b: nat, s: nat, x: Slot, c: nat, r: nat, y: Slot)
    requires b < |t| && s < |t[b]| && c < |t| && r < |t[c]| && (b, s) != (c, r)
    ensures SetSlot(SetSlot(t, b, s, x), c, r, y) == SetSlot(SetSlot(t, c, r, y), b, s, x)
  {
    if b == c { assert t[b][s := x][r := y] == t[b][r := y][s := x]; }
  }

  lemma EraseThenInsert(m: map<Key, Val>, k: Key, v: Val)
    ensures (m - {k})[k := v] == m[k := v]
    ensures k in m && m[k] == v ==> m[k := v] == m
  {
  }

  lemma UpdateAbs(g: Geometry, t: Table, b: nat, s: nat, v: Val)
    requires Ok(g, t) && b < |t| && s < |t[b]| && t[b][s].occupied
    ensures Ok(g, SetSlot(t, b, s, t[b][s].(val := v)))
    ensures Abs(SetSlot(t, b, s, t[b][s].(val := v))) == Abs(t)[t[b][s].key := v]
  {
    var x := t[b][s];
    var t0: Table := SetSlot(t, b, s, x.(occupied := false));
    EraseAbs(g, t, b, s);
    InsertAbs(g, t0, b, s, x.key, v);
    SetTwice(t, b, s, x.(occupied := false), Slot(true, x.key, v));
    EraseThenInsert(Abs(t), x.key, v);
  }

  /** The two writes of a cuckoo move: the pair is set in the destination and
      erased from the source. */
  function Move(t: Table, fb: nat, fs: nat, tb: nat, ts: nat): Table
    requires fb < |t| && fs < |t[fb]| && tb < |t| && ts < |t[tb]|
  {
    var t1: Table := SetSlot(t, tb, ts, Slot(true, t[fb][fs].key, t[fb][fs].val));
    SetSlot(t1, fb, fs, t1[fb][fs].(occupied := false))
  }

  /** A move is an insertion into the destination after an erasure. */
  lemma MoveIsEraseInsert(t: Table, fb: nat, fs: nat, tb: nat, ts: nat)
    requires fb < |t| && fs < |t[fb]| && tb < |t| && ts < |t[tb]| && (fb, fs) != (tb, ts)
    ensures var x := t[fb][fs];
            var t0: Table := SetSlot(t, fb, fs, x.(occupied := false));
            && t0[tb][ts] == t[tb][ts]
            && Move(t, fb, fs, tb, ts) == SetSlot(t0, tb, ts, Slot(true, x.key, x.val))
  {
    var x := t[fb][fs];
    SetInEitherOrder(t, fb, fs, x.(occupied := false), tb, ts, Slot(true, x.key, x.val));
  }

  /** Moving a pair to the other home bucket of its key does not change the map. */
  lemma MoveAbs(g: Geometry, t: Table, fb: nat, fs: nat, tb: nat, ts: nat)
    requires Ok(g, t) && fb < |t| && fs < |t[fb]| && tb < |t| && ts < |t[tb]|
    requires t[fb][fs].occupied && !t[tb][ts].occupied && tb == g.Alt(t[fb][fs].key, fb)
    ensures Ok(g, Move(t, fb, fs, tb, ts)) && Abs(Move(t, fb, fs, tb, ts)) == Abs(t)
  {
    var x := t[fb][fs];
    var t0: Table := SetSlot(t, fb, fs, x.(occupied := false));
    assert g.IsHome(x.key, tb) by { AltOfHome(g, x.key, fb); }
    AbsAt(t, fb, fs);
    EraseAbs(g, t, fb, fs);
    MoveIsEraseInsert(t, fb, fs, tb, ts);
    InsertAbs(g, t0, tb, ts, x.key, x.val);
    EraseThenInsert(Abs(t), x.key, x.val);
  }
}
