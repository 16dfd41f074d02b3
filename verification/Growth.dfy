/** Growing the tables whose buckets have no next links: copying a quiet table
    into one with more buckets of three entries each always finds room. */
module Growth {
  import opened Arith
  import opened Bits
  import opened Chains
  import Resize
  import opened ResizeSafety

  datatype MapByte = MAP_INVLD | MAP_VALID | MAP_INSRT

  /** An entry of a bucket.  The table without a snapshot word has no map bytes:
      there an entry counts as valid when its key is not 0. */
  datatype Slot = Slot(key: Key, val: Val, state: MapByte)

  const FREE_SLOT := Slot(0, 0, MAP_INVLD)

  /** What a search sees of a slot; an invalid slot may still hold an old key. */
  function Seen(x: Slot): Entry {
    if x.state.MAP_VALID? then Entry(x.key, x.val) else EMPTY
  }

  /** The rows of a table as the tables of the resize protocol. */
  function AsTable(rows: seq<Chain>): Resize.Table {
    Resize.Table(rows, seq(|rows|, i => Resize.Free), false)
  }

  ghost predicate RowsOk(rows: seq<Chain>) {
    TableOk(AsTable(rows)) && forall b | 0 <= b < |rows| :: |rows[b]| == ENTRIES_PER_BUCKET
  }

  /** Two tables hold the same key-value pairs. */
  ghost predicate SamePairs(rows: seq<Chain>, rows': seq<Chain>) {
    SameMap(AsTable(rows), AsTable(rows'))
  }

  class HashTable {
    const numBuckets: nat
    const slots: array2<Slot>

    ghost predicate Shaped() {
      numBuckets > 0 && slots.Length0 == numBuckets && slots.Length1 == ENTRIES_PER_BUCKET
    }

    ghost function Row(b: nat): (c: Chain)
      requires Shaped() && b < numBuckets
      reads slots
      ensures |c| == ENTRIES_PER_BUCKET
    {
      seq(ENTRIES_PER_BUCKET, j requires 0 <= j < ENTRIES_PER_BUCKET reads slots => Seen(slots[b, j]))
    }

    ghost function Rows(): (rows: seq<Chain>)
      requires Shaped()
      reads slots
      ensures |rows| == numBuckets && forall b | 0 <= b < numBuckets :: rows[b] == Row(b)
    {
      seq(numBuckets, b requires 0 <= b < numBuckets reads slots => Row(b))
    }

    ghost predicate Valid()
      reads slots
    {
      && Shaped() && RowsOk(Rows())
      && forall b, j | 0 <= b < numBuckets && 0 <= j < ENTRIES_PER_BUCKET && slots[b, j].state.MAP_VALID? :: slots[b, j].key != 0
    }

    /** No slot of a table under construction holds an old key. */
    ghost predicate Clean()
      requires Shaped()
      reads slots
    {
      forall b, j | 0 <= b < numBuckets && 0 <= j < ENTRIES_PER_BUCKET ::
        slots[b, j].key == 0 <==> !slots[b, j].state.MAP_VALID?
    }

    constructor (n: nat)
      requires n > 0
      ensures Shaped() && numBuckets == n && fresh(slots) && Clean()
      ensures Rows() == Resize.NewTable(n).chains
    {
      numBuckets := n;
      slots := new Slot[n, ENTRIES_PER_BUCKET]((i, j) => FREE_SLOT);
      new;
      forall b | 0 <= b < n ensures Rows()[b] == Resize.NewTable(n).chains[b] {
        assert Row(b) == [EMPTY, EMPTY, EMPTY];
      }
    }

    function Hash(key: Key): (b: nat)
      requires numBuckets > 0
      ensures b < numBuckets
    {
      Resize.Bin(numBuckets, key)
    }

    /** clht_put_seq: into the first slot whose key is 0. */
    method PutSeq(key: Key, val: Val, bin: nat) returns (ok: bool)
      requires Shaped() && Clean() && bin < numBuckets && key != 0
      modifies slots
      ensures Clean() && (ok <==> FirstEmpty(old(Row(bin))) < ENTRIES_PER_BUCKET)
      ensures Rows() == if ok then old(Rows())[bin := PutIn(old(Row(bin)), key, val)] else old(Rows())
    {
      ghost var was: seq<Chain> := Rows();
      var j := 0;
      while j < ENTRIES_PER_BUCKET
        invariant j <= ENTRIES_PER_BUCKET && Rows() == was && Clean()
        invariant forall i | 0 <= i < j :: slots[bin, i].key != 0
      {
        if slots[bin, j].key == 0 {
          assert was[bin][j].key == 0 && forall i | 0 <= i < j :: was[bin][i].key != 0;
          assert FirstEmpty(was[bin]) == j;
          slots[bin, j] := Slot(key, val, MAP_VALID);
          assert Row(bin) == was[bin][j := Entry(key, val)];
          forall b | 0 <= b < numBuckets && b != bin ensures Rows()[b] == was[b] {
            assert Row(b) == was[b];
          }
          return true;
        }
        j := j + 1;
      }
      assert forall i | 0 <= i < ENTRIES_PER_BUCKET :: was[bin][i].key != 0;
      return false;
    }

    /** bucket_cpy: every pair of bucket b goes to the new table, which has room. */
    method BucketCpy(b: nat, target: HashTable) returns (ok: bool)
      requires Valid() && b < numBuckets && target.Valid() && target.Clean() && target.slots != slots
      requires Grown(numBuckets, target.numBuckets)
      requires Copied(AsTable(Rows()), AsTable(target.Rows()), b, 0) && RoomFor(numBuckets, b, 0, target.Rows())
      modifies target.slots
      ensures ok && target.Valid() && target.Clean() && Rows() == old(Rows())
      ensures Copied(AsTable(Rows()), AsTable(target.Rows()), b + 1, 0) && RoomFor(numBuckets, b + 1, 0, target.Rows())
    {
      ghost var rows := Rows();
      ok := true;
      var j := 0;
      while j < ENTRIES_PER_BUCKET
        invariant j <= ENTRIES_PER_BUCKET && ok && Rows() == rows
        invariant target.Valid() && target.Clean()
        invariant Copied(AsTable(rows), AsTable(target.Rows()), b, j) && RoomFor(numBuckets, b, j, target.Rows())
      {
        ghost var rows' := target.Rows();
        assert rows[b][j] == Seen(slots[b, j]);
        if slots[b, j].state == MAP_VALID {
          var key := slots[b, j].key;
          var bin := target.Hash(key);
          EntryHasRoom(rows, rows', b, j);
          var done := target.PutSeq(key, slots[b, j].val, bin);
          ok := ok && done;
          EntryCopied(rows, rows', b, j);
          assert Rows() == rows;
        } else {
          SkipEntry(AsTable(rows), AsTable(rows'), b, j);
        }
        j := j + 1;
      }
      CopiedBucket(AsTable(rows), AsTable(target.Rows()), b);
    }
  }

  /** Both sizes are powers of two and the new one is not smaller. */
  ghost predicate Grown(n: nat, n': nat) {
    exists p: nat, q: nat :: p <= q && n == Pow2(p) && n' == Pow2(q)
  }

  /** The entries that what is left of bucket b, and the later buckets, can fill
      are still empty. */
  ghost predicate RoomFor(n: nat, b: nat, j: nat, rows: seq<Chain>)
    requires n > 0
  {
    forall c, s | 0 <= c < |rows| && 0 <= s < |rows[c]| && (c % n > b || (c % n == b && s >= j)) :: rows[c][s].key == 0
  }

  /** With power-of-two growth each new bucket is fed by one old bucket only. */
  lemma OneSource(n: nat, n': nat, key: Key)
    requires Grown(n, n') && n > 0 && n' > 0
    ensures Resize.Bin(n', key) % n == Resize.Bin(n, key) == key % n
    ensures Resize.Bin(n', key) == key % n'
  {
    var p: nat, q: nat :| p <= q && n == Pow2(p) && n' == Pow2(q);
    MaskIsRemainder(key, p);
    MaskIsRemainder(key, q);
    PowersMultiply(p, q - p);
    RemainderOfRemainder(key, n, Pow2(q - p));
  }

  lemma RemainderOfRemainder(k: nat, n: nat, m: nat)
    requires n > 0 && m > 0 && n * m > 0
    ensures k % (n * m) % n == k % n
  {
    var d, r := k / (n * m), k % (n * m);
    DivMod(k, n * m);
    DivMod(r, n);
    var e := r / n;
    assert d * (n * m) == (d * m) * n;
    assert (d * m) * n + e * n == (d * m + e) * n;
    DivUnique(k, n, d * m + e, r % n);
  }

  lemma EntryHasRoom(rows: seq<Chain>, rows': seq<Chain>, b: nat, j: nat)
    requires RowsOk(rows) && RowsOk(rows') && b < |rows| && j < ENTRIES_PER_BUCKET && rows[b][j].key != 0
    requires Grown(|rows|, |rows'|) && RoomFor(|rows|, b, j, rows')
    ensures FirstEmpty(rows'[Resize.Bin(|rows'|, rows[b][j].key)]) <= j
  {
    var key := rows[b][j].key;
    OneSource(|rows|, |rows'|, key);
    assert ChainOk(AsTable(rows).chains[b], |rows|, b);
    assert rows'[Resize.Bin(|rows'|, key)][j].key == 0;
  }

  lemma EntryCopied(rows: seq<Chain>, rows': seq<Chain>, b: nat, j: nat)
    requires RowsOk(rows) && RowsOk(rows') && b < |rows| && j < ENTRIES_PER_BUCKET && rows[b][j].key != 0
    requires Grown(|rows|, |rows'|) && RoomFor(|rows|, b, j, rows')
    requires Copied(AsTable(rows), AsTable(rows'), b, j)
    ensures var e := rows[b][j];
            var bin := Resize.Bin(|rows'|, e.key);
            var next := rows'[bin := PutIn(rows'[bin], e.key, e.val)];
            RowsOk(next) && Copied(AsTable(rows), AsTable(next), b, j + 1) && RoomFor(|rows|, b, j + 1, next)
  {
    var e := rows[b][j];
    var bin := Resize.Bin(|rows'|, e.key);
    var next := rows'[bin := PutIn(rows'[bin], e.key, e.val)];
    EntryHasRoom(rows, rows', b, j);
    OneSource(|rows|, |rows'|, e.key);
    assert ChainOk(AsTable(rows).chains[b], |rows|, b);
    CopyEntry(AsTable(rows), AsTable(rows'), b, j);
    assert AsTable(next) == Resize.SetChain(AsTable(rows'), bin, next[bin]);
    RoomAfter(rows, rows', b, j);
  }

  lemma RoomAfter(rows: seq<Chain>, rows': seq<Chain>, b: nat, j: nat)
    requires b < |rows| && j < ENTRIES_PER_BUCKET && |rows[b]| == ENTRIES_PER_BUCKET && |rows'| > 0
    requires forall c | 0 <= c < |rows'| :: |rows'[c]| == ENTRIES_PER_BUCKET
    requires RoomFor(|rows|, b, j, rows') && FirstEmpty(rows'[Resize.Bin(|rows'|, rows[b][j].key)]) <= j
    ensures var e := rows[b][j];
            var bin := Resize.Bin(|rows'|, e.key);
            var next := rows'[bin := PutIn(rows'[bin], e.key, e.val)];
            (Resize.Bin(|rows'|, e.key) % |rows| == b ==> RoomFor(|rows|, b, j + 1, next))
            && forall c | 0 <= c < |next| :: |next[c]| == ENTRIES_PER_BUCKET
  {
  }

  /** clht_t: the current table. */
  class Clht {
    var ht: HashTable

    ghost predicate Valid()
      reads this, ht, ht.slots
    {
      ht.Valid() && IsPowerOfTwo(ht.numBuckets)
    }

    constructor (n: nat)
      requires IsPowerOfTwo(n) && n > 0
      ensures Valid() && fresh(ht) && fresh(ht.slots) && ht.numBuckets == n
    {
      ht := new HashTable(n);
      new;
      NewIsOk(n);
    }

    /** ht_resize_pes with nothing else running: the table grows by a power of
        two, every pair finds room, and the map stays the same. */
    method ResizePes(factor: nat) returns (ok: bool)
      requires Valid() && IsPowerOfTwo(factor)
      modifies this
      ensures ok && Valid() && fresh(ht) && ht.numBuckets == factor * old(ht.numBuckets)
      ensures SamePairs(old(ht.Rows()), ht.Rows())
    {
      var from := ht;
      ghost var rows := from.Rows();
      GrownBy(from.numBuckets, factor);
      var to := new HashTable(factor * from.numBuckets);
      NewIsOk(to.numBuckets);
      CopyStart(AsTable(rows), to.numBuckets);
      assert AsTable(to.Rows()) == Resize.NewTable(to.numBuckets);
      ok := true;
      var b := 0;
      while b < from.numBuckets
        invariant b <= from.numBuckets && ok && from.Rows() == rows && fresh(to) && fresh(to.slots)
        invariant from.Valid() && to.Valid() && to.Clean()
        invariant Copied(AsTable(rows), AsTable(to.Rows()), b, 0) && RoomFor(from.numBuckets, b, 0, to.Rows())
      {
        var done := from.BucketCpy(b, to);
        ok := ok && done;
        b := b + 1;
      }
      CopiedAll(AsTable(rows), AsTable(to.Rows()));
      ht := to;
    }
  }

  lemma NewIsOk(n: nat)
    requires n > 0
    ensures RowsOk(Resize.NewTable(n).chains)
  {
    CopyStart(Resize.NewTable(n), n);
    assert AsTable(Resize.NewTable(n).chains) == Resize.NewTable(n);
  }

  lemma GrownBy(n: nat, factor: nat)
    requires IsPowerOfTwo(n) && IsPowerOfTwo(factor)
    ensures factor * n > 0 && IsPowerOfTwo(factor * n) && Grown(n, factor * n)
  {
    var p: nat :| n == Pow2(p);
    var q: nat :| factor == Pow2(q);
    PowersMultiply(q, p);
    assert n == Pow2(p) && factor * n == Pow2(q + p) && p <= q + p;
  }

  lemma RatioBound(x: nat, y: nat)
    requires y > 0 && x <= y
    ensures 0.0 <= 100.0 * x as real / y as real <= 100.0
  {
    var q := 100.0 * x as real / y as real;
    assert q * y as real == 100.0 * x as real;
    if q < 0.0 { TimesPositive(q, 0.0, y as real); }
    if q > 100.0 { TimesPositive(100.0, q, y as real); }
  }

  lemma TimesPositive(a: real, b: real, c: real)
    requires a < b && c > 0.0
    ensures a * c < b * c
  {
  }

  /** The growth ht_status chooses.  A bucket has three entries, so the table is
      at most 100% full and always just doubles. */
  method GrowBy(size: nat, n: nat) returns (factor: nat)
    requires n > 0 && size <= ENTRIES_PER_BUCKET * n
    ensures factor == 2
  {
    var fullRatio := 100.0 * size as real / (n * ENTRIES_PER_BUCKET) as real;
    var incBy := (fullRatio / 40.0).Floor;
    RatioBound(size, n * ENTRIES_PER_BUCKET);
    assert Pow2(0) == 1 && Pow2(1) == 2 && IsPowerOfTwo(1) && IsPowerOfTwo(2);
    factor := Pow2RoundUp(incBy);
    if factor <= 1 { factor := 2; }
  }
}
