/** A chain of CLHT buckets, read in the order a search visits its entries: three
    entries for each bucket, the buckets in the order of their next links.
    Key 0 marks an empty entry. */
module Chains {

  type Key = nat
  type Val = nat

  const ENTRIES_PER_BUCKET := 3

  datatype Option<T> = None | Some(value: T)

  datatype Entry = Entry(key: Key, val: Val)

  const EMPTY := Entry(0, 0)

  type Chain = seq<Entry>

  /** No key is stored twice. */
  ghost predicate Distinct(c: Chain) {
    forall i, j | 0 <= i < j < |c| && c[i].key != 0 :: c[i].key != c[j].key
  }

  ghost predicate HasKey(c: Chain, k: Key) {
    exists s :: 0 <= s < |c| && c[s].key == k
  }

  /** What a search from the first entry on returns. */
  function Find(c: Chain, k: Key): Option<Val> {
    if c == [] then None
    else if c[0].key == k then Some(c[0].val)
    else Find(c[1..], k)
  }

  lemma {:induction false} FindAt(c: Chain, s: nat)
    requires Distinct(c) && s < |c| && c[s].key != 0
    ensures Find(c, c[s].key) == Some(c[s].val)
  {
    if s > 0 { FindAt(c[1..], s - 1); }
  }

  lemma {:induction false} FindSome(c: Chain, k: Key) returns (s: nat)
    requires Find(c, k).Some?
    ensures s < |c| && c[s] == Entry(k, Find(c, k).value)
  {
    if c[0].key == k {
      s := 0;
    } else {
      var r := FindSome(c[1..], k);
      s := r + 1;
    }
  }

  lemma FindNone(c: Chain, k: Key)
    ensures Find(c, k) == None <==> !HasKey(c, k)
  {
    if Find(c, k).Some? {
      var s := FindSome(c, k);
      assert HasKey(c, k);
    } else if HasKey(c, k) {
      var s :| 0 <= s < |c| && c[s].key == k;
      SomeFound(c, k, s);
    }
  }

  lemma {:induction false} SomeFound(c: Chain, k: Key, s: nat)
    requires s < |c| && c[s].key == k
    ensures Find(c, k).Some?
  {
    if s > 0 { SomeFound(c[1..], k, s - 1); }
  }

  /** A chain with exactly these pairs. */
  lemma FindIs(c: Chain, d: Chain, k: Key)
    requires Distinct(c) && Distinct(d) && k != 0
    requires forall v :: Entry(k, v) in c <==> Entry(k, v) in d
    ensures Find(c, k) == Find(d, k)
  {
    if Find(c, k).Some? {
      var s := FindSome(c, k);
      assert Entry(k, Find(c, k).value) in d;
      var r :| 0 <= r < |d| && d[r] == Entry(k, Find(c, k).value);
      FindAt(d, r);
    } else if Find(d, k).Some? {
      var r := FindSome(d, k);
      assert Entry(k, Find(d, k).value) in c;
      var s :| 0 <= s < |c| && c[s] == Entry(k, Find(d, k).value);
      FindAt(c, s);
    }
  }

  /** The first empty entry, or the length of the chain. */
  function FirstEmpty(c: Chain): (s: nat)
    ensures s <= |c|
    ensures s < |c| ==> c[s].key == 0
    ensures forall i | 0 <= i < s :: c[i].key != 0
  {
    if c == [] then 0
    else if c[0].key == 0 then 0
    else
      var s := FirstEmpty(c[1..]);
      assert forall i | 0 < i < s + 1 :: c[i] == c[1..][i - 1];
      s + 1
  }

  /** The chain after a pair was put into the first empty entry; a full chain
      gets another bucket. */
  function PutIn(c: Chain, k: Key, v: Val): (d: Chain)
    ensures |c| <= |d|
  {
    if FirstEmpty(c) < |c| then c[FirstEmpty(c) := Entry(k, v)]
    else c + [Entry(k, v), EMPTY, EMPTY]
  }

  /** Where PutIn puts a pair. */
  lemma {:induction false} PutInEntries(c: Chain, k: Key, v: Val)
    ensures var (s, d) := (FirstEmpty(c), PutIn(c, k, v));
            && s < |d| && d[s] == Entry(k, v) && (s < |c| ==> c[s].key == 0)
            && (forall i | 0 <= i < |c| && i != s :: d[i] == c[i])
            && (forall i | |c| <= i < |d| && i != s :: d[i] == EMPTY)
  {
    var s := FirstEmpty(c);
    if s == |c| { assert PutIn(c, k, v)[s..] == [Entry(k, v), EMPTY, EMPTY]; }
  }

  lemma PutInFind(c: Chain, k: Key, v: Val, k': Key)
    requires Distinct(c) && k != 0 && Find(c, k) == None && k' != 0
    ensures Distinct(PutIn(c, k, v))
    ensures Find(PutIn(c, k, v), k') == if k' == k then Some(v) else Find(c, k')
  {
    var (s, d) := (FirstEmpty(c), PutIn(c, k, v));
    PutInEntries(c, k, v);
    FindNone(c, k);
    assert Distinct(d);
    if k' == k {
      FindAt(d, s);
    } else {
      forall x ensures Entry(k', x) in d <==> Entry(k', x) in c {
        if Entry(k', x) in c {
          var i :| 0 <= i < |c| && c[i] == Entry(k', x);
          assert d[i] == c[i];
        }
      }
      FindIs(d, c, k');
    }
  }

  /** Removing the pair at entry s. */
  lemma RemoveFind(c: Chain, s: nat, k': Key)
    requires Distinct(c) && s < |c| && c[s].key != 0 && k' != 0
    ensures var d := c[s := c[s].(key := 0)];
            Distinct(d) && Find(d, k') == if k' == c[s].key then None else Find(c, k')
  {
    var d := c[s := c[s].(key := 0)];
    FindNone(d, k');
    if k' != c[s].key {
      forall x ensures Entry(k', x) in d <==> Entry(k', x) in c {
        if Entry(k', x) in c {
          var i :| 0 <= i < |c| && c[i] == Entry(k', x);
          assert d[i] == c[i];
        }
      }
      FindIs(d, c, k');
    }
  }
}
