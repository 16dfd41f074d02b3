/** The insertion threads of an expansion, which run concurrently: whatever their
    interleaving on the new table, it ends with the map of the old one. */
module CuckooThreadsExpansion {
  import opened CuckooTable
  import opened CuckooSearch
  import opened CuckooMap
  import opened CuckooThreads
  import opened CuckooThreadsSafety
  import opened CuckooThreadsRuns

  // ---- what one thread inserts ---------------------------------------------

  /** The insertions insert_into_table makes for the slots before s of a bucket. */
  function RowInserts(row: seq<Slot>, s: nat): seq<Job>
    requires s <= |row|
  {
    if s == 0 then []
    else RowInserts(row, s - 1) + (if row[s - 1].occupied then [Insert(row[s - 1].key, row[s - 1].val)] else [])
  }

  /** The insertions insert_into_table makes for buckets from, ..., end - 1. */
  function InsertsOf(t: Table, from: nat, end: nat): seq<Job>
    requires from <= end <= |t|
  {
    if from == end then [] else InsertsOf(t, from, end - 1) + RowInserts(t[end - 1], |t[end - 1]|)
  }

  /** An insertion of what slot s of bucket b holds. */
  ghost predicate InsertsSlot(t: Table, b: nat, s: nat, job: Job) {
    b < |t| && s < |t[b]| && t[b][s].occupied && job == Insert(t[b][s].key, t[b][s].val)
  }

  lemma {:induction false} RowInsert(t: Table, b: nat, n: nat, i: nat) returns (s: nat)
    requires b < |t| && n <= |t[b]| && i < |RowInserts(t[b], n)|
    ensures s < n && InsertsSlot(t, b, s, RowInserts(t[b], n)[i])
  {
    if i < |RowInserts(t[b], n - 1)| { s := RowInsert(t, b, n - 1, i); } else { s := n - 1; }
  }

  /** Every insertion of a range is that of an occupied slot in it. */
  lemma {:induction false} InsertIsSlot(t: Table, from: nat, end: nat, i: nat) returns (b: nat, s: nat)
    requires from <= end <= |t| && i < |InsertsOf(t, from, end)|
    ensures from <= b < end && InsertsSlot(t, b, s, InsertsOf(t, from, end)[i])
    decreases end
  {
    var before := InsertsOf(t, from, end - 1);
    if i < |before| {
      b, s := InsertIsSlot(t, from, end - 1, i);
    } else {
      b := end - 1;
      s := RowInsert(t, b, |t[b]|, i - |before|);
    }
  }

  lemma {:induction false} SlotInRow(t: Table, b: nat, n: nat, s: nat)
    requires b < |t| && s < n <= |t[b]| && t[b][s].occupied
    ensures Insert(t[b][s].key, t[b][s].val) in RowInserts(t[b], n)
  {
    if s < n - 1 { SlotInRow(t, b, n - 1, s); }
  }

  /** Every occupied slot of a range is inserted. */
  lemma {:induction false} SlotIsInserted(t: Table, from: nat, end: nat, b: nat, s: nat)
    requires from <= b < end <= |t| && s < |t[b]| && t[b][s].occupied
    ensures Insert(t[b][s].key, t[b][s].val) in InsertsOf(t, from, end)
    decreases end
  {
    if b < end - 1 { SlotIsInserted(t, from, end - 1, b, s); } else { SlotInRow(t, b, |t[b]|, s); }
  }

  ghost predicate DifferentKeys(js: seq<Job>) {
    forall i, j | 0 <= i < j < |js| :: js[i].key != js[j].key
  }

  lemma {:induction false} RowInsertsDiffer(t: Table, b: nat, n: nat)
    requires Unique(t) && b < |t| && n <= |t[b]|
    ensures DifferentKeys(RowInserts(t[b], n))
  {
    if n > 0 {
      RowInsertsDiffer(t, b, n - 1);
      var js := RowInserts(t[b], n - 1);
      forall i: nat | i < |js| && t[b][n - 1].occupied ensures js[i].key != t[b][n - 1].key {
        var s := RowInsert(t, b, n - 1, i);
        assert At(t, b, s, js[i].key) && At(t, b, n - 1, t[b][n - 1].key);
      }
    }
  }

  /** A range never inserts a key twice. */
  lemma {:induction false} InsertsDiffer(t: Table, from: nat, end: nat)
    requires Unique(t) && from <= end <= |t|
    ensures DifferentKeys(InsertsOf(t, from, end))
    decreases end
  {
    if from < end {
      var (js, row) := (InsertsOf(t, from, end - 1), RowInserts(t[end - 1], |t[end - 1]|));
      InsertsDiffer(t, from, end - 1);
      RowInsertsDiffer(t, end - 1, |t[end - 1]|);
      forall i: nat, j: nat | i < |js| && j < |row| ensures js[i].key != row[j].key {
        var b, s := InsertIsSlot(t, from, end - 1, i);
        var r := RowInsert(t, end - 1, |t[end - 1]|, j);
        assert At(t, b, s, js[i].key) && At(t, end - 1, r, row[j].key);
      }
    }
  }

  // ---- what one thread did in a history ------------------------------------

  ghost predicate AllKeyed(es: seq<Event>) {
    forall i | 0 <= i < |es| :: es[i].deed.Did?
  }

  /** The operations of thread p, in the order they took effect. */
  function JobsOf(es: seq<Event>, p: nat): seq<Job>
    requires AllKeyed(es)
  {
    if es == [] then []
    else
      var e := es[|es| - 1];
      JobsOf(es[..|es| - 1], p) + (if e.thread == p then [e.deed.job] else [])
  }

  /** The event number i of a history is a certain one of its thread. */
  lemma {:induction false} EventIsOwn(es: seq<Event>, i: nat) returns (r: nat)
    requires AllKeyed(es) && i < |es|
    ensures r < |JobsOf(es, es[i].thread)| && JobsOf(es, es[i].thread)[r] == es[i].deed.job
    ensures r == |JobsOf(es[..i], es[i].thread)|
    decreases |es|
  {
    var before := es[..|es| - 1];
    if i < |es| - 1 {
      r := EventIsOwn(before, i);
      assert before[..i] == es[..i];
    } else {
      r := |JobsOf(before, es[i].thread)|;
    }
  }

  lemma {:induction false} JobsGrow(es: seq<Event>, p: nat, i: nat, j: nat)
    requires AllKeyed(es) && i <= j <= |es|
    ensures |JobsOf(es[..i], p)| <= |JobsOf(es[..j], p)|
    ensures i < j && es[i].thread == p ==> |JobsOf(es[..i], p)| < |JobsOf(es[..j], p)|
    decreases j
  {
    if i < j {
      JobsGrow(es, p, i, j - 1);
      assert es[..j][..j - 1] == es[..j - 1];
    }
  }

  lemma {:induction false} JobIsEvent(es: seq<Event>, p: nat, job: Job) returns (i: nat)
    requires AllKeyed(es) && job in JobsOf(es, p)
    ensures i < |es| && es[i].thread == p && es[i].deed.job == job
    decreases |es|
  {
    var n := |es| - 1;
    if es[n].thread == p && es[n].deed.job == job {
      i := n;
    } else {
      i := JobIsEvent(es[..n], p, job);
    }
  }

  // ---- insertions of different keys ----------------------------------------

  /** Insertions of pairwise different keys. */
  ghost predicate FreshInserts(es: seq<Event>) {
    && AllKeyed(es) && (forall i | 0 <= i < |es| :: es[i].deed.job.Insert?)
    && forall i, j | 0 <= i < j < |es| :: es[i].deed.job.key != es[j].deed.job.key
  }

  /** On a sequential map they all succeed and add exactly their pairs. */
  lemma {:induction false} FreshInsertsAdd(m: map<Key, Val>, es: seq<Event>, m': map<Key, Val>)
    requires FreshInserts(es) && Sequential(m, es, m')
    requires forall i | 0 <= i < |es| :: es[i].deed.job.key !in m
    ensures forall i | 0 <= i < |es| :: !es[i].deed.found
    ensures forall i | 0 <= i < |es| :: es[i].deed.job.key in m' && m'[es[i].deed.job.key] == es[i].deed.job.val
    ensures forall k | k in m :: k in m' && m'[k] == m[k]
    ensures forall k | k in m' && k !in m :: exists i :: 0 <= i < |es| && es[i].deed.job.key == k
    decreases |es|
  {
    if es != [] {
      var m1 :| Legal(m, es[0], m1) && Sequential(m1, es[1..], m');
      FreshInsertsAdd(m1, es[1..], m');
      forall i | 0 <= i < |es|
        ensures !es[i].deed.found && es[i].deed.job.key in m' && m'[es[i].deed.job.key] == es[i].deed.job.val
      {
        if i > 0 { assert es[i] == es[1..][i - 1]; }
      }
      forall k | k in m' && k !in m ensures exists i :: 0 <= i < |es| && es[i].deed.job.key == k {
        if k != es[0].deed.job.key {
          var i :| 0 <= i < |es[1..]| && es[1..][i].deed.job.key == k;
          assert es[i + 1].deed.job.key == k;
        }
      }
    }
  }

  // ---- the copy ------------------------------------------------------------

  /** The history of insertion threads that have all run insert_into_table on
      their ranges, in any interleaving. */
  ghost predicate CopiedBy(es: seq<Event>, t: Table, threads: nat) {
    && threads > 0 && AllKeyed(es)
    && (forall i | 0 <= i < |es| :: es[i].thread < threads)
    && forall p: nat | p < threads :: RangeCopied(es, t, threads, p)
  }

  ghost predicate RangeCopied(es: seq<Event>, t: Table, threads: nat, p: nat)
    requires AllKeyed(es) && p < threads
  {
    RangeStart(p, threads, |t|) <= RangeStart(p + 1, threads, |t|)
    && JobsOf(es, p) == InsertsOf(t, RangeStart(p, threads, |t|), RangeStart(p + 1, threads, |t|))
  }

  /** Each event of a copy inserts what one occupied slot holds. */
  lemma CopyEvent(es: seq<Event>, t: Table, threads: nat, i: nat) returns (b: nat, s: nat)
    requires CopiedBy(es, t, threads) && i < |es|
    ensures InsertsSlot(t, b, s, es[i].deed.job)
    ensures var p := es[i].thread; RangeStart(p, threads, |t|) <= b < RangeStart(p + 1, threads, |t|)
  {
    var p := es[i].thread;
    assert RangeCopied(es, t, threads, p);
    var r := EventIsOwn(es, i);
    b, s := InsertIsSlot(t, RangeStart(p, threads, |t|), RangeStart(p + 1, threads, |t|), r);
  }

  /** No two reinsertions of a copy collide. */
  lemma CopyKeysDiffer(es: seq<Event>, t: Table, threads: nat, i: nat, j: nat)
    requires CopiedBy(es, t, threads) && Unique(t) && i < j < |es|
    ensures es[i].deed.job.key != es[j].deed.job.key
  {
    var (p, q) := (es[i].thread, es[j].thread);
    if p == q {
      assert RangeCopied(es, t, threads, p);
      var r := EventIsOwn(es, i);
      var u := EventIsOwn(es, j);
      JobsGrow(es, p, i, j);
      InsertsDiffer(t, RangeStart(p, threads, |t|), RangeStart(p + 1, threads, |t|));
    } else {
      var b, s := CopyEvent(es, t, threads, i);
      var c, u := CopyEvent(es, t, threads, j);
      if es[i].deed.job.key == es[j].deed.job.key {
        assert At(t, b, s, t[b][s].key) && At(t, c, u, t[b][s].key);
        var w := RangesPartition(b, threads, |t|);
      }
    }
  }

  /** Every stored pair is reinserted. */
  lemma PairIsCopied(es: seq<Event>, t: Table, threads: nat, b: nat, s: nat) returns (i: nat)
    requires CopiedBy(es, t, threads) && b < |t| && s < |t[b]| && t[b][s].occupied
    ensures i < |es| && es[i].deed.job == Insert(t[b][s].key, t[b][s].val)
  {
    var p := RangesPartition(b, threads, |t|);
    assert RangeCopied(es, t, threads, p);
    SlotIsInserted(t, RangeStart(p, threads, |t|), RangeStart(p + 1, threads, |t|), b, s);
    i := JobIsEvent(es, p, Insert(t[b][s].key, t[b][s].val));
  }

  /** Inserting all ranges, in any interleaving, rebuilds the map. */
  lemma CopyRebuilds(es: seq<Event>, t: Table, threads: nat, m: map<Key, Val>)
    requires CopiedBy(es, t, threads) && Unique(t) && Sequential(map[], es, m)
    ensures m == Abs(t)
    ensures forall i | 0 <= i < |es| :: !es[i].deed.found
  {
    forall i: nat | i < |es| ensures es[i].deed.job.Insert? { var b, s := CopyEvent(es, t, threads, i); }
    forall i: nat, j: nat | i < j < |es| ensures es[i].deed.job.key != es[j].deed.job.key {
      CopyKeysDiffer(es, t, threads, i, j);
    }
    FreshInsertsAdd(map[], es, m);
    forall b: nat, s: nat | b < |t| && s < |t[b]| && t[b][s].occupied
      ensures t[b][s].key in m && m[t[b][s].key] == t[b][s].val
    {
      var i := PairIsCopied(es, t, threads, b, s);
    }
    forall k | k in m ensures Stored(t, k) {
      var i: nat :| i < |es| && es[i].deed.job.key == k;
      var b, s := CopyEvent(es, t, threads, i);
      assert At(t, b, s, k);
    }
    AbsIs(t, m);
  }

  // ---- the new table -------------------------------------------------------

  /** A table keeps its hash function and bucket size and never gets smaller. */
  ghost predicate Descends(g: Geometry, g': Geometry) {
    g'.hash == g.hash && g'.slots == g.slots && g'.hp >= g.hp
  }

  lemma NextDescends(st: State, p: nat, a: Action)
    requires Inv(st) && Enabled(st, p, a)
    ensures Next(st, p, a).cur < |Next(st, p, a).infos| && Next(st, p, a).cores == st.cores
    ensures Descends(st.infos[st.cur].g, Next(st, p, a).infos[Next(st, p, a).cur].g)
  {
    hide Ok, Framed;
    assert ThreadOk(st, p);
    if !Alone(st, p, a) {
      StepIsTableStep(st.infos[st.threads[p].ti], st.threads[p].ti == st.cur, p, st.threads[p], a);
    }
  }

  lemma {:induction false} RunDescends(st: State, run: Run)
    requires Inv(st) && IsRun(st, run)
    ensures EndOf(st, run).cur < |EndOf(st, run).infos| && EndOf(st, run).cores == st.cores
    ensures Descends(st.infos[st.cur].g, EndOf(st, run).infos[EndOf(st, run).cur].g)
    decreases |run|
  {
    if run != [] {
      NextDescends(st, run[0].0, run[0].1);
      NextKeepsInv(st, run[0].0, run[0].1);
      RunDescends(Next(st, run[0].0, run[0].1), run[1..]);
    }
  }

  lemma OwnerIsBusy(st: State, l: nat)
    requires Inv(st) && l < |st.infos[st.cur].locks| && st.infos[st.cur].locks[l].Thread?
    ensures var q := st.infos[st.cur].locks[l].id; q < |st.threads| && !st.threads[q].pc.Idle?
  {
    var info := st.infos[st.cur];
    assert InfoOk(info) && OwnersExist(info, |st.threads|);
    var q := info.locks[l].id;
    assert ThreadOk(st, q) && OwnsLocks(info, q, HeldOn(st.threads[q], st.cur));
  }

  lemma IdleFreesLocks(st: State, l: nat)
    requires Inv(st) && (forall q | 0 <= q < |st.threads| :: st.threads[q].pc.Idle?) && l < LOCKS
    ensures |st.infos[st.cur].locks| == LOCKS && st.infos[st.cur].locks[l] == Nobody
  {
    assert InfoOk(st.infos[st.cur]);
    if st.infos[st.cur].locks[l].Thread? { OwnerIsBusy(st, l); }
  }

  /** The table an expansion installs: when insertion threads start on an empty
      new table of the demanded size, run insert_into_table on their ranges of
      the old one in any interleaving, expansions of the new table included, and
      have all returned, then the new table is one that Expands allows. */
  lemma ConcurrentExpansion(info: Info, n: nat, st: State, run: Run, threads: nat)
    requires InfoOk(info) && Initial(st) && Inv(st) && IsRun(st, run)
    requires MapOf(st) == map[] && st.cores == |info.inserts|
    requires Descends(info.g, st.infos[0].g) && st.infos[0].g.hp >= n
    requires CopiedBy(History(st, run), info.t, threads)
    requires forall q | 0 <= q < |EndOf(st, run).threads| :: EndOf(st, run).threads[q].pc.Idle?
    ensures EndOf(st, run).cur < |EndOf(st, run).infos|
    ensures Expands(info, n, EndOf(st, run).infos[EndOf(st, run).cur])
  {
    var end := EndOf(st, run);
    RunsLinearize(st, run);
    RunDescends(st, run);
    CopyRebuilds(History(st, run), info.t, threads, MapOf(end));
    assert InfoOk(end.infos[end.cur]) && InfoCounts(end, end.cur);
    forall l: nat | l < LOCKS ensures end.infos[end.cur].locks[l] == Nobody { IdleFreesLocks(end, l); }
  }
}
