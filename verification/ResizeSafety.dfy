/** What every interleaving of puts, removes and resizes keeps. */
module ResizeSafety {
  import opened Chains
  import opened Resize

  // ---- one table -----------------------------------------------------------

  /** No key twice, and every key in the chain it hashes to. */
  ghost predicate ChainOk(c: Chain, n: nat, b: nat)
    requires n > 0
  {
    Distinct(c) && forall s | 0 <= s < |c| && c[s].key != 0 :: Bin(n, c[s].key) == b
  }

  ghost predicate TableOk(t: Table) {
    && |t.chains| > 0 && |t.locks| == |t.chains|
    && forall b | 0 <= b < |t.chains| :: ChainOk(t.chains[b], |t.chains|, b)
  }

  ghost predicate SameMap(t: Table, t': Table) {
    && |t.chains| > 0 && |t'.chains| > 0
    && forall k: Key | k != 0 :: Lookup(t, k) == Lookup(t', k)
  }

  /** The map changes from t to t' by one put of an absent key, or one remove of
      a present one that returns its value. */
  ghost predicate ChangeOk(t: Table, job: Job, res: Result, t': Table) {
    && |t.chains| > 0 && |t'.chains| > 0 && Changes(res)
    && Lookup(t, job.key) == (if res.Removed? then Some(res.val) else None)
    && (res.Added? <==> job.Put?)
    && forall k: Key | k != 0 ::
         Lookup(t', k) == if k != job.key then Lookup(t, k) else if job.Put? then Some(job.val) else None
  }

  lemma EffectOnChain(c: Chain, n: nat, b: nat, job: Job, k: Key)
    requires n > 0 && ChainOk(c, n, b) && job.key != 0 && Bin(n, job.key) == b && k != 0
    ensures var (d, res) := Effect(c, job);
            && ChainOk(d, n, b)
            && (!Changes(res) ==> d == c && (res.Present? <==> Find(c, job.key).Some?) && (res.Absent? <==> Find(c, job.key) == None))
            && (Changes(res) ==> Find(c, job.key) == (if res.Removed? then Some(res.val) else None) && (res.Added? <==> job.Put?))
            && (Changes(res) ==>
                 Find(d, k) == if k != job.key then Find(c, k) else if job.Put? then Some(job.val) else None)
  {
    var s := IndexOf(c, job.key);
    if job.Put? && s == |c| {
      PutInFind(c, job.key, job.val, k);
      PutInEntries(c, job.key, job.val);
    }
    if job.Remove? && s < |c| {
      RemoveFind(c, s, k);
    }
  }

  lemma EffectIsChange(t: Table, job: Job)
    requires TableOk(t) && job.key != 0
    ensures var b := Bin(|t.chains|, job.key);
            var (c, res) := Effect(t.chains[b], job);
            && TableOk(SetChain(t, b, c))
            && (Changes(res) ==> ChangeOk(t, job, res, SetChain(t, b, c)))
            && (!Changes(res) ==> SetChain(t, b, c) == t)
            && (res.Present? ==> Lookup(t, job.key).Some?) && (res.Absent? ==> Lookup(t, job.key) == None)
  {
    var n := |t.chains|;
    var b := Bin(n, job.key);
    var (c, res) := Effect(t.chains[b], job);
    var t' := SetChain(t, b, c);
    forall k: Key | k != 0
      ensures Changes(res) ==> Lookup(t', k) == if k != job.key then Lookup(t, k) else if job.Put? then Some(job.val) else None
    {
      EffectOnChain(t.chains[b], n, b, job, k);
    }
    EffectOnChain(t.chains[b], n, b, job, job.key);
    forall d | 0 <= d < n ensures ChainOk(t'.chains[d], n, d) {
      assert ChainOk(t.chains[d], n, d);
    }
    if !Changes(res) { assert t.chains[b := t.chains[b]] == t.chains; }
  }

  // ---- the copy ------------------------------------------------------------

  /** What a search finds among the entries before entry j of bucket b. */
  function LookupBefore(t: Table, k: Key, b: nat, j: nat): Option<Val>
    requires |t.chains| > 0 && (b < |t.chains| ==> j <= |t.chains[b]|)
  {
    var c := Bin(|t.chains|, k);
    if c < b then Lookup(t, k)
    else if c == b then Find(t.chains[b][..j], k)
    else None
  }

  /** The new table holds exactly what was copied so far. */
  ghost predicate Copied(t: Table, t': Table, b: nat, j: nat) {
    && |t.chains| > 0 && |t'.chains| > 0 && b <= |t.chains| && (b < |t.chains| ==> j <= |t.chains[b]|)
    && forall k: Key | k != 0 :: Lookup(t', k) == LookupBefore(t, k, b, j)
  }

  lemma {:induction false} FindOnePast(c: Chain, j: nat, k: Key)
    requires j < |c|
    ensures Find(c[..j + 1], k) == if Find(c[..j], k).Some? || c[j].key != k then Find(c[..j], k) else Some(c[j].val)
  {
    if j > 0 {
      FindOnePast(c[1..], j - 1, k);
      assert c[..j + 1][1..] == c[1..][..j];
      assert c[..j][1..] == c[1..][..j - 1];
    }
  }

  lemma NotBefore(c: Chain, j: nat)
    requires Distinct(c) && j < |c| && c[j].key != 0
    ensures Find(c[..j], c[j].key) == None
  {
    if Find(c[..j], c[j].key).Some? {
      var s := FindSome(c[..j], c[j].key);
    }
  }

  lemma CopyStart(t: Table, n: nat)
    requires |t.chains| > 0 && n > 0
    ensures TableOk(NewTable(n)) && Copied(t, NewTable(n), 0, 0)
  {
    var e := [EMPTY, EMPTY, EMPTY];
    var t' := NewTable(n);
    forall b | 0 <= b < n ensures ChainOk(t'.chains[b], n, b) { assert t'.chains[b] == e; }
    forall k: Key | k != 0 ensures Lookup(t', k) == LookupBefore(t, k, 0, 0) {
      assert t'.chains[Bin(n, k)] == e;
      FindNone(e, k);
      assert t.chains[0][..0] == [];
    }
  }

  /** Another entry has been copied. */
  lemma CopyEntry(t: Table, t': Table, b: nat, j: nat)
    requires TableOk(t) && TableOk(t') && Copied(t, t', b, j) && b < |t.chains| && j < |t.chains[b]|
    requires t.chains[b][j].key != 0
    ensures var e := t.chains[b][j];
            var bin := Bin(|t'.chains|, e.key);
            var t1 := SetChain(t', bin, PutIn(t'.chains[bin], e.key, e.val));
            TableOk(t1) && Copied(t, t1, b, j + 1)
  {
    var e := t.chains[b][j];
    var n' := |t'.chains|;
    var bin := Bin(n', e.key);
    var c := t'.chains[bin];
    var t1 := SetChain(t', bin, PutIn(c, e.key, e.val));
    assert ChainOk(t.chains[b], |t.chains|, b) && ChainOk(c, n', bin);
    NotBefore(t.chains[b], j);
    assert Lookup(t', e.key) == None;
    forall k: Key | k != 0 ensures Lookup(t1, k) == LookupBefore(t, k, b, j + 1) {
      PutInFind(c, e.key, e.val, k);
      FindOnePast(t.chains[b], j, k);
      assert Lookup(t', k) == LookupBefore(t, k, b, j);
    }
    PutInFind(c, e.key, e.val, e.key);
    PutInEntries(c, e.key, e.val);
    forall d | 0 <= d < n' ensures ChainOk(t1.chains[d], n', d) {
      assert ChainOk(t'.chains[d], n', d);
    }
  }

  lemma SkipEntry(t: Table, t': Table, b: nat, j: nat)
    requires Copied(t, t', b, j) && b < |t.chains| && j < |t.chains[b]| && t.chains[b][j].key == 0
    ensures Copied(t, t', b, j + 1)
  {
    forall k: Key | k != 0 ensures Lookup(t', k) == LookupBefore(t, k, b, j + 1) {
      FindOnePast(t.chains[b], j, k);
      assert Lookup(t', k) == LookupBefore(t, k, b, j);
    }
  }

  lemma CopiedBucket(t: Table, t': Table, b: nat)
    requires b < |t.chains| && Copied(t, t', b, |t.chains[b]|)
    ensures Copied(t, t', b + 1, 0)
  {
    forall k: Key | k != 0 ensures Lookup(t', k) == LookupBefore(t, k, b + 1, 0) {
      assert t.chains[b][..|t.chains[b]|] == t.chains[b];
      assert Lookup(t', k) == LookupBefore(t, k, b, |t.chains[b]|);
      if b + 1 < |t.chains| { assert t.chains[b + 1][..0] == []; }
    }
  }

  lemma CopiedAll(t: Table, t': Table)
    requires Copied(t, t', |t.chains|, 0)
    ensures SameMap(t, t')
  {
    forall k: Key | k != 0 ensures Lookup(t, k) == Lookup(t', k) {
      assert Lookup(t', k) == LookupBefore(t, k, |t.chains|, 0);
    }
  }

  /** Changing a chain that has not been frozen yet does not disturb the copy. */
  lemma CopyUndisturbed(t: Table, t': Table, b: nat, j: nat, d: nat, c: Chain)
    requires Copied(t, t', b, j) && d < |t.chains| && (b < d || (b == d && j == 0))
    ensures Copied(SetChain(t, d, c), t', b, j)
  {
    var t1 := SetChain(t, d, c);
    forall k: Key | k != 0 ensures Lookup(t', k) == LookupBefore(t1, k, b, j) {
      assert Lookup(t', k) == LookupBefore(t, k, b, j);
    }
  }

  // ---- all tables ----------------------------------------------------------

  ghost predicate Frozen(t: Table) {
    forall b | 0 <= b < |t.locks| :: t.locks[b].Resizing?
  }

  /** Exactly the buckets before b are frozen. */
  ghost predicate FrozenTo(t: Table, b: nat) {
    forall c | 0 <= c < |t.locks| :: t.locks[c].Resizing? <==> c < b
  }

  ghost predicate AllFree(t: Table) {
    forall b | 0 <= b < |t.locks| :: t.locks[b] == Free
  }

  predicate IsResizer(pc: Pc) {
    pc.Freeze? || pc.Copy? || pc.Link? || pc.Unlock?
  }

  /** How far a resize is. */
  ghost predicate Phase(st: State, pc: Pc)
    requires st.cur < |st.tables|
  {
    var t := st.tables[st.cur];
    match pc
    case Freeze(from, to, b) =>
      && from == st.cur && to == st.cur + 1 && |st.tables| == st.cur + 2
      && b <= |t.chains| && FrozenTo(t, b) && AllFree(st.tables[to]) && Copied(t, st.tables[to], b, 0)
    case Copy(from, to, b, j) =>
      && from == st.cur && to == st.cur + 1 && |st.tables| == st.cur + 2
      && b < |t.chains| && FrozenTo(t, b + 1) && AllFree(st.tables[to]) && Copied(t, st.tables[to], b, j)
    case Link(from, to) => |st.tables| == st.cur + 1 && to == st.cur && from + 1 == to && FrozenTo(t, 0)
    case _ => |st.tables| == st.cur + 1 && FrozenTo(t, 0)
  }

  /** The resizer has replaced table v and is about to set its table_new. */
  ghost predicate BeingLinked(st: State, v: nat) {
    && st.resizer.Some? && st.resizer.value < |st.threads|
    && st.threads[st.resizer.value].pc.Link? && st.threads[st.resizer.value].pc.from == v
  }

  ghost predicate TablesOk(st: State) {
    && st.cur < |st.tables|
    && (forall v | 0 <= v < |st.tables| :: TableOk(st.tables[v]))
    && (forall v | 0 <= v < st.cur :: Frozen(st.tables[v]))
    && (forall v | 0 <= v < st.cur :: st.tables[v].linked || BeingLinked(st, v))
    && (forall p | 0 <= p < |st.threads| :: IsResizer(st.threads[p].pc) <==> st.resizer == Some(p))
    && (st.resizer.Some? ==> st.resizer.value < |st.threads|)
    && Phase(st, if st.resizer.Some? then st.threads[st.resizer.value].pc else Unlock)
  }

  /** Thread q holds the lock of bucket b of table v. */
  ghost predicate InSection(st: State, q: nat, v: nat, b: nat) {
    && q < |st.threads| && HasChain(st, v)
    && var th := st.threads[q];
       ((th.pc.Work? && th.pc.ti == v) || (th.pc.Release? && th.pc.ti == v)) && BinOf(st, v, th.job.key) == b
  }

  /** A lock byte says UPDATE exactly while a thread is in that section. */
  ghost predicate LocksOk(st: State) {
    forall v, b, q: nat | 0 <= v < |st.tables| && 0 <= b < |st.tables[v].locks| ::
      InSection(st, q, v, b) <==> st.tables[v].locks[b] == Update(q)
  }

  /** Whoever holds the lock of a bucket is on the current table. */
  lemma WorkIsOnCurrent(st: State, p: nat)
    requires TablesOk(st) && LocksOk(st) && p < |st.threads|
    requires st.threads[p].pc.Work? || st.threads[p].pc.Release?
    requires HasChain(st, st.threads[p].pc.ti)
    ensures var ti := st.threads[p].pc.ti;
            ti == st.cur && st.tables[ti].locks[BinOf(st, ti, st.threads[p].job.key)] == Update(p)
  {
    var ti := st.threads[p].pc.ti;
    assert InSection(st, p, ti, BinOf(st, ti, st.threads[p].job.key));
  }

  /** The chain of a bucket that is not frozen may change. */
  lemma PhaseAfterChange(st: State, pc: Pc, b: nat, c: Chain)
    requires st.cur < |st.tables| && Phase(st, pc) && b < |st.tables[st.cur].chains|
    requires |st.tables[st.cur].locks| == |st.tables[st.cur].chains| && !st.tables[st.cur].locks[b].Resizing?
    ensures Phase(WithTable(st, st.cur, SetChain(st.tables[st.cur], b, c)), pc)
  {
    var t := st.tables[st.cur];
    match pc
    case Freeze(from, to, d) => CopyUndisturbed(t, st.tables[to], d, 0, b, c);
    case Copy(from, to, d, j) => CopyUndisturbed(t, st.tables[to], d, j, b, c);
    case _ =>
  }

  /** The phase depends on the tables only. */
  lemma PhaseOf(st: State, st': State, pc: Pc)
    requires st.cur < |st.tables| && Phase(st, pc) && st'.tables == st.tables && st'.cur == st.cur
    ensures Phase(st', pc)
  {
  }

  lemma TablesAfterEffect(st: State, p: nat)
    requires TablesOk(st) && LocksOk(st) && p < |st.threads| && st.threads[p].pc.Work?
    requires Enabled(st, p, Go) && st.threads[p].job.key != 0
    ensures TablesOk(Next(st, p, Go))
  {
    var st' := Next(st, p, Go);
    var th := st.threads[p];
    var ti := th.pc.ti;
    WorkIsOnCurrent(st, p);
    var t := st.tables[ti];
    var b := BinOf(st, ti, th.job.key);
    var c := Effect(t.chains[b], th.job).0;
    EffectIsChange(t, th.job);
    var pc := if st.resizer.Some? then st.threads[st.resizer.value].pc else Unlock;
    PhaseAfterChange(st, pc, b, c);
    PhaseOf(WithTable(st, ti, SetChain(t, b, c)), st', pc);
  }

  lemma LocksAfterEffect(st: State, p: nat)
    requires LocksOk(st) && Enabled(st, p, Go) && st.threads[p].pc.Work?
    ensures LocksOk(Next(st, p, Go))
  {
    var st' := Next(st, p, Go);
    forall v, b, q: nat | 0 <= v < |st'.tables| && 0 <= b < |st'.tables[v].locks|
      ensures InSection(st', q, v, b) <==> st'.tables[v].locks[b] == Update(q)
    {
      assert InSection(st, q, v, b) <==> InSection(st', q, v, b);
    }
  }

  /** A lock byte of the current table goes between FREE and UPDATE. */
  lemma PhaseAfterLock(st: State, pc: Pc, b: nat, l: Lock)
    requires st.cur < |st.tables| && Phase(st, pc) && b < |st.tables[st.cur].locks|
    requires !l.Resizing? && !st.tables[st.cur].locks[b].Resizing?
    ensures Phase(WithTable(st, st.cur, SetLock(st.tables[st.cur], b, l)), pc)
  {
  }

  /** Where a thread is, apart from what it may claim. */
  ghost predicate Placed(st: State, p: nat)
    requires p < |st.threads|
  {
    var th := st.threads[p];
    match th.pc
    case Exists(ti, i) => th.job.key != 0 && ti <= st.cur
    case Acquire(ti) => th.job.key != 0 && ti <= st.cur
    case Wait(ti) =>
      && th.job.key != 0 && ti <= st.cur
      && HasChain(st, ti) && st.tables[ti].locks[BinOf(st, ti, th.job.key)].Resizing?
    case Load => th.job.key != 0
    case Reload => th.job.key != 0
    case Work(ti) => th.job.key != 0 && ti <= st.cur
    case Release(ti, _) => th.job.key != 0 && ti <= st.cur
    case _ => true
  }

  predicate Quiet(st: State, p: nat, a: Action)
    requires p < |st.threads|
  {
    match st.threads[p].pc
    case Idle => a.Begin?
    case Load => true
    case Exists(_, _) => true
    case Wait(_) => true
    case Reload => true
    case Acquire(ti) => HasChain(st, ti) && st.tables[ti].locks[BinOf(st, ti, st.threads[p].job.key)].Resizing?
    case _ => false
  }

  ghost predicate Base(st: State) {
    TablesOk(st) && LocksOk(st) && forall p | 0 <= p < |st.threads| :: Placed(st, p)
  }

  lemma QuietFrame(st: State, p: nat, a: Action)
    requires Enabled(st, p, a) && Quiet(st, p, a)
    ensures var st' := Next(st, p, a);
            && st'.tables == st.tables && st'.cur == st.cur && st'.resizer == st.resizer
            && st'.threads == st.threads[p := st'.threads[p]]
            && !IsResizer(st.threads[p].pc) && !IsResizer(st'.threads[p].pc)
  {
  }

  lemma QuietKeepsTables(st: State, p: nat, a: Action)
    requires Base(st) && Enabled(st, p, a) && Quiet(st, p, a)
    ensures TablesOk(Next(st, p, a))
  {
    hide Next, Quiet, IsResizer, TableOk, Frozen, Phase, LocksOk, Placed;
    var st' := Next(st, p, a);
    QuietFrame(st, p, a);
    var pc := if st.resizer.Some? then st.threads[st.resizer.value].pc else Unlock;
    PhaseOf(st, st', pc);
    assert pc == if st'.resizer.Some? then st'.threads[st'.resizer.value].pc else Unlock;
  }

  lemma QuietKeepsLocks(st: State, p: nat, a: Action)
    requires Base(st) && Enabled(st, p, a) && Quiet(st, p, a)
    ensures LocksOk(Next(st, p, a))
  {
    hide TablesOk, Placed;
    var st' := Next(st, p, a);
    forall v, b, q: nat | 0 <= v < |st'.tables| && 0 <= b < |st'.tables[v].locks|
      ensures InSection(st', q, v, b) <==> st'.tables[v].locks[b] == Update(q)
    {
      assert InSection(st, q, v, b) <==> InSection(st', q, v, b);
    }
  }

  lemma QuietKeepsBase(st: State, p: nat, a: Action)
    requires Base(st) && Enabled(st, p, a) && Quiet(st, p, a)
    ensures Base(Next(st, p, a))
  {
    hide TablesOk, LocksOk;
    var st' := Next(st, p, a);
    QuietKeepsTables(st, p, a);
    QuietKeepsLocks(st, p, a);
    assert Placed(st, p);
    forall q | 0 <= q < |st'.threads| ensures Placed(st', q) { assert Placed(st, q); }
  }

  lemma AcquireKeepsBase(st: State, p: nat)
    requires Base(st) && Enabled(st, p, Go) && st.threads[p].pc.Acquire? && !Quiet(st, p, Go)
    ensures Base(Next(st, p, Go))
  {
    hide Copied, FrozenTo, AllFree, ChainOk, Phase;
    var st' := Next(st, p, Go);
    var th := st.threads[p];
    var ti := th.pc.ti;
    assert Placed(st, p);
    var b := BinOf(st, ti, th.job.key);
    assert st.tables[ti].locks[b] == Free && ti == st.cur;
    var pc := if st.resizer.Some? then st.threads[st.resizer.value].pc else Unlock;
    PhaseAfterLock(st, pc, b, Update(p));
    PhaseOf(WithTable(st, ti, SetLock(st.tables[ti], b, Update(p))), st', pc);
    forall v, d, q: nat | 0 <= v < |st'.tables| && 0 <= d < |st'.tables[v].locks|
      ensures InSection(st', q, v, d) <==> st'.tables[v].locks[d] == Update(q)
    {
      assert InSection(st, q, v, d) <==> st.tables[v].locks[d] == Update(q);
    }
    forall q | 0 <= q < |st'.threads| ensures Placed(st', q) { assert Placed(st, q); }
  }

  lemma ReleaseKeepsBase(st: State, p: nat)
    requires Base(st) && Enabled(st, p, Go) && st.threads[p].pc.Release?
    ensures Base(Next(st, p, Go))
  {
    hide Copied, FrozenTo, AllFree, ChainOk, Phase;
    var st' := Next(st, p, Go);
    var th := st.threads[p];
    var ti := th.pc.ti;
    WorkIsOnCurrent(st, p);
    var b := BinOf(st, ti, th.job.key);
    var pc := if st.resizer.Some? then st.threads[st.resizer.value].pc else Unlock;
    PhaseAfterLock(st, pc, b, Free);
    PhaseOf(WithTable(st, ti, SetLock(st.tables[ti], b, Free)), st', pc);
    forall v, d, q: nat | 0 <= v < |st'.tables| && 0 <= d < |st'.tables[v].locks|
      ensures InSection(st', q, v, d) <==> st'.tables[v].locks[d] == Update(q)
    {
      assert InSection(st, q, v, d) <==> st.tables[v].locks[d] == Update(q);
    }
    forall q | 0 <= q < |st'.threads| ensures Placed(st', q) { assert Placed(st, q); }
  }

  lemma WorkKeepsBase(st: State, p: nat)
    requires Base(st) && Enabled(st, p, Go) && st.threads[p].pc.Work?
    ensures Base(Next(st, p, Go))
  {
    assert Placed(st, p);
    TablesAfterEffect(st, p);
    LocksAfterEffect(st, p);
    var st' := Next(st, p, Go);
    forall q | 0 <= q < |st'.threads| ensures Placed(st', q) { assert Placed(st, q); }
  }

  // ---- the resizer ---------------------------------------------------------

  lemma BeginResizeKeepsBase(st: State, p: nat, n: nat)
    requires Base(st) && Enabled(st, p, BeginResize(n)) && st.threads[p].pc.Idle?
    ensures Base(Next(st, p, BeginResize(n)))
  {
    var st' := Next(st, p, BeginResize(n));
    CopyStart(st.tables[st.cur], n);
    forall v, d, q: nat | 0 <= v < |st'.tables| && 0 <= d < |st'.tables[v].locks|
      ensures InSection(st', q, v, d) <==> st'.tables[v].locks[d] == Update(q)
    {
      if v < |st.tables| { assert InSection(st, q, v, d) <==> st.tables[v].locks[d] == Update(q); }
      if q < |st.threads| { assert Placed(st, q); }
    }
    forall q | 0 <= q < |st'.threads| ensures Placed(st', q) { assert Placed(st, q); }
  }

  /** A turn of the resizer changes no UPDATE lock and no section. */
  lemma ResizerKeepsLocks(st: State, st': State, p: nat)
    requires LocksOk(st) && p < |st.threads| && |st'.tables| == |st.tables| && |st'.threads| == |st.threads|
    requires forall v | 0 <= v < |st.tables| ::
               |st'.tables[v].chains| == |st.tables[v].chains| && |st'.tables[v].locks| == |st.tables[v].locks|
    requires forall v, b, q: nat | 0 <= v < |st.tables| && 0 <= b < |st.tables[v].locks| ::
               st'.tables[v].locks[b] == Update(q) <==> st.tables[v].locks[b] == Update(q)
    requires forall q | 0 <= q < |st.threads| && q != p :: st'.threads[q] == st.threads[q]
    requires IsResizer(st.threads[p].pc) && !st'.threads[p].pc.Work? && !st'.threads[p].pc.Release?
    ensures LocksOk(st')
  {
    forall v, d, q: nat | 0 <= v < |st'.tables| && 0 <= d < |st'.tables[v].locks|
      ensures InSection(st', q, v, d) <==> st'.tables[v].locks[d] == Update(q)
    {
      assert InSection(st, q, v, d) <==> st.tables[v].locks[d] == Update(q);
    }
  }

  lemma FreezeKeepsBase(st: State, p: nat)
    requires Base(st) && Enabled(st, p, Go) && st.threads[p].pc.Freeze? && st.threads[p].pc.b < |st.tables[st.cur].chains|
    ensures Base(Next(st, p, Go))
  {
    var st' := Next(st, p, Go);
    var Freeze(from, to, b) := st.threads[p].pc;
    assert st.resizer == Some(p);
    var t := st.tables[from];
    forall k: Key | k != 0
      ensures Lookup(st.tables[to], k) == LookupBefore(SetLock(t, b, Resizing), k, b, 0)
    {
      assert Lookup(st.tables[to], k) == LookupBefore(t, k, b, 0);
    }
    ResizerKeepsLocks(st, st', p);
    forall q | 0 <= q < |st'.threads| ensures Placed(st', q) { assert Placed(st, q); }
  }

  /** When the last bucket is frozen and copied, the new table takes over: it
      holds the same map, and all locks of the old one are frozen. */
  lemma SwapKeepsBase(st: State, p: nat)
    requires Base(st) && Enabled(st, p, Go) && st.threads[p].pc.Freeze? && st.threads[p].pc.b >= |st.tables[st.cur].chains|
    ensures Base(Next(st, p, Go)) && SameMap(st.tables[st.cur], st.tables[Next(st, p, Go).cur])
  {
    var st' := Next(st, p, Go);
    var Freeze(from, to, b) := st.threads[p].pc;
    assert st.resizer == Some(p);
    CopiedAll(st.tables[from], st.tables[to]);
    ResizerKeepsLocks(st, st', p);
    forall q | 0 <= q < |st'.threads| ensures Placed(st', q) { assert Placed(st, q); }
  }

  lemma CopyKeepsBase(st: State, p: nat)
    requires Base(st) && Enabled(st, p, Go) && st.threads[p].pc.Copy?
    ensures Base(Next(st, p, Go))
  {
    var st' := Next(st, p, Go);
    var Copy(from, to, b, j) := st.threads[p].pc;
    assert st.resizer == Some(p);
    var (t, t') := (st.tables[from], st.tables[to]);
    if j >= |t.chains[b]| {
      CopiedBucket(t, t', b);
    } else if t.chains[b][j].key == 0 {
      SkipEntry(t, t', b, j);
    } else {
      CopyEntry(t, t', b, j);
    }
    ResizerKeepsLocks(st, st', p);
    forall q | 0 <= q < |st'.threads| ensures Placed(st', q) { assert Placed(st, q); }
  }

  lemma FinishKeepsBase(st: State, p: nat)
    requires Base(st) && Enabled(st, p, Go) && (st.threads[p].pc.Link? || st.threads[p].pc.Unlock?)
    ensures Base(Next(st, p, Go))
  {
    var st' := Next(st, p, Go);
    assert st.resizer == Some(p);
    ResizerKeepsLocks(st, st', p);
    forall q | 0 <= q < |st'.threads| ensures Placed(st', q) { assert Placed(st, q); }
  }

  lemma NextKeepsBase(st: State, p: nat, a: Action)
    requires Base(st) && Enabled(st, p, a)
    ensures Base(Next(st, p, a))
  {
    hide LocksOk, Placed, Phase, TableOk, Frozen;
    if Quiet(st, p, a) {
      QuietKeepsBase(st, p, a);
    } else {
      match st.threads[p].pc {
        case Idle => BeginResizeKeepsBase(st, p, a.n);
        case Acquire(_) => AcquireKeepsBase(st, p);
        case Work(_) => WorkKeepsBase(st, p);
        case Release(_, _) => ReleaseKeepsBase(st, p);
        case Freeze(_, _, b) =>
          if b < |st.tables[st.cur].chains| { FreezeKeepsBase(st, p); } else { SwapKeepsBase(st, p); }
        case Copy(_, _, _, _) => CopyKeepsBase(st, p);
        case _ => FinishKeepsBase(st, p);
      }
    }
  }
}
