/** Every call on the resizing table takes effect at one instant inside the
    call, over whole runs. */
module ResizeRuns {
  import opened Chains
  import opened Resize
  import opened ResizeSafety

  /** Some instant from `since` to `until` at which k was mapped as `v` says. */
  ghost predicate WasIn(st: State, since: nat, until: nat, k: Key, v: Option<Val>) {
    exists s :: since <= s <= until && s < |st.instants| && MappedAt(st, s, k, v)
  }

  /** The same up to now. */
  ghost predicate WasAt(st: State, since: nat, k: Key, v: Option<Val>) {
    WasIn(st, since, |st.changes|, k, v)
  }

  ghost predicate MappedAt(st: State, s: nat, k: Key, v: Option<Val>)
    requires s < |st.instants|
  {
    |st.instants[s].chains| > 0 && Lookup(st.instants[s], k) == v
  }

  /** The change that a successful answer is about. */
  function ChangeOf(a: Answer): Change {
    Change(a.thread, a.call, a.job, a.res)
  }

  /** It was made while the call ran. */
  ghost predicate MadeChange(st: State, a: Answer) {
    exists i :: a.since <= i < a.until && i < |st.changes| && st.changes[i] == ChangeOf(a)
  }

  /** Why an answer is right. */
  ghost predicate Claim(st: State, a: Answer) {
    match a.res
    case Present => a.job.Put? && exists v :: WasIn(st, a.since, a.until, a.job.key, Some(v))
    case Absent => a.job.Remove? && WasIn(st, a.since, a.until, a.job.key, None)
    case _ => MadeChange(st, a)
  }

  /** No entry before entry i holds the key, or the key was absent meanwhile. */
  ghost predicate Passed(st: State, th: ThreadState, ti: nat, i: nat)
    requires HasChain(st, ti)
  {
    var c := st.tables[ti].chains[BinOf(st, ti, th.job.key)];
    WasAt(st, th.since, th.job.key, None) || forall s | 0 <= s < i && s < |c| :: c[s].key != th.job.key
  }

  /** What the table a thread has loaded says about its key was so at some
      instant since its call began, even if the table was replaced meanwhile. */
  ghost predicate Loaded(st: State, th: ThreadState, ti: nat)
    requires HasChain(st, ti)
  {
    WasAt(st, th.since, th.job.key, Lookup(st.tables[ti], th.job.key))
  }

  ghost predicate Told(st: State, p: nat, th: ThreadState) {
    match th.pc
    case Release(ti, res) => th.since <= |st.changes| && Claim(st, Answer(p, th.call, th.job, res, th.since, |st.changes|))
    case Exists(ti, i) => HasChain(st, ti) && Loaded(st, th, ti) && Passed(st, th, ti, i) && th.since <= |st.changes|
    case Load => th.since <= |st.changes|
    case Acquire(_) => th.since <= |st.changes|
    case Wait(_) => th.since <= |st.changes|
    case Reload => th.since <= |st.changes|
    case Work(_) => th.since <= |st.changes|
    case _ => true
  }

  ghost predicate InstantsOk(st: State) {
    && |st.instants| > 0 && |st.changes| + 1 == |st.instants|
    && st.cur < |st.tables| && SameMap(st.instants[|st.instants| - 1], st.tables[st.cur])
    && forall s | 0 <= s < |st.changes| ::
         ChangeOk(st.instants[s], st.changes[s].job, st.changes[s].res, st.instants[s + 1])
  }

  ghost predicate AnswersOk(st: State) {
    forall a | 0 <= a < |st.answers| :: st.answers[a].until <= |st.changes| && Claim(st, st.answers[a])
  }

  ghost predicate Right(st: State) {
    && Base(st) && InstantsOk(st) && AnswersOk(st)
    && forall p | 0 <= p < |st.threads| :: Told(st, p, st.threads[p])
  }

  // ---- one turn ------------------------------------------------------------

  /** History only grows. */
  ghost predicate Grows(st: State, st': State) {
    st.instants <= st'.instants && st.changes <= st'.changes
  }

  lemma WasInGrows(st: State, st': State, since: nat, until: nat, until': nat, k: Key, v: Option<Val>)
    requires Grows(st, st') && WasIn(st, since, until, k, v) && until <= until'
    ensures WasIn(st', since, until', k, v)
  {
    var s :| since <= s <= until && s < |st.instants| && MappedAt(st, s, k, v);
    assert MappedAt(st', s, k, v);
  }

  lemma WasAtGrows(st: State, st': State, since: nat, k: Key, v: Option<Val>)
    requires Grows(st, st') && WasAt(st, since, k, v)
    ensures WasAt(st', since, k, v)
  {
    WasInGrows(st, st', since, |st.changes|, |st'.changes|, k, v);
  }

  lemma ClaimGrows(st: State, st': State, a: Answer, until: nat)
    requires Grows(st, st') && Claim(st, a) && a.until <= until
    ensures Claim(st', a.(until := until))
  {
    match a.res
    case Present =>
      var v :| WasIn(st, a.since, a.until, a.job.key, Some(v));
      WasInGrows(st, st', a.since, a.until, until, a.job.key, Some(v));
    case Absent => WasInGrows(st, st', a.since, a.until, until, a.job.key, None);
    case _ =>
      var i :| a.since <= i < a.until && i < |st.changes| && st.changes[i] == ChangeOf(a);
      assert st'.changes[i] == ChangeOf(a.(until := until));
  }

  /** The current table is one of the instants. */
  lemma NowIsInstant(st: State, since: nat, k: Key)
    requires InstantsOk(st) && since <= |st.changes| && k != 0
    ensures |st.tables[st.cur].chains| > 0 && WasAt(st, since, k, Lookup(st.tables[st.cur], k))
  {
    assert MappedAt(st, |st.instants| - 1, k, Lookup(st.tables[st.cur], k));
  }

  lemma SearchIsTold(st: State, st': State, th: ThreadState, ti: nat, i: nat)
    requires HasChain(st, ti) && Loaded(st, th, ti) && Passed(st, th, ti, i) && Grows(st, st')
    requires HasChain(st', ti) && st'.tables[ti].chains == st.tables[ti].chains
    ensures Loaded(st', th, ti) && Passed(st', th, ti, i)
  {
    var k := th.job.key;
    var c := st.tables[ti].chains[BinOf(st, ti, k)];
    assert st'.tables[ti].chains[BinOf(st', ti, k)] == c;
    WasAtGrows(st, st', th.since, k, Lookup(st.tables[ti], k));
    if WasAt(st, th.since, k, None) {
      WasAtGrows(st, st', th.since, k, None);
    } else {
      assert forall s | 0 <= s < i && s < |c| :: c[s].key != k;
    }
  }

  /** What threads were told survives any turn that leaves their chains alone. */
  lemma OthersAreTold(st: State, st': State, p: nat, th: ThreadState)
    requires Told(st, p, th) && Grows(st, st')
    requires th.pc.Exists? ==> HasChain(st', th.pc.ti) && st'.tables[th.pc.ti].chains == st.tables[th.pc.ti].chains
    ensures Told(st', p, th)
  {
    match th.pc
    case Release(_, res) => ClaimGrows(st, st', Answer(p, th.call, th.job, res, th.since, |st.changes|), |st'.changes|);
    case Exists(ti, i) => SearchIsTold(st, st', th, ti, i);
    case _ =>
  }

  /** A put that fills an entry already passed is preceded by an instant at
      which its key was absent. */
  lemma PassedDuringEffect(st: State, st': State, th: ThreadState, i: nat, job: Job)
    requires InstantsOk(st) && InstantsOk(st') && Grows(st, st') && st'.cur == st.cur
    requires TableOk(st.tables[st.cur]) && job.key != 0 && th.job.key != 0 && th.since <= |st.changes|
    requires HasChain(st, st.cur) && HasChain(st', st.cur) && Passed(st, th, st.cur, i)
    requires var b := BinOf(st, st.cur, job.key);
             st'.tables[st.cur].chains == st.tables[st.cur].chains[b := Effect(st.tables[st.cur].chains[b], job).0]
    ensures Passed(st', th, st.cur, i)
  {
    var (t, k) := (st.tables[st.cur], th.job.key);
    var b := BinOf(st, st.cur, job.key);
    NowIsInstant(st, th.since, k);
    if WasAt(st, th.since, k, None) {
      WasAtGrows(st, st', th.since, k, None);
    } else {
      assert Lookup(t, k).Some?;
      if BinOf(st, st.cur, k) == b { EffectAddsAbsent(t.chains[b], job, k); }
    }
  }

  /** An effect stores a key in a new place only if the key was absent. */
  lemma EffectAddsAbsent(c: Chain, job: Job, k: Key)
    requires k != 0 && job.key != 0 && Find(c, k).Some?
    ensures var d := Effect(c, job).0;
            forall s | 0 <= s < |d| && d[s].key == k :: s < |c| && c[s].key == k
  {
    var s := IndexOf(c, job.key);
    if job.Put? && s == |c| { PutInEntries(c, job.key, job.val); }
  }

  // ---- the thread that moves -----------------------------------------------

  lemma LoadIsTold(st: State, p: nat)
    requires Right(st) && Enabled(st, p, Go) && st.threads[p].pc.Load?
    ensures Told(Next(st, p, Go), p, Next(st, p, Go).threads[p])
  {
    var st' := Next(st, p, Go);
    var th := st.threads[p];
    assert Told(st, p, th) && Placed(st, p) && TableOk(st.tables[st.cur]);
    NowIsInstant(st, th.since, th.job.key);
    WasAtGrows(st, st', th.since, th.job.key, Lookup(st.tables[st.cur], th.job.key));
  }

  /** What bucket_exists answers when it is done: nothing yet, or yes or no. */
  function Verdict(c: Chain, i: nat, key: Key): Option<bool> {
    if i >= |c| then Some(false) else if c[i].key == key then Some(true) else None
  }

  /** bucket_exists answers for an instant inside the call. */
  lemma ExistsIsRight(st: State, p: nat)
    requires Right(st) && Enabled(st, p, Go) && st.threads[p].pc.Exists?
    ensures var th := st.threads[p];
            var verdict := Verdict(st.tables[th.pc.ti].chains[BinOf(st, th.pc.ti, th.job.key)], th.pc.i, th.job.key);
            && (verdict == Some(false) ==> WasAt(st, th.since, th.job.key, None))
            && (verdict == Some(true) ==> exists v :: WasAt(st, th.since, th.job.key, Some(v)))
            && (verdict == None ==> Passed(st, th, th.pc.ti, th.pc.i + 1))
  {
    var th := st.threads[p];
    var Exists(ti, i) := th.pc;
    var k := th.job.key;
    assert Told(st, p, th) && Placed(st, p) && TableOk(st.tables[ti]);
    var c := st.tables[ti].chains[BinOf(st, ti, k)];
    assert ChainOk(c, |st.tables[ti].chains|, BinOf(st, ti, k));
    assert Passed(st, th, ti, i) && Loaded(st, th, ti);
    FindNone(c, k);
    if i >= |c| && HasKey(c, k) {
      var s :| 0 <= s < |c| && c[s].key == k;
    }
    if i < |c| && c[i].key == k {
      FindAt(c, i);
      assert WasAt(st, th.since, k, Some(c[i].val));
    }
  }

  lemma ExistsIsTold(st: State, p: nat)
    requires Right(st) && Enabled(st, p, Go) && st.threads[p].pc.Exists?
    ensures Told(Next(st, p, Go), p, Next(st, p, Go).threads[p]) && AnswersOk(Next(st, p, Go))
  {
    var st' := Next(st, p, Go);
    var th := st.threads[p];
    assert Told(st, p, th);
    ExistsIsRight(st, p);
    if st'.threads[p].pc.Exists? { SearchIsTold(st, st', th, th.pc.ti, th.pc.i + 1); }
    if st'.threads[p].pc.Idle? {
      var res := if th.job.Put? then Present else Absent;
      assert Claim(st, AnswerNow(st, p, res));
      ReturnKeepsAnswers(st, st', p, res);
    } else {
      SameAnswers(st, st');
    }
  }

  lemma ReturnKeepsAnswers(st: State, st': State, p: nat, res: Result)
    requires AnswersOk(st) && Grows(st, st') && p < |st.threads| && Claim(st, AnswerNow(st, p, res))
    requires st'.answers == st.answers + [AnswerNow(st, p, res)]
    ensures AnswersOk(st')
  {
    forall a | 0 <= a < |st'.answers| ensures Claim(st', st'.answers[a]) && st'.answers[a].until <= |st'.changes| {
      ClaimGrows(st, st', st'.answers[a], st'.answers[a].until);
    }
  }

  lemma SameAnswers(st: State, st': State)
    requires AnswersOk(st) && Grows(st, st') && st'.answers == st.answers
    ensures AnswersOk(st')
  {
    forall a | 0 <= a < |st'.answers| ensures Claim(st', st'.answers[a]) {
      ClaimGrows(st, st', st'.answers[a], st'.answers[a].until);
    }
  }

  lemma WorkIsTold(st: State, p: nat)
    requires Right(st) && Enabled(st, p, Go) && st.threads[p].pc.Work?
    ensures Told(Next(st, p, Go), p, Next(st, p, Go).threads[p]) && InstantsOk(Next(st, p, Go))
  {
    var st' := Next(st, p, Go);
    var th := st.threads[p];
    var (k, ti) := (th.job.key, th.pc.ti);
    assert Told(st, p, th) && Placed(st, p);
    WorkIsOnCurrent(st, p);
    var t := st.tables[ti];
    EffectIsChange(t, th.job);
    var (c, res) := Effect(t.chains[BinOf(st, ti, k)], th.job);
    if Changes(res) {
      LastChange(st, st', SetChain(t, BinOf(st, ti, k), c), Change(p, th.call, th.job, res));
      assert st'.changes[|st.changes|] == Change(p, th.call, th.job, res);
    } else {
      NowIsInstant(st, th.since, k);
      WasAtGrows(st, st', th.since, k, Lookup(t, k));
    }
  }

  lemma LastChange(st: State, st': State, t: Table, c: Change)
    requires InstantsOk(st) && c.job.key != 0 && ChangeOk(st.tables[st.cur], c.job, c.res, t)
    requires st'.instants == st.instants + [t] && st'.changes == st.changes + [c]
    requires st'.cur < |st'.tables| && st'.tables[st'.cur] == t
    ensures InstantsOk(st')
  {
    var last := st.instants[|st.instants| - 1];
    assert Lookup(last, c.job.key) == Lookup(st.tables[st.cur], c.job.key);
    assert ChangeOk(last, c.job, c.res, t);
  }

  lemma MoverIsTold(st: State, p: nat, a: Action)
    requires Right(st) && Enabled(st, p, a)
    ensures Told(Next(st, p, a), p, Next(st, p, a).threads[p]) && AnswersOk(Next(st, p, a))
  {
    var st' := Next(st, p, a);
    var th := st.threads[p];
    assert Told(st, p, th);
    if th.pc.Exists? {
      ExistsIsTold(st, p);
    } else if th.pc.Release? {
      ReturnKeepsAnswers(st, st', p, th.pc.res);
    } else {
      assert st'.answers == st.answers;
      SameAnswers(st, st');
      if th.pc.Load? { LoadIsTold(st, p); }
      if th.pc.Work? { WorkIsTold(st, p); }
    }
  }

  lemma SameMapKeepsInstants(st: State, st': State)
    requires InstantsOk(st) && st'.instants == st.instants && st'.changes == st.changes
    requires st'.cur < |st'.tables| && SameMap(st.tables[st.cur], st'.tables[st'.cur])
    ensures InstantsOk(st')
  {
    var last := st.instants[|st.instants| - 1];
    assert SameMap(last, st.tables[st.cur]);
    forall k: Key | k != 0 ensures Lookup(last, k) == Lookup(st'.tables[st'.cur], k) {
      assert Lookup(last, k) == Lookup(st.tables[st.cur], k);
    }
  }

  lemma InstantsAfter(st: State, p: nat, a: Action)
    requires Right(st) && Enabled(st, p, a)
    ensures InstantsOk(Next(st, p, a))
  {
    var st' := Next(st, p, a);
    var th := st.threads[p];
    if th.pc.Work? {
      WorkIsTold(st, p);
    } else {
      if th.pc.Freeze? && th.pc.b >= |st.tables[st.cur].chains| {
        assert st.resizer == Some(p);
        SwapKeepsBase(st, p);
      } else {
        CurrentChainsStay(st, p, a);
      }
      SameMapKeepsInstants(st, st');
    }
  }

  /** Only an effect and the swap change what the current table holds. */
  lemma CurrentChainsStay(st: State, p: nat, a: Action)
    requires Base(st) && Enabled(st, p, a) && !st.threads[p].pc.Work?
    requires st.threads[p].pc.Freeze? ==> st.threads[p].pc.b < |st.tables[st.cur].chains|
    ensures Next(st, p, a).cur == st.cur
    ensures forall v | 0 <= v <= st.cur :: Next(st, p, a).tables[v].chains == st.tables[v].chains
  {
    if IsResizer(st.threads[p].pc) { assert st.resizer == Some(p); }
  }

  lemma EffectKeepsTold(st: State, p: nat, q: nat)
    requires Right(st) && Enabled(st, p, Go) && st.threads[p].pc.Work? && q < |st.threads| && p != q
    ensures Told(Next(st, p, Go), q, st.threads[q])
  {
    var st' := Next(st, p, Go);
    var th := st.threads[q];
    assert Told(st, q, th) && Placed(st, p) && Placed(st, q);
    WorkIsOnCurrent(st, p);
    WorkIsTold(st, p);
    NextKeepsBase(st, p, Go);
    if th.pc.Exists? && th.pc.ti == st.cur {
      assert TableOk(st.tables[st.cur]) && TableOk(st'.tables[st.cur]);
      NowIsInstant(st', th.since, th.job.key);
      PassedDuringEffect(st, st', th, th.pc.i, st.threads[p].job);
    } else {
      OthersAreTold(st, st', q, th);
    }
  }

  /** The chains of the tables that threads can have loaded change only by an
      effect. */
  lemma ChainsStay(st: State, p: nat, a: Action)
    requires Base(st) && Enabled(st, p, a) && !st.threads[p].pc.Work?
    ensures Grows(st, Next(st, p, a))
    ensures forall v: nat | v <= st.cur ::
              HasChain(Next(st, p, a), v) && Next(st, p, a).tables[v].chains == st.tables[v].chains
  {
    hide Frozen, FrozenTo, AllFree, Copied, ChainOk, LocksOk, Placed;
    var st' := Next(st, p, a);
    if IsResizer(st.threads[p].pc) { assert st.resizer == Some(p); }
    forall v: nat | v <= st.cur ensures HasChain(st', v) { assert TableOk(st.tables[v]); }
  }

  lemma OtherIsTold(st: State, p: nat, a: Action, q: nat)
    requires Right(st) && Enabled(st, p, a) && q < |st.threads| && q != p
    ensures |Next(st, p, a).threads| == |st.threads| && Next(st, p, a).threads[q] == st.threads[q]
    ensures Told(Next(st, p, a), q, st.threads[q])
  {
    hide Told, TableOk, TablesOk, LocksOk, AnswersOk, InstantsOk;
    if st.threads[p].pc.Work? {
      EffectKeepsTold(st, p, q);
    } else {
      assert Told(st, q, st.threads[q]) && Placed(st, q);
      ChainsStay(st, p, a);
      OthersAreTold(st, Next(st, p, a), q, st.threads[q]);
    }
  }

  lemma NextKeepsRight(st: State, p: nat, a: Action)
    requires Right(st) && Enabled(st, p, a)
    ensures Right(Next(st, p, a))
  {
    hide Base, InstantsOk, AnswersOk, Told;
    var st' := Next(st, p, a);
    NextKeepsBase(st, p, a);
    InstantsAfter(st, p, a);
    MoverIsTold(st, p, a);
    forall q | 0 <= q < |st'.threads| ensures Told(st', q, st'.threads[q]) {
      if q != p { OtherIsTold(st, p, a, q); }
    }
  }

  // ---- whose changes they are ----------------------------------------------

  predicate InCall(pc: Pc) {
    pc.Load? || pc.Exists? || pc.Acquire? || pc.Wait? || pc.Reload? || pc.Work? || pc.Release?
  }

  /** The call that made the change has returned and said so. */
  ghost predicate Answered(st: State, c: Change) {
    exists a :: 0 <= a < |st.answers| && ChangeOf(st.answers[a]) == c
  }

  /** It is about to unlock and say so. */
  ghost predicate Pending(st: State, c: Change) {
    && c.thread < |st.threads|
    && var th := st.threads[c.thread];
       th.pc.Release? && th.pc.res == c.res && th.job == c.job && th.call == c.call
  }

  /** A change is made by a call that has begun; the call that its thread is in
      has made it only if it says so. */
  ghost predicate Owned(st: State, c: Change) {
    && c.thread < |st.threads| && c.call <= st.threads[c.thread].call
    && (Answered(st, c) || Pending(st, c))
    && (InCall(st.threads[c.thread].pc) && c.call == st.threads[c.thread].call ==> Pending(st, c))
  }

  /** An answer is from a call that has begun and is not the one going on. */
  ghost predicate Past(st: State, a: Answer) {
    && a.thread < |st.threads| && a.call <= st.threads[a.thread].call
    && (InCall(st.threads[a.thread].pc) ==> a.call < st.threads[a.thread].call)
  }

  predicate OtherCall(st: State, i: nat, c: Change)
    requires i < |st.changes|
  {
    st.changes[i].thread != c.thread || st.changes[i].call != c.call
  }

  predicate SameCall(st: State, a: nat, b: nat)
    requires a < |st.answers| && b < |st.answers|
  {
    st.answers[a].thread == st.answers[b].thread && st.answers[a].call == st.answers[b].call
  }

  /** No call makes two changes, and none returns twice. */
  ghost predicate Ownership(st: State) {
    && (forall i | 0 <= i < |st.changes| :: Owned(st, st.changes[i]))
    && (forall i, j | 0 <= i < j < |st.changes| :: OtherCall(st, i, st.changes[j]))
    && (forall a | 0 <= a < |st.answers| :: Past(st, st.answers[a]))
    && (forall a, b | 0 <= a < b < |st.answers| :: !SameCall(st, a, b))
  }

  /** A turn that makes no change and ends no call. */
  lemma QuietKeepsOwnership(st: State, st': State, p: nat)
    requires Ownership(st) && p < |st.threads| && st'.changes == st.changes && st'.answers == st.answers
    requires p < |st'.threads| && st'.threads == st.threads[p := st'.threads[p]] && !st.threads[p].pc.Release?
    requires st'.threads[p].call >= st.threads[p].call
    requires InCall(st'.threads[p].pc) ==> InCall(st.threads[p].pc) || st'.threads[p].call > st.threads[p].call
    ensures Ownership(st')
  {
    forall i | 0 <= i < |st'.changes| ensures Owned(st', st'.changes[i]) {
      var c := st.changes[i];
      assert Owned(st, c);
      if Answered(st, c) {
        var a :| 0 <= a < |st.answers| && ChangeOf(st.answers[a]) == c;
        assert ChangeOf(st'.answers[a]) == c;
      }
    }
    forall a | 0 <= a < |st'.answers| ensures Past(st', st'.answers[a]) { assert Past(st, st.answers[a]); }
    forall i, j | 0 <= i < j < |st'.changes| ensures OtherCall(st', i, st'.changes[j]) {
      assert OtherCall(st, i, st.changes[j]);
    }
    forall a, b | 0 <= a < b < |st'.answers| ensures !SameCall(st', a, b) { assert !SameCall(st, a, b); }
  }

  /** The turn that makes a change. */
  lemma ChangeKeepsOwnership(st: State, st': State, p: nat, c: Change)
    requires Ownership(st) && p < |st.threads| && st.threads[p].pc.Work? && st'.answers == st.answers
    requires c.thread == p && c.call == st.threads[p].call && c.job == st.threads[p].job
    requires st'.changes == st.changes + [c]
    requires p < |st'.threads| && st'.threads == st.threads[p := st'.threads[p]] && Pending(st', c)
    ensures Ownership(st')
  {
    forall i | 0 <= i < |st'.changes| ensures Owned(st', st'.changes[i]) {
      if i < |st.changes| {
        var d := st.changes[i];
        assert Owned(st, d);
        if Answered(st, d) {
          var a :| 0 <= a < |st.answers| && ChangeOf(st.answers[a]) == d;
          assert ChangeOf(st'.answers[a]) == d;
        }
      }
    }
    forall a | 0 <= a < |st'.answers| ensures Past(st', st'.answers[a]) { assert Past(st, st.answers[a]); }
    forall i, j | 0 <= i < j < |st'.changes| ensures OtherCall(st', i, st'.changes[j]) {
      assert Owned(st, st.changes[i]);
      if j < |st.changes| { assert OtherCall(st, i, st.changes[j]); }
    }
    forall a, b | 0 <= a < b < |st'.answers| ensures !SameCall(st', a, b) { assert !SameCall(st, a, b); }
  }

  /** The turn that ends a call. */
  lemma ReturnKeepsOwnership(st: State, st': State, p: nat, res: Result)
    requires Ownership(st) && p < |st.threads| && InCall(st.threads[p].pc) && st'.changes == st.changes
    requires st.threads[p].pc.Release? ==> st.threads[p].pc.res == res
    requires st'.answers == st.answers + [AnswerNow(st, p, res)]
    requires st'.threads == st.threads[p := st.threads[p].(pc := Idle)]
    ensures Ownership(st')
  {
    var last := AnswerNow(st, p, res);
    assert st'.answers[|st.answers|] == last;
    forall i | 0 <= i < |st'.changes| ensures Owned(st', st'.changes[i]) {
      var c := st.changes[i];
      assert Owned(st, c);
      if Answered(st, c) {
        var a :| 0 <= a < |st.answers| && ChangeOf(st.answers[a]) == c;
        assert ChangeOf(st'.answers[a]) == c;
      } else if c.thread == p {
        assert ChangeOf(st'.answers[|st.answers|]) == c;
      }
    }
    forall a | 0 <= a < |st'.answers| ensures Past(st', st'.answers[a]) {
      if a < |st.answers| { assert Past(st, st.answers[a]); }
    }
    forall i, j | 0 <= i < j < |st'.changes| ensures OtherCall(st', i, st'.changes[j]) {
      assert OtherCall(st, i, st.changes[j]);
    }
    forall a, b | 0 <= a < b < |st'.answers| ensures !SameCall(st', a, b) {
      assert Past(st, st.answers[a]);
      if b < |st.answers| { assert !SameCall(st, a, b); }
    }
  }

  lemma NextKeepsOwnership(st: State, p: nat, a: Action)
    requires Ownership(st) && Enabled(st, p, a)
    ensures Ownership(Next(st, p, a))
  {
    hide Ownership;
    var st' := Next(st, p, a);
    var th := st.threads[p];
    match th.pc {
      case Work(ti) =>
        if st'.changes == st.changes {
          QuietKeepsOwnership(st, st', p);
        } else {
          ChangeKeepsOwnership(st, st', p, Change(p, th.call, th.job, st'.threads[p].pc.res));
        }
      case Release(_, res) => ReturnKeepsOwnership(st, st', p, res);
      case Exists(_, _) =>
        if st'.threads[p].pc.Idle? {
          ReturnKeepsOwnership(st, st', p, if th.job.Put? then Present else Absent);
        } else {
          QuietKeepsOwnership(st, st', p);
        }
      case _ => QuietKeepsOwnership(st, st', p);
    }
  }

  ghost predicate Inv(st: State) {
    Right(st) && Ownership(st)
  }

  lemma NextKeepsInv(st: State, p: nat, a: Action)
    requires Inv(st) && Enabled(st, p, a)
    ensures Inv(Next(st, p, a))
  {
    hide Right, Ownership;
    NextKeepsRight(st, p, a);
    NextKeepsOwnership(st, p, a);
  }

  // ---- runs ----------------------------------------------------------------

  type Run = seq<(nat, Action)>

  ghost predicate IsRun(st: State, run: Run)
    decreases |run|
  {
    |run| > 0 ==> Enabled(st, run[0].0, run[0].1) && IsRun(Next(st, run[0].0, run[0].1), run[1..])
  }

  function EndOf(st: State, run: Run): State
    requires IsRun(st, run)
    decreases |run|
  {
    if run == [] then st else EndOf(Next(st, run[0].0, run[0].1), run[1..])
  }

  /** A new table, and no thread has begun anything. */
  ghost predicate Initial(st: State) {
    && st.cur == 0 && |st.tables| == 1 && st.resizer == None && st.changes == []
    && TableOk(st.tables[0]) && AllFree(st.tables[0]) && st.instants == [st.tables[0]]
    && st.answers == [] && forall p | 0 <= p < |st.threads| :: st.threads[p].pc == Idle
  }

  lemma InitialIsOk(st: State)
    requires Initial(st)
    ensures Inv(st)
  {
    forall p | 0 <= p < |st.threads| ensures Told(st, p, st.threads[p]) && Placed(st, p) {}
  }

  lemma {:induction false} RunKeepsInv(st: State, run: Run)
    requires Inv(st) && IsRun(st, run)
    ensures Inv(EndOf(st, run))
    decreases |run|
  {
    if run != [] {
      NextKeepsInv(st, run[0].0, run[0].1);
      RunKeepsInv(Next(st, run[0].0, run[0].1), run[1..]);
    }
  }

  /** Resizes lose nothing: after any run the current table holds the map that
      the recorded changes make of the first one. */
  lemma ChangesMakeTheMap(st: State, run: Run, i: nat)
    requires Initial(st) && IsRun(st, run)
    ensures var end := EndOf(st, run);
            && InstantsOk(end)
            && end.instants[0] == st.tables[0]
            && (i < |end.changes| ==>
                 ChangeOk(end.instants[i], end.changes[i].job, end.changes[i].res, end.instants[i + 1]))
  {
    InitialIsOk(st);
    RunKeepsInv(st, run);
    FirstStays(st, run);
  }

  lemma {:induction false} FirstStays(st: State, run: Run)
    requires IsRun(st, run) && |st.instants| > 0
    ensures |EndOf(st, run).instants| > 0 && EndOf(st, run).instants[0] == st.instants[0]
    decreases |run|
  {
    if run != [] { FirstStays(Next(st, run[0].0, run[0].1), run[1..]); }
  }

  /** Every call that has returned is right about an instant inside it: a
      rejected put saw its key present, a remove that returns nothing saw it
      absent, and a success made its change. */
  lemma ResultsAreRight(st: State, run: Run, a: nat)
    requires Initial(st) && IsRun(st, run) && a < |EndOf(st, run).answers|
    ensures EndOf(st, run).answers[a].until <= |EndOf(st, run).changes| && Claim(EndOf(st, run), EndOf(st, run).answers[a])
  {
    InitialIsOk(st);
    RunKeepsInv(st, run);
  }

  /** Change i is the one that the call made, and it made no other. */
  ghost predicate OnlyChange(st: State, i: nat, a: Answer) {
    && i < |st.changes| && st.changes[i] == ChangeOf(a)
    && forall j | 0 <= j < |st.changes| && j != i :: OtherCall(st, j, ChangeOf(a))
  }

  /** Each successful call has made exactly one change, while it ran; a call
      that answers Present or Absent has made none. */
  lemma AnswersOwnChanges(st: State, run: Run, a: nat)
    requires Initial(st) && IsRun(st, run) && a < |EndOf(st, run).answers|
    ensures var (end, answer) := (EndOf(st, run), EndOf(st, run).answers[a]);
            if Changes(answer.res) then exists i :: answer.since <= i < answer.until && OnlyChange(end, i, answer)
            else forall j | 0 <= j < |end.changes| :: OtherCall(end, j, ChangeOf(answer))
  {
    hide Base, InstantsOk, AnswersOk, Told, Ownership, Initial, Next;
    var end := EndOf(st, run);
    InitialIsOk(st);
    RunKeepsInv(st, run);
    if Changes(end.answers[a].res) {
      var i := SuccessOwnsChange(end, a);
    } else {
      FailureOwnsNone(end, a);
    }
  }

  lemma SuccessOwnsChange(st: State, a: nat) returns (i: nat)
    requires AnswersOk(st) && Ownership(st) && a < |st.answers| && Changes(st.answers[a].res)
    ensures st.answers[a].since <= i < st.answers[a].until && OnlyChange(st, i, st.answers[a])
  {
    var answer := st.answers[a];
    assert Claim(st, answer);
    i :| answer.since <= i < answer.until && i < |st.changes| && st.changes[i] == ChangeOf(answer);
    forall j | 0 <= j < |st.changes| && j != i ensures OtherCall(st, j, ChangeOf(answer)) {
      assert if i < j then OtherCall(st, i, st.changes[j]) else OtherCall(st, j, st.changes[i]);
    }
  }

  lemma FailureOwnsNone(st: State, a: nat)
    requires InstantsOk(st) && Ownership(st) && a < |st.answers| && !Changes(st.answers[a].res)
    ensures forall j | 0 <= j < |st.changes| :: OtherCall(st, j, ChangeOf(st.answers[a]))
  {
    var answer := st.answers[a];
    assert Past(st, answer);
    forall j | 0 <= j < |st.changes| ensures OtherCall(st, j, ChangeOf(answer)) {
      var c := st.changes[j];
      assert Owned(st, c) && ChangeOk(st.instants[j], c.job, c.res, st.instants[j + 1]);
      if Answered(st, c) {
        var b :| 0 <= b < |st.answers| && ChangeOf(st.answers[b]) == c;
        assert b != a;
        assert if a < b then !SameCall(st, a, b) else !SameCall(st, b, a);
      }
    }
  }

  /** Each change was made by exactly one call: one that has returned and said
      so, or one that is about to. */
  lemma ChangesAreOwned(st: State, run: Run, i: nat)
    requires Initial(st) && IsRun(st, run) && i < |EndOf(st, run).changes|
    ensures var (end, c) := (EndOf(st, run), EndOf(st, run).changes[i]);
            if Pending(end, c) then !Answered(end, c)
            else exists a :: 0 <= a < |end.answers| && ChangeOf(end.answers[a]) == c
                             && forall b | 0 <= b < |end.answers| && b != a :: ChangeOf(end.answers[b]) != c
  {
    hide Right, Initial, Next;
    var end := EndOf(st, run);
    var c := end.changes[i];
    InitialIsOk(st);
    RunKeepsInv(st, run);
    assert Owned(end, c);
    if Answered(end, c) {
      var a :| 0 <= a < |end.answers| && ChangeOf(end.answers[a]) == c;
      assert Past(end, end.answers[a]);
      forall b | 0 <= b < |end.answers| && b != a ensures ChangeOf(end.answers[b]) != c {
        assert if a < b then !SameCall(end, a, b) else !SameCall(end, b, a);
      }
    }
  }

  /** A turn records a change exactly when it is the effect of a put or remove
      that succeeds, and no other turn changes the map. */
  lemma OnlyEffectsChange(st: State, p: nat, a: Action)
    requires Inv(st) && Enabled(st, p, a)
    ensures var st' := Next(st, p, a);
            if st.threads[p].pc.Work? then
              && st'.threads[p].pc.Release?
              && var (th, res) := (st.threads[p], st'.threads[p].pc.res);
                 st'.changes == if Changes(res) then st.changes + [Change(p, th.call, th.job, res)] else st.changes
            else st'.changes == st.changes && SameMap(st.tables[st.cur], st'.tables[st'.cur])
  {
    hide Base, Told, AnswersOk, Ownership;
    var st' := Next(st, p, a);
    if !st.threads[p].pc.Work? {
      InstantsAfter(st, p, a);
      var last := st.instants[|st.instants| - 1];
      assert SameMap(last, st.tables[st.cur]) && SameMap(last, st'.tables[st'.cur]);
    }
  }

  /** A frozen bucket keeps its contents and its lock for good. */
  lemma FrozenStays(st: State, p: nat, a: Action, v: nat, b: nat)
    requires Base(st) && Enabled(st, p, a) && v < |st.tables| && b < |st.tables[v].locks| && st.tables[v].locks[b].Resizing?
    ensures FrozenSame(st.tables[v], Next(st, p, a).tables[v], b)
  {
    hide Frozen, FrozenTo, Copied, ChainOk;
    var th := st.threads[p];
    assert TableOk(st.tables[v]) && Placed(st, p);
    if IsResizer(th.pc) {
      assert st.resizer == Some(p);
    } else if th.pc.Work? || th.pc.Release? {
      WorkIsOnCurrent(st, p);
    }
  }

  ghost predicate FrozenSame(t: Table, t': Table, b: nat) {
    && |t'.locks| == |t.locks| && |t'.chains| == |t.chains| && b < |t.locks| && b < |t.chains|
    && t'.locks[b].Resizing? && t'.chains[b] == t.chains[b]
  }

  // ---- progress ------------------------------------------------------------

  /** Whoever has the lock of a bucket can take a turn. */
  lemma OwnerCanGo(st: State, v: nat, b: nat) returns (h: nat)
    requires Inv(st) && v < |st.tables| && b < |st.tables[v].locks| && st.tables[v].locks[b].Update?
    ensures h < |st.threads| && !st.threads[h].pc.Idle? && Enabled(st, h, Go)
  {
    h := st.tables[v].locks[b].owner;
    assert InSection(st, h, v, b);
  }

  /** The resizer, or the thread whose lock it waits for, can take a turn. */
  lemma ResizerCanGo(st: State) returns (h: nat)
    requires Inv(st) && st.resizer.Some?
    ensures h < |st.threads| && !st.threads[h].pc.Idle? && Enabled(st, h, Go)
  {
    h := st.resizer.value;
    assert IsResizer(st.threads[h].pc) && TableOk(st.tables[st.cur]);
    match st.threads[h].pc {
      case Freeze(from, to, b) =>
        if b < |st.tables[from].locks| && st.tables[from].locks[b].Update? { h := OwnerCanGo(st, from, b); }
      case Copy(from, to, b, j) => assert TableOk(st.tables[to]);
      case _ =>
    }
  }

  /** No reachable deadlock: while a call or a resize is unfinished, some thread
      can take a turn.  In particular a thread that waits for table_new waits
      only while a resizer is at work. */
  lemma SomeThreadCanGo(st: State, q: nat) returns (h: nat)
    requires Inv(st) && q < |st.threads| && !st.threads[q].pc.Idle?
    ensures h < |st.threads| && !st.threads[h].pc.Idle? && Enabled(st, h, Go)
  {
    var th := st.threads[q];
    h := q;
    assert Placed(st, q) && Told(st, q, th);
    match th.pc {
      case Acquire(ti) =>
        assert TableOk(st.tables[ti]);
        var b := BinOf(st, ti, th.job.key);
        if st.tables[ti].locks[b].Update? { h := OwnerCanGo(st, ti, b); }
      case Wait(ti) =>
        if !st.tables[ti].linked {
          assert st.resizer.Some?;
          h := ResizerCanGo(st);
        }
      case Work(ti) => assert TableOk(st.tables[ti]);
      case Release(ti, _) => assert TableOk(st.tables[ti]);
      case Exists(ti, _) =>
      case Load =>
      case Reload =>
      case _ => h := ResizerCanGo(st);
    }
  }
}
