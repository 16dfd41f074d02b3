/** What threads ask of the resizing table is what they are answered, a resize
    that has begun replaces the table as demanded, and a call that is left alone
    ends with the answer of a map. */
module ResizeCalls {
  import opened Chains
  import opened Resize
  import opened ResizeSafety
  import opened ResizeRuns

  // ---- calls and answers ---------------------------------------------------

  /** A call: what was asked, and after how many changes of the map. */
  datatype Order = Order(job: Job, since: nat)

  function BegunNow(st: State, p: nat, a: Action, q: nat): seq<Order> {
    if p == q && a.Begin? then [Order(a.job, |st.changes|)] else []
  }

  /** The puts and removes a thread calls in a run, in order. */
  function Begun(st: State, run: Run, q: nat): seq<Order>
    requires IsRun(st, run)
    decreases |run|
  {
    if run == [] then []
    else BegunNow(st, run[0].0, run[0].1, q) + Begun(Next(st, run[0].0, run[0].1), run[1..], q)
  }

  /** The answers of one thread. */
  function Own(answers: seq<Answer>, q: nat): seq<Answer> {
    if answers == [] then []
    else
      var last := answers[|answers| - 1];
      Own(answers[..|answers| - 1], q) + (if last.thread == q then [last] else [])
  }

  lemma OwnOfMore(answers: seq<Answer>, a: Answer, q: nat)
    ensures Own(answers + [a], q) == Own(answers, q) + (if a.thread == q then [a] else [])
  {
    assert (answers + [a])[..|answers|] == answers;
  }

  /** The call a thread is in. */
  function Pending(th: ThreadState): seq<Order> {
    if InCall(th.pc) then [Order(th.job, th.since)] else []
  }

  /** Answers to the first of these orders, one by one; the others are left. */
  ghost predicate Follow(answers: seq<Answer>, orders: seq<Order>, left: seq<Order>) {
    && |answers| <= |orders| && orders[|answers|..] == left
    && forall i | 0 <= i < |answers| :: Order(answers[i].job, answers[i].since) == orders[i]
  }

  /** What thread p was and will be in, and what it begins and answers. */
  ghost predicate Advances(th: ThreadState, th': ThreadState, begun: seq<Order>, own: seq<Answer>, own': seq<Answer>) {
    || (own' == own && Pending(th') == Pending(th) + begun)
    || (|own'| == |own| + 1 && own'[..|own|] == own && begun == [] && Pending(th') == []
        && Pending(th) == [Order(own'[|own|].job, own'[|own|].since)])
  }

  /** A turn that returns from a call. */
  predicate Returns(st: State, p: nat, a: Action)
    requires Enabled(st, p, a)
  {
    |Next(st, p, a).answers| > |st.answers|
  }

  lemma TurnReturns(st: State, p: nat, a: Action)
    requires Enabled(st, p, a)
    ensures var (th, th', begun) := (st.threads[p], Next(st, p, a).threads[p], BegunNow(st, p, a, p));
            if Returns(st, p, a) then
              && InCall(th.pc) && th'.pc.Idle? && begun == []
              && exists res :: Next(st, p, a).answers == st.answers + [AnswerNow(st, p, res)]
            else Next(st, p, a).answers == st.answers && Pending(th') == Pending(th) + begun
  {
    var th := st.threads[p];
    if Returns(st, p, a) {
      var res := Next(st, p, a).answers[|st.answers|].res;
      assert Next(st, p, a).answers == st.answers + [AnswerNow(st, p, res)];
    }
  }

  lemma OthersStay(st: State, p: nat, a: Action)
    requires Enabled(st, p, a)
    ensures |Next(st, p, a).threads| == |st.threads|
    ensures forall q | 0 <= q < |st.threads| && q != p :: Next(st, p, a).threads[q] == st.threads[q]
  {
  }

  lemma AnswerAdvances(th: ThreadState, th': ThreadState, own: seq<Answer>, a: Answer)
    requires Pending(th) == [Order(a.job, a.since)] && Pending(th') == []
    ensures Advances(th, th', [], own, own + [a])
  {
    hide Pending;
    assert (own + [a])[..|own|] == own;
  }

  lemma GoesOn(th: ThreadState, th': ThreadState, begun: seq<Order>, own: seq<Answer>)
    requires Pending(th') == Pending(th) + begun
    ensures Advances(th, th', begun, own, own)
  {
  }

  lemma OwnTurnObeys(st: State, p: nat, a: Action)
    requires Enabled(st, p, a)
    ensures Advances(st.threads[p], Next(st, p, a).threads[p], BegunNow(st, p, a, p),
                     Own(st.answers, p), Own(Next(st, p, a).answers, p))
  {
    var (th, th') := (st.threads[p], Next(st, p, a).threads[p]);
    TurnReturns(st, p, a);
    hide Next, Enabled, Own, Advances;
    if Returns(st, p, a) {
      var res :| Next(st, p, a).answers == st.answers + [AnswerNow(st, p, res)];
      OwnOfMore(st.answers, AnswerNow(st, p, res), p);
      AnswerAdvances(th, th', Own(st.answers, p), AnswerNow(st, p, res));
    } else {
      GoesOn(th, th', BegunNow(st, p, a, p), Own(st.answers, p));
    }
  }

  lemma OtherTurnObeys(st: State, p: nat, a: Action, q: nat)
    requires Enabled(st, p, a) && q < |st.threads| && q != p
    ensures |Next(st, p, a).threads| == |st.threads|
    ensures Advances(st.threads[q], Next(st, p, a).threads[q], BegunNow(st, p, a, q),
                     Own(st.answers, q), Own(Next(st, p, a).answers, q))
  {
    OthersStay(st, p, a);
    TurnReturns(st, p, a);
    hide Next, Enabled, Own, Advances, Pending;
    if Returns(st, p, a) {
      var res :| Next(st, p, a).answers == st.answers + [AnswerNow(st, p, res)];
      OwnOfMore(st.answers, AnswerNow(st, p, res), q);
      assert Own(st.answers, q) + [] == Own(st.answers, q);
    }
    assert Pending(st.threads[q]) + [] == Pending(st.threads[q]);
    GoesOn(st.threads[q], Next(st, p, a).threads[q], [], Own(st.answers, q));
  }

  /** A turn begins a call, ends one with its answer, or goes on with it. */
  lemma TurnObeys(st: State, p: nat, a: Action, q: nat)
    requires Enabled(st, p, a) && q < |st.threads|
    ensures |Next(st, p, a).threads| == |st.threads|
    ensures Advances(st.threads[q], Next(st, p, a).threads[q], BegunNow(st, p, a, q),
                     Own(st.answers, q), Own(Next(st, p, a).answers, q))
  {
    OthersStay(st, p, a);
    hide Next, Enabled, Own, Advances, Pending;
    if q == p { OwnTurnObeys(st, p, a); } else { OtherTurnObeys(st, p, a, q); }
  }

  lemma FollowOn(own: seq<Answer>, own': seq<Answer>, past: seq<Order>, th: ThreadState, th': ThreadState, begun: seq<Order>)
    requires Follow(own, past, Pending(th)) && Advances(th, th', begun, own, own')
    ensures Follow(own', past + begun, Pending(th'))
  {
    hide Pending;
    assert past == past[..|own|] + Pending(th);
    if own' != own {
      forall i | 0 <= i < |own'| ensures Order(own'[i].job, own'[i].since) == (past + begun)[i] {
        if i < |own| { assert own'[i] == own[i]; }
      }
    } else {
      assert (past + begun)[|own|..] == Pending(th) + begun;
    }
  }

  lemma {:induction false} AnswersFollow(st: State, run: Run, q: nat, past: seq<Order>)
    requires IsRun(st, run) && q < |st.threads| && Follow(Own(st.answers, q), past, Pending(st.threads[q]))
    ensures q < |EndOf(st, run).threads|
    ensures Follow(Own(EndOf(st, run).answers, q), past + Begun(st, run, q), Pending(EndOf(st, run).threads[q]))
    decreases |run|
  {
    hide Follow, Own, Pending, BegunNow, Advances, Next, Enabled;
    if run == [] {
      assert past + Begun(st, run, q) == past;
    } else {
      var (p, a) := run[0];
      var st' := Next(st, p, a);
      var begun := BegunNow(st, p, a, q);
      TurnObeys(st, p, a, q);
      FollowOn(Own(st.answers, q), Own(st'.answers, q), past, st.threads[q], st'.threads[q], begun);
      AnswersFollow(st', run[1..], q, past + begun);
      assert past + begun + Begun(st', run[1..], q) == past + Begun(st, run, q);
    }
  }

  /** A thread's answers are those to its calls, one by one in order: the job is
      the one it called, and the instant from which the answer is right is that
      of the call; no call is left out, but perhaps the one it is in. */
  lemma AnswersAreCalls(st: State, run: Run, q: nat)
    requires Initial(st) && IsRun(st, run) && q < |st.threads|
    ensures q < |EndOf(st, run).threads|
    ensures var (own, calls, th) := (Own(EndOf(st, run).answers, q), Begun(st, run, q), EndOf(st, run).threads[q]);
            && |calls| == |own| + (if InCall(th.pc) then 1 else 0)
            && forall i | 0 <= i < |own| :: own[i].job == calls[i].job && own[i].since == calls[i].since
  {
    AnswersFollow(st, run, q, []);
    assert [] + Begun(st, run, q) == Begun(st, run, q);
  }

  // ---- resizes -------------------------------------------------------------

  /** Thread p is replacing table `from` by one with n chains. */
  ghost predicate Replacing(st: State, p: nat, from: nat, n: nat) {
    && p < |st.threads| && st.resizer == Some(p) && |st.tables| == from + 2 && |st.tables[from + 1].chains| == n
    && match st.threads[p].pc
       case Freeze(f, to, _) => f == from && to == from + 1 && st.cur == from
       case Copy(f, to, _, _) => f == from && to == from + 1 && st.cur == from
       case Link(f, to) => f == from && to == from + 1 && st.cur == to
       case Unlock => st.cur == from + 1 && st.tables[from].linked
       case _ => false
  }

  /** The thread is at its resize in every state of the run. */
  ghost predicate Busy(st: State, run: Run, p: nat)
    requires IsRun(st, run)
    decreases |run|
  {
    && p < |st.threads| && IsResizer(st.threads[p].pc)
    && (run != [] ==> Busy(Next(st, run[0].0, run[0].1), run[1..], p))
  }

  /** Threads that do not resize neither replace the table nor resize it. */
  lemma TablesStay(st: State, q: nat, a: Action)
    requires Enabled(st, q, a) && !IsResizer(st.threads[q].pc) && !(st.threads[q].pc.Idle? && a.BeginResize?)
    ensures var st' := Next(st, q, a);
            && st'.cur == st.cur && st'.resizer == st.resizer && |st'.tables| == |st.tables|
            && forall v | 0 <= v < |st.tables| ::
                 |st'.tables[v].chains| == |st.tables[v].chains| && st'.tables[v].linked == st.tables[v].linked
  {
  }

  lemma ReplacerGoesOn(st: State, p: nat, from: nat, n: nat, a: Action)
    requires Enabled(st, p, a) && Replacing(st, p, from, n)
    ensures var st' := Next(st, p, a);
            if st.threads[p].pc.Unlock? then
              && st'.threads[p].pc.Idle? && st'.resizer == None && |st'.tables| == from + 2
              && st'.cur == from + 1 && |st'.tables[from + 1].chains| == n && st'.tables[from].linked
            else Replacing(st', p, from, n)
  {
  }

  lemma ReplacingGoesOn(st: State, p: nat, from: nat, n: nat, q: nat, a: Action)
    requires Base(st) && Enabled(st, q, a) && Replacing(st, p, from, n)
    ensures var st' := Next(st, q, a);
            if q == p && st.threads[p].pc.Unlock? then
              && st'.threads[p].pc.Idle? && st'.resizer == None && |st'.tables| == from + 2
              && st'.cur == from + 1 && |st'.tables[from + 1].chains| == n && st'.tables[from].linked
            else Replacing(st', p, from, n)
  {
    hide TableOk, Frozen, Phase, LocksOk, Placed, BeingLinked;
    if q == p {
      ReplacerGoesOn(st, p, from, n, a);
    } else {
      assert !IsResizer(st.threads[q].pc) && !(st.threads[q].pc.Idle? && a.BeginResize?);
      OthersStay(st, q, a);
      TablesStay(st, q, a);
    }
  }

  lemma {:induction false} StaysReplacing(st: State, run: Run, p: nat, from: nat, n: nat)
    requires Base(st) && IsRun(st, run) && Busy(st, run, p) && Replacing(st, p, from, n)
    ensures Base(EndOf(st, run)) && Replacing(EndOf(st, run), p, from, n)
    decreases |run|
  {
    if run != [] {
      NextKeepsBase(st, run[0].0, run[0].1);
      ReplacingGoesOn(st, p, from, n, run[0].0, run[0].1);
      StaysReplacing(Next(st, run[0].0, run[0].1), run[1..], p, from, n);
    }
  }

  /** A resize to n chains that begins when table number `cur` is current and
      ends, with any turns of others in between, has made table cur + 1 current,
      which has n chains, and has set table_new of the old one. */
  lemma ResizeReplaces(st: State, p: nat, n: nat, run: Run)
    requires Base(st) && Enabled(st, p, BeginResize(n)) && st.threads[p].pc.Idle?
    requires IsRun(Next(st, p, BeginResize(n)), run) && Busy(Next(st, p, BeginResize(n)), run, p)
    requires Enabled(EndOf(Next(st, p, BeginResize(n)), run), p, Go)
    ensures var end := Next(EndOf(Next(st, p, BeginResize(n)), run), p, Go);
            p < |end.threads| && (end.threads[p].pc.Idle? ==>
              && end.cur == st.cur + 1 && |end.tables| == st.cur + 2 && |end.tables[end.cur].chains| == n
              && end.tables[st.cur].linked && end.resizer == None)
  {
    var st' := Next(st, p, BeginResize(n));
    NextKeepsBase(st, p, BeginResize(n));
    assert |st.tables| == st.cur + 1;
    StaysReplacing(st', run, p, st.cur, n);
    ReplacingGoesOn(EndOf(st', run), p, st.cur, n, p, Go);
  }

  // ---- a call that is left alone -------------------------------------------

  /** What a map answers when the key is mapped as v says. */
  function Expected(job: Job, v: Option<Val>): Result {
    match job
    case Put(_, _) => if v.None? then Added else Present
    case Remove(_) => if v.Some? then Removed(v.value) else Absent
  }

  /** Thread p works on the current table, or turns to it from one that has been
      replaced; its key is mapped as v says, and the lock is free or its own. */
  ghost predicate Unhindered(st: State, p: nat, v: Option<Val>) {
    && p < |st.threads| && st.threads[p].job.key != 0 && HasChain(st, st.cur)
    && var (job, pc) := (st.threads[p].job, st.threads[p].pc);
       var b := BinOf(st, st.cur, job.key);
       var (c, lock) := (st.tables[st.cur].chains[b], st.tables[st.cur].locks[b]);
       match pc
       case Load => lock == Free && Find(c, job.key) == v
       case Exists(ti, i) => ti == st.cur && lock == Free && Find(c, job.key) == v && i <= |c| && NoneBefore(c, i, job.key)
       case Acquire(ti) => (ti == st.cur || IsReplaced(st, ti)) && lock == Free && Find(c, job.key) == v
       case Wait(ti) => IsReplaced(st, ti) && lock == Free && Find(c, job.key) == v
       case Reload => lock == Free && Find(c, job.key) == v
       case Work(ti) => ti == st.cur && Find(c, job.key) == v
       case Release(ti, res) => ti == st.cur && res == Expected(job, v)
       case Idle => AnsweredLast(st, p, job, Expected(job, v))
       case _ => false
  }

  /** A table that has been replaced, with table_new set. */
  predicate IsReplaced(st: State, ti: nat) {
    ti < st.cur && ti < |st.tables| && st.tables[ti].linked
  }

  ghost predicate NoneBefore(c: Chain, i: nat, k: Key) {
    forall s | 0 <= s < i && s < |c| :: c[s].key != k
  }

  predicate AnsweredLast(st: State, p: nat, job: Job, res: Result) {
    && |st.answers| > 0
    && var a := st.answers[|st.answers| - 1]; a.thread == p && a.job == job && a.res == res
  }

  /** How many turns its call needs at most. */
  function TurnsLeft(st: State, p: nat): nat
    requires p < |st.threads| && HasChain(st, st.cur)
  {
    var th := st.threads[p];
    var n := |st.tables[st.cur].chains[BinOf(st, st.cur, th.job.key)]|;
    match th.pc
    case Load => n + 5
    case Exists(_, i) => if i <= n then n - i + 4 else 4
    case Acquire(ti) => if ti == st.cur then 3 else 6
    case Wait(_) => 5
    case Reload => 4
    case Work(_) => 2
    case Release(_, _) => 1
    case _ => 0
  }

  lemma ExistsAlone(st: State, p: nat, v: Option<Val>)
    requires Base(st) && Enabled(st, p, Go) && Unhindered(st, p, v) && st.threads[p].pc.Exists?
    ensures Unhindered(Next(st, p, Go), p, v) && TurnsLeft(Next(st, p, Go), p) < TurnsLeft(st, p)
  {
    var (k, i) := (st.threads[p].job.key, st.threads[p].pc.i);
    var c := st.tables[st.cur].chains[BinOf(st, st.cur, k)];
    FindNone(c, k);
    if i >= |c| { assert !HasKey(c, k); }
  }

  lemma AcquireAlone(st: State, p: nat, v: Option<Val>)
    requires Base(st) && Enabled(st, p, Go) && Unhindered(st, p, v) && (st.threads[p].pc.Acquire? || st.threads[p].pc.Wait?)
    ensures Unhindered(Next(st, p, Go), p, v) && TurnsLeft(Next(st, p, Go), p) < TurnsLeft(st, p)
  {
    hide TableOk, Phase, LocksOk, Placed, BeingLinked, Find;
  }

  lemma WorkAlone(st: State, p: nat, v: Option<Val>)
    requires Base(st) && Enabled(st, p, Go) && Unhindered(st, p, v) && (st.threads[p].pc.Work? || st.threads[p].pc.Release?)
    ensures Unhindered(Next(st, p, Go), p, v) && TurnsLeft(Next(st, p, Go), p) < TurnsLeft(st, p)
  {
    hide TablesOk, LocksOk, Placed, Find, PutIn;
  }

  /** Each of its own turns brings it nearer to the answer. */
  lemma UnhinderedTurn(st: State, p: nat, a: Action, v: Option<Val>)
    requires Base(st) && Enabled(st, p, a) && Unhindered(st, p, v) && !st.threads[p].pc.Idle?
    ensures Unhindered(Next(st, p, a), p, v) && TurnsLeft(Next(st, p, a), p) < TurnsLeft(st, p)
  {
    assert a == Go;
    hide Base;
    var pc := st.threads[p].pc;
    if pc.Exists? {
      ExistsAlone(st, p, v);
    } else if pc.Acquire? || pc.Wait? {
      AcquireAlone(st, p, v);
    } else if pc.Work? || pc.Release? {
      WorkAlone(st, p, v);
    }
  }

  /** A thread that has called put or remove while no resize has reached the
      bucket and its lock is free, or waits for a replaced table, and that nobody
      interrupts, ends within as many turns as the chain is long and 6, can always
      go on until then, and answers as a map does. */
  lemma {:induction false} AloneAnswers(st: State, run: Run, p: nat, v: Option<Val>)
    requires Base(st) && IsRun(st, run) && Unhindered(st, p, v)
    requires forall i | 0 <= i < |run| :: run[i].0 == p && run[i].1.Go?
    ensures Unhindered(EndOf(st, run), p, v)
    ensures |run| + TurnsLeft(EndOf(st, run), p) <= TurnsLeft(st, p)
    ensures EndOf(st, run).threads[p].pc.Idle? || Enabled(EndOf(st, run), p, Go)
    decreases |run|
  {
    if run != [] {
      UnhinderedTurn(st, p, run[0].1, v);
      NextKeepsBase(st, p, run[0].1);
      AloneAnswers(Next(st, p, run[0].1), run[1..], p, v);
    }
  }

  // ---- a resize that is left alone -----------------------------------------

  /** How many turns freezing and copying the buckets from b on and replacing the
      table takes. */
  function CopyLeft(t: Table, b: nat): nat
    decreases |t.chains| - b
  {
    if b >= |t.chains| then 3 else |t.chains[b]| + 2 + CopyLeft(t, b + 1)
  }

  function ResizeLeft(st: State, pc: Pc): nat {
    match pc
    case Freeze(from, _, b) => if from < |st.tables| then CopyLeft(st.tables[from], b) else 3
    case Copy(from, _, b, j) =>
      if from < |st.tables| && b < |st.tables[from].chains| && j <= |st.tables[from].chains[b]|
      then |st.tables[from].chains[b]| - j + 1 + CopyLeft(st.tables[from], b + 1) else 3
    case Link(_, _) => 2
    case Unlock => 1
    case _ => 0
  }

  /** No put or remove is at work on the current table. */
  ghost predicate NoUpdates(st: State) {
    st.cur < |st.tables| && forall b | 0 <= b < |st.tables[st.cur].locks| :: !st.tables[st.cur].locks[b].Update?
  }

  lemma {:induction false} SameCopyLeft(t: Table, t': Table, b: nat)
    requires t'.chains == t.chains
    ensures CopyLeft(t', b) == CopyLeft(t, b)
    decreases |t.chains| - b
  {
    if b < |t.chains| { SameCopyLeft(t, t', b + 1); }
  }

  /** Thread p is at a resize or through with it, and no bucket that it has yet to
      freeze is locked. */
  ghost predicate Undisturbed(st: State, p: nat) {
    && p < |st.threads| && (st.threads[p].pc.Idle? || IsResizer(st.threads[p].pc))
    && (st.threads[p].pc.Freeze? || st.threads[p].pc.Copy? ==> NoUpdates(st))
  }

  lemma ResizerTurn(st: State, p: nat)
    requires Base(st) && Enabled(st, p, Go) && Undisturbed(st, p)
    ensures var st' := Next(st, p, Go);
            Undisturbed(st', p) && ResizeLeft(st', st'.threads[p].pc) < ResizeLeft(st, st.threads[p].pc)
  {
    var (st', pc) := (Next(st, p, Go), st.threads[p].pc);
    assert st.resizer == Some(p);
    hide Copied, TableOk, Frozen, FrozenTo, AllFree, LocksOk, Placed, BeingLinked;
    if pc.Freeze? { SameCopyLeft(st.tables[pc.from], st'.tables[pc.from], pc.b + 1); }
    if pc.Copy? { SameCopyLeft(st.tables[pc.from], st'.tables[pc.from], pc.b + 1); }
  }

  lemma ResizerGoes(st: State, p: nat)
    requires Base(st) && Undisturbed(st, p) && !st.threads[p].pc.Idle?
    ensures Enabled(st, p, Go)
  {
    assert st.resizer == Some(p) && TableOk(st.tables[st.cur]);
    if st.threads[p].pc.Copy? { assert TableOk(st.tables[st.cur + 1]); }
  }

  /** A resize that nobody interrupts, begun while no bucket is locked, ends
      within a number of turns that depends on the table only, and can always go
      on until then. */
  lemma {:induction false} AloneResizes(st: State, run: Run, p: nat)
    requires Base(st) && IsRun(st, run) && Undisturbed(st, p)
    requires forall i | 0 <= i < |run| :: run[i].0 == p && run[i].1.Go?
    ensures var end := EndOf(st, run);
            && Undisturbed(end, p)
            && |run| + ResizeLeft(end, end.threads[p].pc) <= ResizeLeft(st, st.threads[p].pc)
            && (end.threads[p].pc.Idle? || Enabled(end, p, Go))
    decreases |run|
  {
    if run != [] {
      ResizerTurn(st, p);
      NextKeepsBase(st, p, Go);
      AloneResizes(Next(st, p, Go), run[1..], p);
    } else if !st.threads[p].pc.Idle? {
      ResizerGoes(st, p);
    }
  }
}
