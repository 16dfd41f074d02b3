/** Whole runs of threads on the cuckoo table: every operation takes effect at
    one instant, and no set of threads can block each other forever. */
module CuckooThreadsRuns {
  import opened CuckooIndex
  import opened Counters
  import opened Sums
  import opened CuckooTable
  import opened CuckooSearch
  import opened CuckooMap
  import opened CuckooThreads
  import opened CuckooThreadsSafety

  ghost function MapOf(st: State): map<Key, Val>
    requires st.cur < |st.infos|
  {
    Abs(st.infos[st.cur].t)
  }

  /** What an operation did: a keyed one found its key or not, and saw a value. */
  datatype Deed = Cleared | Did(job: Job, found: bool, seen: Val)

  /** An operation takes effect: which thread's which call did what. */
  datatype Event = Event(thread: nat, call: nat, deed: Deed)

  /** What a sequential map does. */
  ghost predicate Legal(m: map<Key, Val>, e: Event, m': map<Key, Val>) {
    match e.deed
    case Cleared => m' == map[]
    case Did(job, found, seen) =>
      && (found <==> job.key in m)
      && (found ==> seen == m[job.key])
      && m' == match job
               case Find(_) => m
               case Erase(k) => m - {k}
               case Update(k, v) => if found then m[k := v] else m
               case Insert(k, v) => if found then m else m[k := v]
  }

  /** The turn in which an operation takes effect. */
  predicate Completes(st: State, p: nat, a: Action)
    requires p < |st.threads|
  {
    var pc := st.threads[p].pc;
    (pc.Ready? && !a.Crowded?) || pc.InsertReady? || pc.ClearReady?
  }

  function EventOf(st: State, p: nat, a: Action): Event
    requires p < |st.threads| && st.threads[p].ti < |st.infos|
  {
    var th := st.threads[p];
    var t := st.infos[th.ti].t;
    Event(p, th.call,
          if th.pc.ClearReady? then Cleared
          else Did(th.job, a.Hit?, if a.Hit? && a.b < |t| && a.s < |t[a.b]| then t[a.b][a.s].val else 0))
  }

  lemma CompletesLegally(st: State, p: nat, a: Action)
    requires Safe(st) && Enabled(st, p, a) && Completes(st, p, a)
    ensures Next(st, p, a).cur == st.cur < |Next(st, p, a).infos|
    ensures Legal(MapOf(st), EventOf(st, p, a), MapOf(Next(st, p, a)))
  {
    var th := st.threads[p];
    var info := st.infos[th.ti];
    var (g, t, k) := (info.g, info.t, th.job.key);
    assert ThreadOk(st, p) && th.ti == st.cur && InfoOk(info);
    if th.pc.ClearReady? {
      ClearIsTableStep(info, true, th);
    } else if a.Hit? {
      AbsAt(t, a.b, a.s);
      if th.pc.Ready? && th.job.Erase? { EraseAbs(g, t, a.b, a.s); }
      if th.pc.Ready? && th.job.Update? { UpdateAbs(g, t, a.b, a.s, th.job.val); }
    } else {
      NotAtHomeIsAbsent(g, t, k);
      if th.pc.InsertReady? { InsertAbs(g, t, th.pc.b, th.pc.s, k, th.job.val); }
      if th.pc.Ready? && a.Place? { InsertAbs(g, t, a.b, a.s, k, th.job.val); }
    }
  }

  /** Cuckoo moves, expansions, restarts and turns on tables that have been
      replaced never change the map. */
  lemma OtherTurnsKeepMap(st: State, p: nat, a: Action)
    requires Safe(st) && Enabled(st, p, a) && !Completes(st, p, a)
    ensures Next(st, p, a).cur < |Next(st, p, a).infos| && MapOf(Next(st, p, a)) == MapOf(st)
  {
    hide PcOk, Ok, Framed, WorkedInfo, Reached, Expands, OwnsLocks, OwnersExist, MapStep, Abs;
    var th := st.threads[p];
    assert ThreadOk(st, p);
    if th.pc.ExpandReady? {
      InstallKeepsSafe(st, p, a);
    } else if !Alone(st, p, a) {
      var info := st.infos[th.ti];
      assert InfoOk(info);
      StepIsTableStep(info, th.ti == st.cur, p, th, a);
    }
  }

  // ---- runs ----------------------------------------------------------------

  type Run = seq<(nat, Action)>

  ghost predicate IsRun(st: State, run: Run)
    decreases |run|
  {
    |run| > 0 ==> Enabled(st, run[0].0, run[0].1) && IsRun(Next(st, run[0].0, run[0].1), run[1..])
  }

  function EndOf(st: State, run: Run): State
    requires IsRun(st, run)
    decreases |run|
  {
    if run == [] then st else EndOf(Next(st, run[0].0, run[0].1), run[1..])
  }

  /** The operations a run finishes, in the order they take effect. */
  ghost function History(st: State, run: Run): seq<Event>
    requires Inv(st) && IsRun(st, run)
    decreases |run|
  {
    if run == [] then []
    else
      var (p, a) := run[0];
      NextKeepsInv(st, p, a);
      assert ThreadOk(st, p);
      (if Completes(st, p, a) then [EventOf(st, p, a)] else []) + History(Next(st, p, a), run[1..])
  }

  /** A sequential map can go from m to m' by these operations. */
  ghost predicate Sequential(m: map<Key, Val>, es: seq<Event>, m': map<Key, Val>)
    decreases |es|
  {
    if es == [] then m' == m
    else exists m1 :: Legal(m, es[0], m1) && Sequential(m1, es[1..], m')
  }

  lemma {:induction false} RunKeepsInv(st: State, run: Run)
    requires Inv(st) && IsRun(st, run)
    ensures Inv(EndOf(st, run))
    decreases |run|
  {
    if run != [] {
      NextKeepsInv(st, run[0].0, run[0].1);
      RunKeepsInv(Next(st, run[0].0, run[0].1), run[1..]);
    }
  }

  /** Every run of any number of threads is, operation by operation, a run of a
      sequential map. */
  lemma {:induction false} RunsLinearize(st: State, run: Run)
    requires Inv(st) && IsRun(st, run)
    ensures Inv(EndOf(st, run))
    ensures Sequential(MapOf(st), History(st, run), MapOf(EndOf(st, run)))
    decreases |run|
  {
    if run != [] {
      var (p, a) := run[0];
      var st' := Next(st, p, a);
      NextKeepsInv(st, p, a);
      RunsLinearize(st', run[1..]);
      var rest := History(st', run[1..]);
      if Completes(st, p, a) {
        assert ThreadOk(st, p);
        CompletesLegally(st, p, a);
        assert ([EventOf(st, p, a)] + rest)[1..] == rest;
      } else {
        OtherTurnsKeepMap(st, p, a);
        assert History(st, run) == rest;
      }
    }
  }

  // ---- calls ---------------------------------------------------------------

  /** How many calls of a thread have taken effect. */
  function Finished(th: ThreadState): int {
    if AtRest(th.pc) then th.call else th.call - 1
  }

  /** The events of one thread. */
  function Own(es: seq<Event>, p: nat): seq<Event> {
    if es == [] then [] else (if es[0].thread == p then [es[0]] else []) + Own(es[1..], p)
  }

  lemma OwnOfMore(e: Event, es: seq<Event>, p: nat)
    ensures Own([e] + es, p) == (if e.thread == p then [e] else []) + Own(es, p)
  {
    assert ([e] + es)[1..] == es;
  }

  lemma OwnTurnFinishes(st: State, p: nat, a: Action)
    requires Inv(st) && Enabled(st, p, a)
    ensures Finished(Next(st, p, a).threads[p]) == Finished(st.threads[p]) + (if Completes(st, p, a) then 1 else 0)
    ensures Completes(st, p, a) ==> st.threads[p].call == Finished(st.threads[p]) + 1
  {
    hide Safe;
    assert ThreadCounts(st, p);
    if !Alone(st, p, a) { CallStays(st, p, a); }
  }

  /** A thread's call takes effect in the turn that completes it, and no turn of
      another thread counts for it. */
  lemma TurnFinishes(st: State, p: nat, a: Action, q: nat)
    requires Inv(st) && Enabled(st, p, a) && q < |st.threads|
    ensures |Next(st, p, a).threads| == |st.threads|
    ensures Finished(Next(st, p, a).threads[q]) == Finished(st.threads[q]) + (if q == p && Completes(st, p, a) then 1 else 0)
    ensures Completes(st, p, a) ==> st.threads[p].call == Finished(st.threads[p]) + 1
  {
    hide Inv;
    OwnTurnFinishes(st, p, a);
  }

  /** Every call has exactly one event, between its beginning and its return: in
      any run the events of a thread are those of the calls that took effect,
      one for each, in the order of the calls. */
  lemma {:induction false} OneEventForEachCall(st: State, run: Run, q: nat)
    requires Inv(st) && IsRun(st, run) && q < |st.threads|
    ensures |EndOf(st, run).threads| == |st.threads|
    ensures var own := Own(History(st, run), q);
            && |own| == Finished(EndOf(st, run).threads[q]) - Finished(st.threads[q])
            && forall i | 0 <= i < |own| :: own[i].call == Finished(st.threads[q]) + 1 + i
    decreases |run|
  {
    if run != [] {
      var (p, a) := run[0];
      var st' := Next(st, p, a);
      NextKeepsInv(st, p, a);
      TurnFinishes(st, p, a, q);
      OneEventForEachCall(st', run[1..], q);
      var rest := History(st', run[1..]);
      assert ThreadOk(st, p);
      if Completes(st, p, a) {
        OwnOfMore(EventOf(st, p, a), rest, q);
      } else {
        assert History(st, run) == rest;
      }
    }
  }

  // ---- size ----------------------------------------------------------------

  /** In every run, at any instant, what size() computes from the counters of the
      current table is the number of pairs, modulo 2^64. */
  lemma SizeIsConserved(st: State, run: Run)
    requires Initial(st) && IsRun(st, run)
    ensures var end := EndOf(st, run);
            && end.cur < |end.infos|
            && Counts(end.infos[end.cur].inserts, end.infos[end.cur].deletes, |MapOf(end)|)
            && Minus(Sum(end.infos[end.cur].inserts) % WORD, Sum(end.infos[end.cur].deletes) % WORD) == |MapOf(end)| % WORD
  {
    InitialIsOk(st);
    RunKeepsInv(st, run);
    var end := EndOf(st, run);
    assert InfoCounts(end, end.cur);
    CountsDiffer(end.infos[end.cur].inserts, end.infos[end.cur].deletes, |MapOf(end)|);
  }

  /** No thread has begun anything, and no lock is taken. */
  ghost predicate Initial(st: State) {
    && st.cur == 0 && |st.infos| == 1
    && InfoOk(st.infos[0]) && InfoCounts(st, 0)
    && (forall q | 0 <= q < |st.threads| :: st.threads[q].counter < st.cores)
    && (forall l | 0 <= l < LOCKS :: st.infos[0].locks[l] == Nobody)
    && (forall q | 0 <= q < |st.threads| :: st.threads[q].pc.Idle? && st.threads[q].ti == 0 && st.threads[q].held == {})
  }

  lemma InitialIsOk(st: State)
    requires Initial(st)
    ensures Inv(st)
  {
    forall q | 0 <= q < |st.threads| ensures ThreadOk(st, q) && ThreadCounts(st, q) {}
  }

  // ---- deadlock freedom ----------------------------------------------------

  /** Thread q spins on a lock somebody has. */
  ghost predicate Waiting(st: State, q: nat)
    requires Safe(st) && q < |st.threads|
  {
    var th := st.threads[q];
    && th.pc.Acquire? && |th.pc.todo| > 0
    && assert ThreadOk(st, q); st.infos[th.ti].locks[th.pc.todo[0]] != Nobody
  }

  /** The owner of the lock a thread waits for. */
  ghost function Holder(st: State, q: nat): (h: nat)
    requires Safe(st) && q < |st.threads| && Waiting(st, q)
    ensures h < |st.threads| && st.threads[h].ti == st.threads[q].ti
    ensures st.threads[q].pc.todo[0] in st.threads[h].held
  {
    var th := st.threads[q];
    assert ThreadOk(st, q);
    var h := st.infos[th.ti].locks[th.pc.todo[0]].id;
    assert OwnersExist(st.infos[th.ti], |st.threads|);
    assert OwnsLocks(st.infos[th.ti], h, HeldOn(st.threads[h], th.ti));
    h
  }

  /** Along a chain of waiting threads the stripes ascend, so the chain ends at
      a thread that holds a lock and is not waiting. */
  lemma {:induction false} ChainEnds(st: State, q: nat) returns (h: nat)
    requires Safe(st) && q < |st.threads| && Waiting(st, q)
    ensures h < |st.threads| && !Waiting(st, h)
    ensures st.threads[h].held != {} && st.threads[h].ti == st.threads[q].ti
    decreases LOCKS - st.threads[q].pc.todo[0]
  {
    assert ThreadOk(st, q);
    h := Holder(st, q);
    if Waiting(st, h) {
      assert ThreadOk(st, h);
      h := ChainEnds(st, h);
    }
  }

  lemma HomeAction(g: Geometry, t: Table, k: Key) returns (a: Action)
    requires Shaped(g, t)
    ensures IsHit(g, t, k, a) || (IsMiss(g, t, k, a) && a.Miss?)
  {
    if NotAtHome(g, t, k) {
      a := Miss;
    } else {
      var b: nat, s: nat :| g.IsHome(k, b) && At(t, b, s, k);
      a := Hit(b, s);
    }
  }

  lemma RoomAction(g: Geometry, t: Table, k: Key) returns (a: Action)
    requires Shaped(g, t)
    ensures (a.Place? && g.IsHome(k, a.b) && FreeSlot(t, a.b, a.s))
         || (a.Crowded? && CuckooSearch.Full(t, g.First(k)) && CuckooSearch.Full(t, g.Second(k)))
  {
    var (b1, b2) := (g.First(k), g.Second(k));
    if CuckooSearch.Full(t, b1) && CuckooSearch.Full(t, b2) {
      a := Crowded;
    } else {
      var b := if CuckooSearch.Full(t, b1) then b2 else b1;
      var s: nat :| s < |t[b]| && !t[b][s].occupied;
      a := Place(b, s);
    }
  }

  /** A thread that is not waiting can take a turn, unless what it needs next is
      an expanded table to install. */
  lemma NotWaitingCanGo(st: State, q: nat) returns (a: Action)
    requires Safe(st) && q < |st.threads| && !Waiting(st, q) && !st.threads[q].pc.ExpandReady?
    ensures Enabled(st, q, a)
  {
    var th := st.threads[q];
    assert ThreadOk(st, q);
    var info := st.infos[th.ti];
    var (g, t, k) := (info.g, info.t, th.job.key);
    assert InfoOk(info);
    a := Go;
    match th.pc {
      case Idle => a := Begin(th.job);
      case Ready =>
        a := HomeAction(g, t, k);
        if a.Miss? && th.job.Insert? { a := RoomAction(g, t, k); }
      case InsertReady(b, s) => a := HomeAction(g, t, k);
      case Search => a := NoPath;
      case Unlock(next) =>
        assert OwnsLocks(info, q, HeldOn(th, th.ti));
        if th.held != {} { var l :| l in th.held; a := Drop(l); }
      case Acquire(todo, goal) =>
        if |todo| == 0 && goal.PathLocked? { InShape(g, goal.path, g.First(k), g.Second(k)); }
      case _ =>
    }
  }

  /** Deadlock freedom: while threads have unfinished operations, one of them can
      take a turn or is about to install an expanded table. */
  lemma SomeThreadCanGo(st: State, q: nat) returns (h: nat, a: Action)
    requires Safe(st) && q < |st.threads| && !st.threads[q].pc.Idle?
    ensures h < |st.threads| && !st.threads[h].pc.Idle?
    ensures st.threads[h].pc.ExpandReady? || Enabled(st, h, a)
  {
    h, a := q, Go;
    if Waiting(st, q) {
      h := ChainEnds(st, q);
      assert ThreadOk(st, h);
    }
    if !st.threads[h].pc.ExpandReady? { a := NotWaitingCanGo(st, h); }
  }
}
