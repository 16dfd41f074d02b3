/** What a thread asks of the cuckoo table is what takes effect, and a call that
    is left alone ends. */
module CuckooThreadsCalls {
  import opened CuckooTable
  import opened CuckooSearch
  import opened CuckooPath
  import opened CuckooMap
  import opened CuckooThreads
  import opened CuckooThreadsSafety
  import opened CuckooThreadsRuns

  // ---- orders --------------------------------------------------------------

  /** The calls a thread makes in a run, in order. */
  function Begun(run: Run, q: nat): seq<Action> {
    if run == [] then [] else BegunNow(run[0].0, run[0].1, q) + Begun(run[1..], q)
  }

  function BegunNow(p: nat, a: Action, q: nat): seq<Action> {
    if p == q && (a.Begin? || a.BeginClear?) then [a] else []
  }

  /** A thread that is clearing the table. */
  predicate Clearing(pc: Pc) {
    pc.ClearLoad? || pc.ClearReady? || (pc.Acquire? && pc.goal.ClearLocked?) || (pc.Unlock? && Clearing(pc.next))
  }

  /** The call a thread is in, unless it is at rest. */
  function Order(th: ThreadState): Action {
    if Clearing(th.pc) then BeginClear else Begin(th.job)
  }

  function Pending(th: ThreadState): seq<Action> {
    if AtRest(th.pc) then [] else [Order(th)]
  }

  /** An operation took effect as it was asked. */
  predicate Obeys(deed: Deed, order: Action) {
    match deed
    case Cleared => order == BeginClear
    case Did(job, _, _) => order == Begin(job)
  }

  lemma ReachedKeepsOrder(info: Info, current: bool, th: ThreadState, goal: Goal)
    requires goal.PathLocked? ==> Shaped(info.g, info.t) && AllInTable(info.g, goal.path) && goal.depth < |goal.path|
    ensures Clearing(Reached(info, current, th, goal).1.pc) <==> goal.ClearLocked?
  {
    var pc := Reached(info, current, th, goal).1.pc;
    if pc.Unlock? { assert Clearing(pc) == Clearing(pc.next); }
  }

  lemma StepKeepsOrder(info: Info, current: bool, p: nat, th: ThreadState, a: Action)
    requires EnabledOn(info, th, a)
    ensures var th' := StepOn(info, current, p, th, a).1;
            !AtRest(th.pc) && !AtRest(th'.pc) ==> Order(th') == Order(th)
  {
    if th.pc.Acquire? && |th.pc.todo| == 0 {
      ReachedStays(info, current, th, th.pc.goal);
      ReachedKeepsOrder(info, current, th, th.pc.goal);
    }
  }

  lemma StartObeys(st: State, p: nat, a: Action)
    requires Enabled(st, p, a) && CuckooThreadsSafety.Alone(st, p, a)
    ensures var (th, th') := (st.threads[p], Next(st, p, a).threads[p]);
            !Completes(st, p, a) && Pending(th') == Pending(th) + BegunNow(p, a, p)
  {
    hide Expands, EnabledOn, StepOn;
    if st.threads[p].pc.ExpandReady? { assert Clearing(Unlock(Load)) == Clearing(Load) && AtRest(Unlock(Load)) == AtRest(Load); }
  }

  /** A turn of a thread: it begins the call it was asked for, ends the call with
      the deed that was asked for, or goes on with it. */
  lemma TurnObeys(st: State, p: nat, a: Action)
    requires Safe(st) && Enabled(st, p, a)
    ensures st.threads[p].ti < |st.infos|
    ensures var (th, th', begun) := (st.threads[p], Next(st, p, a).threads[p], BegunNow(p, a, p));
            if Completes(st, p, a) then
              Obeys(EventOf(st, p, a).deed, Order(th)) && Pending(th) == [Order(th)] && Pending(th') == [] && begun == []
            else Pending(th') == Pending(th) + begun
  {
    var th := st.threads[p];
    assert ThreadOk(st, p);
    if CuckooThreadsSafety.Alone(st, p, a) {
      StartObeys(st, p, a);
    } else {
      hide Safe, StepOn, Reached;
      CallStays(st, p, a);
      StepKeepsOrder(st.infos[th.ti], th.ti == st.cur, p, th, a);
    }
  }

  /** What a turn means for thread q: an event it was asked for, or one call
      more or none. */
  lemma TurnOfAny(st: State, p: nat, a: Action, q: nat)
    requires Safe(st) && Enabled(st, p, a) && q < |st.threads| && st.threads[p].ti < |st.infos|
    ensures q < |Next(st, p, a).threads|
    ensures var (now, pending, later) := (Own(EventsOf(st, p, a), q), Pending(st.threads[q]), Pending(Next(st, p, a).threads[q]));
            if now == [] then later == pending + BegunNow(p, a, q)
            else |now| == 1 && |pending| == 1 && Obeys(now[0].deed, pending[0]) && later == [] && BegunNow(p, a, q) == []
  {
    OwnNow(st, p, a, q);
    OthersStay(st, p, a, q);
    if q == p {
      TurnObeys(st, p, a);
      hide Safe, Enabled, Next, Pending, Obeys, Own, EventOf, Completes;
    } else {
      hide Safe, Enabled, Next, Pending, Obeys, Own, EventsOf;
    }
  }

  lemma OthersStay(st: State, p: nat, a: Action, q: nat)
    requires Enabled(st, p, a) && q < |st.threads|
    ensures |Next(st, p, a).threads| == |st.threads| && (q != p ==> Next(st, p, a).threads[q] == st.threads[q])
  {
    hide Expands, EnabledOn, StepOn;
  }

  lemma OwnNow(st: State, p: nat, a: Action, q: nat)
    requires p < |st.threads| && st.threads[p].ti < |st.infos|
    ensures Own(EventsOf(st, p, a), q) == if q == p then EventsOf(st, p, a) else []
  {
    hide Completes;
  }

  /** The operation that takes effect in a turn, if any. */
  function EventsOf(st: State, p: nat, a: Action): seq<Event>
    requires p < |st.threads| && st.threads[p].ti < |st.infos|
  {
    if Completes(st, p, a) then [EventOf(st, p, a)] else []
  }

  lemma HistoryStarts(st: State, run: Run, q: nat)
    requires Inv(st) && IsRun(st, run) && run != []
    ensures var (p, a) := run[0];
            && Inv(Next(st, p, a)) && p < |st.threads| && st.threads[p].ti < |st.infos|
            && Own(History(st, run), q) == Own(EventsOf(st, p, a), q) + Own(History(Next(st, p, a), run[1..]), q)
  {
    var (p, a) := run[0];
    NextKeepsInv(st, p, a);
    assert ThreadOk(st, p);
    hide Safe, Accounted, Completes, EventOf, Next, Enabled;
    var later := History(Next(st, p, a), run[1..]);
    if Completes(st, p, a) {
      OwnOfMore(EventOf(st, p, a), later, q);
    } else {
      assert History(st, run) == later;
    }
  }

  /** Events obey the first of these orders, one by one; the others are left. */
  ghost predicate Follow(es: seq<Event>, orders: seq<Action>, left: seq<Action>) {
    && |es| <= |orders| && orders[|es|..] == left
    && forall i | 0 <= i < |es| :: Obeys(es[i].deed, orders[i])
  }

  lemma FollowOne(e: Event, es: seq<Event>, o: Action, orders: seq<Action>, left: seq<Action>)
    requires Follow(es, orders, left) && Obeys(e.deed, o)
    ensures Follow([e] + es, [o] + orders, left)
  {
    assert ([o] + orders)[|[e] + es|..] == orders[|es|..];
    forall i | 0 <= i < |[e] + es| ensures Obeys(([e] + es)[i].deed, ([o] + orders)[i]) {
      if i > 0 { assert Obeys(es[i - 1].deed, orders[i - 1]); }
    }
  }

  lemma FollowMore(now: seq<Event>, es: seq<Event>, pending: seq<Action>, begun: seq<Action>, later: seq<Action>,
                   rest: seq<Action>, left: seq<Action>)
    requires Follow(es, later + rest, left)
    requires if now == [] then later == pending + begun
             else |now| == 1 && |pending| == 1 && Obeys(now[0].deed, pending[0]) && later == [] && begun == []
    ensures Follow(now + es, pending + (begun + rest), left)
  {
    hide Follow, Obeys;
    if now == [] {
      assert now + es == es && pending + (begun + rest) == later + rest;
    } else {
      FollowOne(now[0], es, pending[0], later + rest, left);
      assert [now[0]] == now && [pending[0]] + (later + rest) == pending + (begun + rest);
    }
  }

  /** The events of a thread obey the call it was in and those it has made, one
      by one in order; at the end only the call it is in is left. */
  lemma {:induction false} EventsObeyFrom(st: State, run: Run, q: nat)
    requires Inv(st) && IsRun(st, run) && q < |st.threads|
    ensures q < |EndOf(st, run).threads|
    ensures Follow(Own(History(st, run), q), Pending(st.threads[q]) + Begun(run, q), Pending(EndOf(st, run).threads[q]))
    decreases |run|
  {
    hide Completes, EventOf, EventsOf, BegunNow, Pending, Obeys, Follow, Next, Enabled, History, Own, Safe, Accounted;
    if run == [] {
      EmptyRun(st, q);
    } else {
      var (p, a) := run[0];
      var st' := Next(st, p, a);
      HistoryStarts(st, run, q);
      TurnOfAny(st, p, a, q);
      EventsObeyFrom(st', run[1..], q);
      FollowMore(Own(EventsOf(st, p, a), q), Own(History(st', run[1..]), q), Pending(st.threads[q]), BegunNow(p, a, q),
                 Pending(st'.threads[q]), Begun(run[1..], q), Pending(EndOf(st', run[1..]).threads[q]));
    }
  }

  lemma EmptyRun(st: State, q: nat)
    requires Inv(st) && q < |st.threads|
    ensures Follow(Own(History(st, []), q), Pending(st.threads[q]) + Begun([], q), Pending(st.threads[q]))
  {
  }

  /** The events of a thread that starts at rest are its calls: event i is the
      operation, with the arguments, that it called as its i-th, a clear exactly
      where it called clear; no call is left out, but perhaps the last one. */
  lemma EventsAreCalls(st: State, run: Run, q: nat)
    requires Inv(st) && IsRun(st, run) && q < |st.threads| && AtRest(st.threads[q].pc)
    ensures q < |EndOf(st, run).threads|
    ensures var (own, calls) := (Own(History(st, run), q), Begun(run, q));
            && |own| <= |calls| <= |own| + 1
            && (|own| == |calls| <==> AtRest(EndOf(st, run).threads[q].pc))
            && forall i | 0 <= i < |own| :: Obeys(own[i].deed, calls[i])
  {
    EventsObeyFrom(st, run, q);
    assert Pending(st.threads[q]) + Begun(run, q) == Begun(run, q);
  }

  // ---- a call that is left alone -------------------------------------------

  /** A key that is stored or for which a home bucket has room. */
  ghost predicate HasPlace(g: Geometry, t: Table, k: Key)
    requires Shaped(g, t)
  {
    !NotAtHome(g, t, k) || !CuckooSearch.Full(t, g.First(k)) || !CuckooSearch.Full(t, g.Second(k))
  }

  ghost predicate AreFree(info: Info, ls: seq<nat>) {
    forall i | 0 <= i < |ls| :: ls[i] < |info.locks| && info.locks[ls[i]] == Nobody
  }

  /** Nobody else holds a lock. */
  ghost predicate OnlyOwn(info: Info, held: set<nat>) {
    forall l: nat | l < LOCKS && l < |info.locks| && l !in held :: info.locks[l] == Nobody
  }

  /** The moves of a path from position d to its start all succeed. */
  ghost predicate CanFollow(info: Info, path: seq<CuckooRecord>, d: nat) {
    && Shaped(info.g, info.t) && AllInTable(info.g, path) && d < |path|
    && if d == 0 then !IsTaken(info.t, path[0]) else ReplayFrom(info.g, info.t, path, d).1
  }

  ghost predicate InsertHasPlace(info: Info, job: Job)
    requires Shaped(info.g, info.t)
  {
    job.Insert? ==> HasPlace(info.g, info.t, job.key)
  }

  /** A thread can get the locks it wants and do what it wants them for. */
  ghost predicate GoalInReach(info: Info, th: ThreadState, todo: seq<nat>, goal: Goal)
    requires Shaped(info.g, info.t)
  {
    match goal
    case TwoLocked => AreFree(info, todo) && InsertHasPlace(info, th.job)
    case PathLocked(path, d) => OnlyOwn(info, th.held) && CanFollow(info, path, d)
    case AllLocked(n) => AreFree(info, todo) && n > info.g.hp
    case ClearLocked => AreFree(info, todo)
    case LookLocked(_) => false
  }

  /** Nobody is in the way of a thread at work on the current table. */
  ghost predicate FreeToWork(info: Info, th: ThreadState)
    requires Shaped(info.g, info.t)
  {
    match th.pc
    case Acquire(todo, goal) => GoalInReach(info, th, todo, goal)
    case Ready => InsertHasPlace(info, th.job)
    case Unlock(next) => next.Idle? || (next.Acquire? && next.goal.PathLocked? && GoalInReach(info, th, next.todo, next.goal))
    case _ => th.pc.Idle? || th.pc.Freed? || th.pc.InsertReady? || th.pc.ExpandReady? || th.pc.ClearReady?
  }

  /** The same for a thread that has yet to load the table: the locks it is going
      to take are free, and what it is going to insert has a place. */
  ghost predicate Unhindered(st: State, p: nat)
    requires Safe(st) && p < |st.threads|
  {
    var (th, info) := (st.threads[p], st.infos[st.cur]);
    assert InfoOk(info);
    match th.pc
    case Load => AreFree(info, LockTwo(info.g.First(th.job.key), info.g.Second(th.job.key))) && InsertHasPlace(info, th.job)
    case Full(n) => AreFree(info, LockAll()) && n > info.g.hp
    case ClearLoad => AreFree(info, LockAll())
    case _ => (th.pc.Idle? || th.ti == st.cur) && FreeToWork(info, th)
  }

  /** The turns for the moves that remain. */
  function MovesLeft(goal: Goal): nat {
    if goal.PathLocked? then 12 * goal.depth + 1 else 0
  }

  /** How many turns its call needs at most, or the way to its expansion. */
  function TurnsLeft(th: ThreadState): nat {
    match th.pc
    case Idle => 0
    case ExpandReady(_) => 0
    case Unlock(next) => |th.held| + 1 + if next.Acquire? then 2 * |next.todo| + 3 + MovesLeft(next.goal) else 0
    case Acquire(todo, goal) => 2 * |todo| + |th.held| + 3 + MovesLeft(goal)
    case Load => 8
    case Freed(_, _) => |th.held| + 3
    case Full(_) => 2 * LOCKS + 4
    case ClearLoad => 2 * LOCKS + 4
    case _ => |th.held| + 2
  }

  lemma LocksInAll()
    ensures |LockAll()| == LOCKS
  {
  }

  lemma TakeAlone(info: Info, p: nat, th: ThreadState, a: Action)
    requires Shaped(info.g, info.t) && |info.locks| == LOCKS && PcOk(info, true, th) && EnabledOn(info, th, a) && FreeToWork(info, th)
    requires th.pc.Acquire? && |th.pc.todo| > 0
    ensures var (info', th') := StepOn(info, true, p, th, a);
            Shaped(info'.g, info'.t) && FreeToWork(info', th') && TurnsLeft(th') < TurnsLeft(th)
  {
    hide Unique, GoalOk, HasPlace, CanFollow, MovesLeft;
    var todo := th.pc.todo;
    var info' := info.(locks := info.locks[todo[0] := Thread(p)]);
    assert info'.g == info.g && info'.t == info.t;
    assert InsertHasPlace(info', th.job) == InsertHasPlace(info, th.job);
    if th.pc.goal.PathLocked? {
      SameFollow(info, info', th.pc.goal.path, th.pc.goal.depth);
    } else {
      forall i | 0 <= i < |todo[1..]| ensures todo[1..][i] < LOCKS && info'.locks[todo[1..][i]] == Nobody {
        assert todo[0] < todo[i + 1] == todo[1..][i];
      }
    }
  }

  lemma SameFollow(info: Info, info': Info, path: seq<CuckooRecord>, d: nat)
    requires info'.g == info.g && info'.t == info.t
    ensures CanFollow(info', path, d) == CanFollow(info, path, d)
  {
  }

  lemma ReachAlone(info: Info, p: nat, th: ThreadState, a: Action)
    requires Shaped(info.g, info.t) && |info.locks| == LOCKS && EnabledOn(info, th, a) && FreeToWork(info, th)
    requires th.pc.Acquire? && th.pc.todo == [] && !th.pc.goal.PathLocked?
    ensures var (info', th') := StepOn(info, true, p, th, a);
            info' == info && FreeToWork(info', th') && TurnsLeft(th') < TurnsLeft(th)
  {
  }

  lemma FewMoveLocks(g: Geometry, k: Key, path: seq<CuckooRecord>, d: nat)
    requires d < |path|
    ensures |MoveLocks(g, k, path, d)| <= 3
  {
  }

  lemma FollowOneMove(info: Info, path: seq<CuckooRecord>, d: nat)
    requires CanFollow(info, path, d)
    ensures d == 0 ==> !IsTaken(info.t, path[0])
    ensures d > 0 ==> CanSwap(info.g, info.t, path, d)
    ensures d > 1 ==> CanFollow(info.(t := Swap(info.g, info.t, path, d)), path, d - 1)
  {
  }

  lemma NextMoveAlone(info: Info, p: nat, th: ThreadState, a: Action)
    requires Shaped(info.g, info.t) && |info.locks| == LOCKS && EnabledOn(info, th, a) && FreeToWork(info, th)
    requires th.pc.Acquire? && th.pc.todo == [] && th.pc.goal.PathLocked? && th.pc.goal.depth > 1
    ensures var (info', th') := StepOn(info, true, p, th, a);
            Shaped(info'.g, info'.t) && FreeToWork(info', th') && TurnsLeft(th') < TurnsLeft(th)
  {
    var PathLocked(path, d) := th.pc.goal;
    FollowOneMove(info, path, d);
    FewMoveLocks(info.g, th.job.key, path, d - 1);
    hide Unique, Homed, GoalOk, IsTaken, MoveLocks, ReplayFrom, CanSwap, LastSwapped;
  }

  lemma FreeStartAlone(info: Info, p: nat, th: ThreadState, a: Action)
    requires Shaped(info.g, info.t) && |info.locks| == LOCKS && EnabledOn(info, th, a) && FreeToWork(info, th)
    requires th.pc.Acquire? && th.pc.todo == [] && th.pc.goal.PathLocked? && th.pc.goal.depth == 0
    ensures var (info', th') := StepOn(info, true, p, th, a);
            Shaped(info'.g, info'.t) && FreeToWork(info', th') && TurnsLeft(th') < TurnsLeft(th)
  {
    FollowOneMove(info, th.pc.goal.path, th.pc.goal.depth);
    hide Unique, Homed, GoalOk, IsTaken, MoveLocks, ReplayFrom, CanSwap, Swap, LastSwapped, CanFollow, OnlyOwn;
  }

  lemma LastMoveAlone(info: Info, p: nat, th: ThreadState, a: Action)
    requires Shaped(info.g, info.t) && |info.locks| == LOCKS && EnabledOn(info, th, a) && FreeToWork(info, th)
    requires th.pc.Acquire? && th.pc.todo == [] && th.pc.goal.PathLocked? && th.pc.goal.depth == 1
    ensures var (info', th') := StepOn(info, true, p, th, a);
            Shaped(info'.g, info'.t) && FreeToWork(info', th') && TurnsLeft(th') < TurnsLeft(th)
  {
    FollowOneMove(info, th.pc.goal.path, th.pc.goal.depth);
    hide Unique, Homed, GoalOk, IsTaken, MoveLocks, ReplayFrom, CanSwap, CanFollow, OnlyOwn, OtherOf, LockTwo, LockThree;
  }

  /** One move of a path that can be followed. */
  lemma MoveAlone(info: Info, p: nat, th: ThreadState, a: Action)
    requires Shaped(info.g, info.t) && |info.locks| == LOCKS && EnabledOn(info, th, a) && FreeToWork(info, th)
    requires th.pc.Acquire? && th.pc.todo == [] && th.pc.goal.PathLocked?
    ensures var (info', th') := StepOn(info, true, p, th, a);
            Shaped(info'.g, info'.t) && FreeToWork(info', th') && TurnsLeft(th') < TurnsLeft(th)
  {
    hide EnabledOn, FreeToWork, StepOn, TurnsLeft, Shaped;
    if th.pc.goal.depth == 0 {
      FreeStartAlone(info, p, th, a);
    } else if th.pc.goal.depth == 1 {
      LastMoveAlone(info, p, th, a);
    } else {
      NextMoveAlone(info, p, th, a);
    }
  }

  lemma WorkDone(info: Info, p: nat, th: ThreadState, a: Action)
    requires Shaped(info.g, info.t) && |info.locks| == LOCKS && EnabledOn(info, th, a) && FreeToWork(info, th)
    requires th.pc.Ready? || th.pc.ClearReady? || th.pc.InsertReady? || th.pc.Freed?
    ensures var th' := StepOn(info, true, p, th, a).1;
            && th'.held == th.held
            && (if th.pc.Freed? then th'.pc.InsertReady? else th'.pc == Unlock(Idle))
  {
  }

  lemma DropAlone(info: Info, p: nat, th: ThreadState, a: Action)
    requires Shaped(info.g, info.t) && |info.locks| == LOCKS && EnabledOn(info, th, a) && FreeToWork(info, th) && th.pc.Unlock?
    ensures var (info', th') := StepOn(info, true, p, th, a);
            Shaped(info'.g, info'.t) && FreeToWork(info', th') && TurnsLeft(th') < TurnsLeft(th)
  {
    hide Unique, GoalOk, HasPlace, CanFollow, MovesLeft;
    var info' := StepOn(info, true, p, th, a).0;
    if th.pc.next.Acquire? && th.pc.next.goal.PathLocked? {
      SameFollow(info, info', th.pc.next.goal.path, th.pc.next.goal.depth);
    }
  }

  /** A turn on the table brings the thread nearer to the end. */
  lemma StepAlone(info: Info, p: nat, th: ThreadState, a: Action)
    requires InfoOk(info) && PcOk(info, true, th) && EnabledOn(info, th, a) && FreeToWork(info, th)
    requires InfoOk(StepOn(info, true, p, th, a).0)
    ensures var (info', th') := StepOn(info, true, p, th, a); FreeToWork(info', th') && TurnsLeft(th') < TurnsLeft(th)
  {
    if th.pc.Acquire? && |th.pc.todo| > 0 {
      TakeAlone(info, p, th, a);
    } else if th.pc.Acquire? && th.pc.goal.PathLocked? {
      MoveAlone(info, p, th, a);
    } else if th.pc.Acquire? {
      ReachAlone(info, p, th, a);
    } else if th.pc.Unlock? {
      DropAlone(info, p, th, a);
    } else {
      WorkDone(info, p, th, a);
    }
  }

  /** A thread on the table stays with it. */
  lemma StepStaysOn(info: Info, p: nat, th: ThreadState, a: Action)
    requires EnabledOn(info, th, a) && InfoOk(info) && FreeToWork(info, th)
    ensures var th' := StepOn(info, true, p, th, a).1; th'.ti == th.ti && !th'.pc.Load? && !th'.pc.ClearLoad? && !th'.pc.Full?
  {
  }

  lemma LoadAlone(st: State, p: nat, a: Action)
    requires Safe(st) && Enabled(st, p, a) && Unhindered(st, p)
    requires st.threads[p].pc.Load? || st.threads[p].pc.ClearLoad? || st.threads[p].pc.Full?
    ensures Safe(Next(st, p, a)) && |Next(st, p, a).threads| == |st.threads|
    ensures Unhindered(Next(st, p, a), p) && TurnsLeft(Next(st, p, a).threads[p]) < TurnsLeft(st.threads[p])
  {
    NextKeepsSafe(st, p, a);
    hide OwnsLocks, OwnersExist, Ok, HasPlace, AreFree;
    assert ThreadOk(st, p) && InfoOk(st.infos[st.cur]);
    LocksInAll();
  }

  lemma WorkAlone(st: State, p: nat, a: Action)
    requires Safe(st) && Enabled(st, p, a) && Unhindered(st, p) && Safe(Next(st, p, a))
    requires !CuckooThreadsSafety.Alone(st, p, a)
    ensures |Next(st, p, a).threads| == |st.threads|
    ensures Unhindered(Next(st, p, a), p) && TurnsLeft(Next(st, p, a).threads[p]) < TurnsLeft(st.threads[p])
  {
    hide OwnsLocks, OwnersExist, StepOn, PcOk, Ok, EnabledOn, FreeToWork, TurnsLeft, Expands;
    var (th, info, st') := (st.threads[p], st.infos[st.cur], Next(st, p, a));
    assert ThreadOk(st, p) && InfoOk(info) && st'.cur == st.cur && InfoOk(st'.infos[st.cur]);
    StepAlone(info, p, th, a);
    StepStaysOn(info, p, th, a);
  }

  /** Each of its own turns brings it nearer to the end. */
  lemma UnhinderedTurn(st: State, p: nat, a: Action)
    requires Safe(st) && Enabled(st, p, a) && Unhindered(st, p)
    requires !st.threads[p].pc.Idle? && !st.threads[p].pc.ExpandReady?
    ensures Safe(Next(st, p, a)) && |Next(st, p, a).threads| == |st.threads|
    ensures Unhindered(Next(st, p, a), p) && TurnsLeft(Next(st, p, a).threads[p]) < TurnsLeft(st.threads[p])
  {
    if st.threads[p].pc.Load? || st.threads[p].pc.ClearLoad? || st.threads[p].pc.Full? {
      LoadAlone(st, p, a);
    } else {
      NextKeepsSafe(st, p, a);
      WorkAlone(st, p, a);
    }
  }

  /** It waits for nobody. */
  lemma UnhinderedGoes(st: State, p: nat) returns (a: Action)
    requires Safe(st) && p < |st.threads| && Unhindered(st, p) && !st.threads[p].pc.ExpandReady?
    ensures Enabled(st, p, a)
  {
    assert ThreadOk(st, p) && InfoOk(st.infos[st.cur]);
    a := NotWaitingCanGo(st, p);
  }

  /** Its call is over, or it has the table to itself and installs a larger one. */
  predicate Through(pc: Pc) {
    pc.Idle? || pc.ExpandReady?
  }

  lemma GoesOn(st: State, p: nat, a: Action)
    requires Enabled(st, p, a) && !a.Begin? && !a.BeginClear? && !a.Install?
    ensures !Through(st.threads[p].pc)
  {
  }

  /** A thread that nobody interrupts gets through within TurnsLeft turns and can
      always go on until then: from a call of find, erase, update or insert while
      the stripes of its key are free (8 turns; an insert needs room in a home
      bucket, or its key to be there), from a call of clear or the decision to
      expand while all stripes are free, and along a path that can be followed. */
  lemma {:induction false} AloneEnds(st: State, run: Run, p: nat) returns (a: Action)
    requires Inv(st) && IsRun(st, run) && p < |st.threads| && Unhindered(st, p)
    requires forall i | 0 <= i < |run| :: run[i].0 == p && !run[i].1.Begin? && !run[i].1.BeginClear? && !run[i].1.Install?
    ensures p < |EndOf(st, run).threads|
    ensures |run| + TurnsLeft(EndOf(st, run).threads[p]) <= TurnsLeft(st.threads[p])
    ensures Through(EndOf(st, run).threads[p].pc) || Enabled(EndOf(st, run), p, a)
    decreases |run|
  {
    hide Safe, Accounted, Unhindered, TurnsLeft, Next, Enabled;
    a := Go;
    if run == [] {
      if !Through(st.threads[p].pc) { a := UnhinderedGoes(st, p); }
    } else {
      GoesOn(st, p, run[0].1);
      UnhinderedTurn(st, p, run[0].1);
      NextKeepsInv(st, p, run[0].1);
      a := AloneEnds(Next(st, p, run[0].1), run[1..], p);
    }
  }

  /** An insertion that finds no room goes on with the path it finds, if that can
      be followed, or else expands to the next hash power. */
  lemma SearchGoesOn(st: State, p: nat, a: Action)
    requires Safe(st) && Enabled(st, p, a) && st.threads[p].pc.Search? && st.threads[p].ti == st.cur
    requires OnlyOwn(st.infos[st.cur], {})
    requires a.NoPath? || (a.Path? && CanFollow(st.infos[st.cur], a.p, |a.p| - 1))
    ensures Safe(Next(st, p, a)) && |Next(st, p, a).threads| == |st.threads| && Unhindered(Next(st, p, a), p)
    ensures a.NoPath? ==> Next(st, p, a).threads[p].pc == Full(st.infos[st.cur].g.hp + 1)
  {
    NextKeepsSafe(st, p, a);
    assert ThreadOk(st, p) && InfoOk(st.infos[st.cur]);
  }

  /** A shortest path can be followed. */
  lemma ShortestGoesOn(info: Info, p: seq<CuckooRecord>, i1: nat, i2: nat)
    requires InfoOk(info) && Shortest(info.g, info.t, i1, i2, p)
    ensures CanFollow(info, p, |p| - 1)
  {
    ShortestCanBeFollowed(info.g, info.t, i1, i2, p);
  }

  /** Installing the expanded table makes it the current one: it holds the same
      map in more buckets, and the thread starts its insertion over. */
  lemma ExpansionGrows(st: State, p: nat, a: Action)
    requires Safe(st) && Enabled(st, p, a) && st.threads[p].pc.ExpandReady?
    ensures var st' := Next(st, p, a);
            && st'.cur == |st.infos| < |st'.infos| && st'.threads[p].pc == Unlock(Load)
            && st'.infos[st'.cur].g.hp > st.infos[st.cur].g.hp && MapOf(st') == MapOf(st)
  {
    assert ThreadOk(st, p);
    InstallKeepsSafe(st, p, a);
  }
}
