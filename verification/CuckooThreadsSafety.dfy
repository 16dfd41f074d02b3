/** What every interleaving of threads on the cuckoo table keeps. */
module CuckooThreadsSafety {
  import opened Counters
  import opened CuckooTable
  import opened CuckooSearch
  import opened CuckooPath
  import opened CuckooMap
  import opened CuckooThreads

  function SetOf(ls: seq<nat>): set<nat> {
    set l | l in ls
  }

  function AllLocks(): set<nat> {
    SetOf(LockAll())
  }

  /** The locks that are complete for a goal are those its work needs. */
  ghost predicate GoalOk(g: Geometry, job: Job, goal: Goal, locks: set<nat>) {
    match goal
    case TwoLocked => locks == HomeLocks(g, job.key)
    case LookLocked(b) => job.Insert? && locks == {LockInd(b)}
    case AllLocked(n) => locks == AllLocks()
    case ClearLocked => locks == AllLocks()
    case PathLocked(p, d) =>
      && job.Insert? && PathShape(g, p, g.First(job.key), g.Second(job.key))
      && d < |p| && locks == SetOf(MoveLocks(g, job.key, p, d))
  }

  /** What holds when all locks have been given back. */
  ghost predicate RestOk(g: Geometry, job: Job, pc: Pc) {
    match pc
    case Idle => true
    case Load => true
    case Full(n) => true
    case ClearLoad => true
    case Search => job.Insert?
    case Acquire(todo, goal) => Ascending(todo) && GoalOk(g, job, goal, SetOf(todo))
    case _ => false
  }

  /** What a thread knows at its program counter. */
  ghost predicate PcOk(info: Info, current: bool, th: ThreadState) {
    var (g, t, k) := (info.g, info.t, th.job.key);
    match th.pc
    case Acquire(todo, goal) =>
      && Ascending(todo)
      && (forall h, l | h in th.held && l in todo :: h < l)
      && GoalOk(g, th.job, goal, th.held + SetOf(todo))
    case Ready => th.held == HomeLocks(g, k) && current
    case Search => th.held == {} && th.job.Insert?
    case Freed(b, s) => th.held == HomeLocks(g, k) && th.job.Insert? && g.IsHome(k, b) && FreeSlot(t, b, s)
    case InsertReady(b, s) => th.held == HomeLocks(g, k) && th.job.Insert? && g.IsHome(k, b) && FreeSlot(t, b, s) && current
    case ExpandReady(n) => th.held == AllLocks() && current && n > g.hp
    case ClearReady => th.held == AllLocks() && current
    case Unlock(next) => RestOk(g, th.job, next)
    case _ => th.held == {}
  }

  /** Thread p holds exactly these locks of a table. */
  ghost predicate OwnsLocks(info: Info, p: nat, held: set<nat>) {
    && |info.locks| == LOCKS
    && forall l: nat :: l in held <==> l < LOCKS && info.locks[l] == Thread(p)
  }

  ghost predicate InfoOk(info: Info) {
    Ok(info.g, info.t) && |info.locks| == LOCKS
  }

  // ---- one turn on one table -----------------------------------------------

  lemma NotAtHomeIsAbsent(g: Geometry, t: Table, k: Key)
    requires Ok(g, t) && NotAtHome(g, t, k)
    ensures k !in Abs(t)
  {
    if k in Abs(t) { StoredAtHome(g, t, k); }
  }

  /** What a turn of a thread does to the map of its table. */
  ghost predicate MapStep(m: map<Key, Val>, m': map<Key, Val>, th: ThreadState) {
    var job := th.job;
    || m' == m
    || (th.pc.ClearReady? && m' == map[])
    || (job.Insert? && job.key !in m && m' == m[job.key := job.val])
    || (job.Erase? && job.key in m && m' == m - {job.key})
    || (job.Update? && job.key in m && m' == m[job.key := job.val])
  }

  /** Only the holder of both home locks of its own key, or of all locks, changes
      the map. */
  ghost predicate Writes(th: ThreadState) {
    th.pc.Ready? || th.pc.InsertReady? || th.pc.ClearReady?
  }

  /** A turn changes no bucket whose stripe it does not hold. */
  ghost predicate Framed(t: Table, t': Table, held: set<nat>) {
    |t'| == |t| && forall b: nat | b < |t| && LockInd(b) !in held :: t'[b] == t[b]
  }

  ghost predicate TableStep(info: Info, info': Info, th: ThreadState) {
    && info'.g == info.g && Ok(info'.g, info'.t)
    && Framed(info.t, info'.t, th.held)
    && MapStep(Abs(info.t), Abs(info'.t), th)
    && (!Writes(th) ==> Abs(info'.t) == Abs(info.t))
  }

  lemma WorkIsTableStep(info: Info, current: bool, th: ThreadState, a: Action)
    requires InfoOk(info) && PcOk(info, current, th) && th.pc.Ready? && EnabledOn(info, th, a)
    ensures TableStep(info, WorkedInfo(info, th, a), th)
  {
    var (g, t, k) := (info.g, info.t, th.job.key);
    if a.Hit? {
      AbsAt(t, a.b, a.s);
      if th.job.Erase? { EraseAbs(g, t, a.b, a.s); }
      if th.job.Update? { UpdateAbs(g, t, a.b, a.s, th.job.val); }
    } else if a.Place? {
      NotAtHomeIsAbsent(g, t, k);
      InsertAbs(g, t, a.b, a.s, k, th.job.val);
    }
  }

  lemma InsertIsTableStep(info: Info, current: bool, p: nat, th: ThreadState, a: Action)
    requires InfoOk(info) && PcOk(info, current, th) && th.pc.InsertReady? && EnabledOn(info, th, a)
    ensures TableStep(info, StepOn(info, current, p, th, a).0, th)
  {
    var (g, t, k) := (info.g, info.t, th.job.key);
    if !a.Hit? {
      NotAtHomeIsAbsent(g, t, k);
      InsertAbs(g, t, th.pc.b, th.pc.s, k, th.job.val);
    }
  }

  lemma AllLocksListed(l: nat)
    requires l < LOCKS
    ensures l in AllLocks()
  {
    assert l in LockAll();
  }

  lemma ClearIsTableStep(info: Info, current: bool, th: ThreadState)
    requires InfoOk(info) && PcOk(info, current, th) && th.pc.ClearReady?
    ensures TableStep(info, Cleared(info), th) && Abs(Cleared(info).t) == map[]
  {
    EmptyTable(Cleared(info).t);
    forall b: nat | b < |info.t| ensures LockInd(b) in th.held { AllLocksListed(LockInd(b)); }
  }

  /** Erasing a stored key or filling a free slot with an absent key is counted
      once; nothing else changes the number of pairs. */
  lemma WorkKeepsCounters(info: Info, th: ThreadState, a: Action)
    requires InfoOk(info) && CountersOk(info) && th.counter < |info.inserts|
    requires a.Hit? ==> At(info.t, a.b, a.s, th.job.key)
    requires a.Place? ==> FreeSlot(info.t, a.b, a.s) && NotAtHome(info.g, info.t, th.job.key) && info.g.IsHome(th.job.key, a.b)
    ensures CountersOk(WorkedInfo(info, th, a)) && |WorkedInfo(info, th, a).inserts| == |info.inserts|
  {
    hide Ok, Counts, Abs, At, FreeSlot, NotAtHome;
    BumpCounts(info.inserts, info.deletes, |Abs(info.t)|, th.counter);
    if a.Hit? {
      HitSize(info, th, a);
    } else if a.Place? && th.job.Insert? {
      PlaceSize(info, th, a);
    }
  }

  /** An erase leaves one pair fewer, an update as many. */
  lemma HitSize(info: Info, th: ThreadState, a: Action)
    requires InfoOk(info) && a.Hit? && At(info.t, a.b, a.s, th.job.key)
    ensures var (n, n') := (|Abs(info.t)|, |Abs(WorkedInfo(info, th, a).t)|);
            n > 0 && n' == (if th.job.Erase? then n - 1 else n)
  {
    var (g, t, k, m) := (info.g, info.t, th.job.key, Abs(info.t));
    AbsAt(t, a.b, a.s);
    assert k in m;
    RemoveSize(m, k);
    if th.job.Erase? {
      EraseAbs(g, t, a.b, a.s);
    } else if th.job.Update? {
      UpdateAbs(g, t, a.b, a.s, th.job.val);
      ReplaceSize(m, k, th.job.val);
    }
  }

  lemma PlaceSize(info: Info, th: ThreadState, a: Action)
    requires InfoOk(info) && a.Place? && th.job.Insert?
    requires FreeSlot(info.t, a.b, a.s) && NotAtHome(info.g, info.t, th.job.key) && info.g.IsHome(th.job.key, a.b)
    ensures |Abs(WorkedInfo(info, th, a).t)| == |Abs(info.t)| + 1
  {
    hide Ok;
    var (g, t, k, m) := (info.g, info.t, th.job.key, Abs(info.t));
    NotAtHomeIsAbsent(g, t, k);
    InsertAbs(g, t, a.b, a.s, k, th.job.val);
    ReplaceSize(m, k, th.job.val);
  }

  lemma MoveLocksAre(g: Geometry, k: Key, p: seq<CuckooRecord>, d: nat)
    requires 0 < d < |p| && PathShape(g, p, g.First(k), g.Second(k))
    ensures LockInd(p[d - 1].bucket) in MoveLocks(g, k, p, d) && LockInd(p[d].bucket) in MoveLocks(g, k, p, d)
    ensures d == 1 ==> SetOf(MoveLocks(g, k, p, d)) == HomeLocks(g, k) + {LockInd(p[1].bucket)}
  {
  }

  /** A swap of any path, however stale, keeps the map. */
  lemma SwapIsTableStep(info: Info, th: ThreadState, p: seq<CuckooRecord>, d: nat)
    requires InfoOk(info) && PathShape(info.g, p, info.g.First(th.job.key), info.g.Second(th.job.key))
    requires 0 < d < |p| && AllInTable(info.g, p) && CanSwap(info.g, info.t, p, d)
    requires th.held == SetOf(MoveLocks(info.g, th.job.key, p, d))
    ensures TableStep(info, info.(t := Swap(info.g, info.t, p, d)), th)
  {
    assert Follows(info.g, p, d) && InTable(info.g, p[d - 1]) && InTable(info.g, p[d]);
    MoveAbs(info.g, info.t, p[d - 1].bucket, p[d - 1].slot, p[d].bucket, p[d].slot);
    MoveLocksAre(info.g, th.job.key, p, d);
  }

  lemma SameTableIsStep(info: Info, info': Info, th: ThreadState)
    requires InfoOk(info) && info'.g == info.g && info'.t == info.t
    ensures TableStep(info, info', th)
  {
  }

  /** Whoever has reached its locks swaps one pair of its path, or nothing. */
  lemma ReachedIsTableStep(info: Info, current: bool, th: ThreadState, goal: Goal)
    requires InfoOk(info) && GoalOk(info.g, th.job, goal, th.held)
    requires goal.PathLocked? ==> AllInTable(info.g, goal.path)
    ensures TableStep(info, Reached(info, current, th, goal).0, th)
  {
    var info' := Reached(info, current, th, goal).0;
    if goal.PathLocked? && goal.depth > 0 && CanSwap(info.g, info.t, goal.path, goal.depth) {
      SwapIsTableStep(info, th, goal.path, goal.depth);
      assert info'.t == Swap(info.g, info.t, goal.path, goal.depth);
    } else {
      SameTableIsStep(info, info', th);
    }
  }

  lemma StepIsTableStep(info: Info, current: bool, p: nat, th: ThreadState, a: Action)
    requires InfoOk(info) && PcOk(info, current, th) && EnabledOn(info, th, a)
    ensures TableStep(info, StepOn(info, current, p, th, a).0, th)
    ensures InfoOk(StepOn(info, current, p, th, a).0)
  {
    var info' := StepOn(info, current, p, th, a).0;
    assert |info'.locks| == |info.locks|;
    if th.pc.Ready? && !a.Crowded? {
      WorkIsTableStep(info, current, th, a);
    } else if th.pc.InsertReady? {
      InsertIsTableStep(info, current, p, th, a);
    } else if th.pc.ClearReady? {
      ClearIsTableStep(info, current, th);
    } else if th.pc.Acquire? && |th.pc.todo| == 0 {
      assert th.held + SetOf(th.pc.todo) == th.held;
      ReachedIsTableStep(info, current, th, th.pc.goal);
    } else {
      SameTableIsStep(info, info', th);
    }
  }

  lemma OtherStepsCountNothing(info: Info, current: bool, p: nat, th: ThreadState, a: Action)
    requires EnabledOn(info, th, a) && !Writes(th)
    ensures var info' := StepOn(info, current, p, th, a).0;
            info'.inserts == info.inserts && info'.deletes == info.deletes
  {
  }

  lemma ClearKeepsCounters(info: Info, current: bool, th: ThreadState)
    requires InfoOk(info) && CountersOk(info) && PcOk(info, current, th) && th.pc.ClearReady?
    ensures CountersOk(Cleared(info))
  {
    ClearIsTableStep(info, current, th);
    ResetCounts(Cleared(info).inserts, Cleared(info).deletes);
  }

  /** Every turn keeps the counters in agreement with the contents. */
  lemma StepKeepsCounters(info: Info, current: bool, p: nat, th: ThreadState, a: Action)
    requires InfoOk(info) && CountersOk(info) && th.counter < |info.inserts|
    requires PcOk(info, current, th) && EnabledOn(info, th, a)
    ensures var info' := StepOn(info, current, p, th, a).0;
            CountersOk(info') && |info'.inserts| == |info.inserts|
  {
    hide CountersOk;
    if th.pc.Ready? {
      if !a.Crowded? { WorkKeepsCounters(info, th, a); }
    } else if th.pc.InsertReady? {
      if !a.Hit? { WorkKeepsCounters(info, th, Place(th.pc.b, th.pc.s)); }
    } else if th.pc.ClearReady? {
      ClearKeepsCounters(info, current, th);
    } else {
      StepIsTableStep(info, current, p, th, a);
      OtherStepsCountNothing(info, current, p, th, a);
      SameCounters(info, StepOn(info, current, p, th, a).0);
    }
  }

  lemma SameCounters(info: Info, info': Info)
    requires CountersOk(info) && info'.inserts == info.inserts && info'.deletes == info.deletes && Abs(info'.t) == Abs(info.t)
    ensures CountersOk(info')
  {
  }

  lemma AcquireKeepsPc(info: Info, current: bool, p: nat, th: ThreadState, todo: seq<nat>, goal: Goal)
    requires PcOk(info, current, th) && th.pc == Acquire(todo, goal) && |todo| > 0 && todo[0] < |info.locks|
    ensures PcOk(info.(locks := info.locks[todo[0] := Thread(p)]), current,
                 th.(pc := Acquire(todo[1..], goal), held := th.held + {todo[0]}))
  {
    hide GoalOk, MoveLocks, FreeSlot;
    assert th.held + {todo[0]} + SetOf(todo[1..]) == th.held + SetOf(todo) by {
      assert todo == [todo[0]] + todo[1..];
    }
    assert Ascending(todo[1..]);
    forall l | l in todo[1..] ensures todo[0] < l {
      var i :| 0 <= i < |todo[1..]| && todo[1..][i] == l;
      assert todo[i + 1] == l;
    }
  }

  /** A thread before one swap of its path, with the locks for it. */
  ghost predicate AtSwap(info: Info, th: ThreadState, path: seq<CuckooRecord>, d: nat) {
    var (g, k) := (info.g, th.job.key);
    && InfoOk(info) && th.job.Insert?
    && PathShape(g, path, g.First(k), g.Second(k)) && AllInTable(g, path)
    && d < |path| && th.held == SetOf(MoveLocks(g, k, path, d))
  }

  /** With a path of length 0 the free slot is in a home bucket already. */
  lemma FirstKeepsPc(info: Info, current: bool, th: ThreadState, path: seq<CuckooRecord>)
    requires AtSwap(info, th, path, 0)
    ensures PcOk(info, current, Reached(info, current, th, PathLocked(path, 0)).1)
  {
    assert InTable(info.g, path[0]);
    if !IsTaken(info.t, path[0]) {
      assert info.g.IsHome(th.job.key, path[0].bucket);
      assert th.held == HomeLocks(info.g, th.job.key);
    }
  }

  /** After the last swap exactly the locks of the two home buckets are held,
      even where stripes collide. */
  lemma LastKeepsPc(info: Info, current: bool, th: ThreadState, path: seq<CuckooRecord>)
    requires AtSwap(info, th, path, 1) && IsFree(info.t, path[0])
    ensures var (info', th') := LastSwapped(info, th, path);
            PcOk(info', current, th') && th'.held == HomeLocks(info.g, th.job.key)
  {
    MoveLocksAre(info.g, th.job.key, path, 1);
    var tl := LockInd(path[1].bucket);
    var home := HomeLocks(info.g, th.job.key);
    assert th.held == home + {tl};
    assert info.g.IsHome(th.job.key, path[0].bucket);
    if tl in home {
      assert th.held == home;
    } else {
      assert th.held - {tl} == home;
    }
  }

  /** What the next swap of the path will need. */
  lemma NextSwapIsAhead(g: Geometry, job: Job, path: seq<CuckooRecord>, d: nat)
    requires job.Insert? && PathShape(g, path, g.First(job.key), g.Second(job.key)) && d < |path|
    ensures RestOk(g, job, Acquire(MoveLocks(g, job.key, path, d), PathLocked(path, d)))
  {
  }

  lemma LastSwapKeepsPc(info: Info, current: bool, th: ThreadState, path: seq<CuckooRecord>)
    requires AtSwap(info, th, path, 1) && CanSwap(info.g, info.t, path, 1)
    ensures var (info', th') := LastSwapped(info.(t := Swap(info.g, info.t, path, 1)), th, path); PcOk(info', current, th')
  {
    var info' := info.(t := Swap(info.g, info.t, path, 1));
    assert IsFree(info'.t, path[0]);
    assert InfoOk(info') by { SwapIsTableStep(info, th, path, 1); }
    LastKeepsPc(info', current, th, path);
  }

  lemma SwapKeepsPc(info: Info, current: bool, th: ThreadState, path: seq<CuckooRecord>, d: nat)
    requires AtSwap(info, th, path, d) && d > 0 && CanSwap(info.g, info.t, path, d)
    ensures var (info', th') := Reached(info, current, th, PathLocked(path, d)); PcOk(info', current, th')
  {
    hide Ok, Swap, LockTwo, LockThree;
    if d == 1 {
      LastSwapKeepsPc(info, current, th, path);
    } else {
      NextSwapIsAhead(info.g, th.job, path, d - 1);
    }
  }

  lemma ReachedKeepsPc(info: Info, current: bool, th: ThreadState, goal: Goal)
    requires InfoOk(info) && GoalOk(info.g, th.job, goal, th.held)
    requires goal.PathLocked? ==> AllInTable(info.g, goal.path)
    ensures var (info', th') := Reached(info, current, th, goal); PcOk(info', current, th')
  {
    if goal.PathLocked? {
      if goal.depth == 0 {
        FirstKeepsPc(info, current, th, goal.path);
      } else if CanSwap(info.g, info.t, goal.path, goal.depth) {
        SwapKeepsPc(info, current, th, goal.path, goal.depth);
      }
    }
  }

  lemma SearchKeepsPc(info: Info, current: bool, p: nat, th: ThreadState, a: Action)
    requires PcOk(info, current, th) && th.pc.Search? && EnabledOn(info, th, a)
    ensures PcOk(info, current, StepOn(info, current, p, th, a).1)
  {
    if a.Path? {
      var ls := MoveLocks(info.g, th.job.key, a.p, |a.p| - 1);
      assert {} + SetOf(ls) == SetOf(ls);
    }
  }

  lemma UnlockKeepsPc(info: Info, current: bool, p: nat, th: ThreadState, a: Action)
    requires PcOk(info, current, th) && th.pc.Unlock? && EnabledOn(info, th, a)
    ensures var (info', th') := StepOn(info, current, p, th, a); PcOk(info', current, th')
  {
    hide GoalOk;
    var next := th.pc.next;
    if th.held == {} && next.Acquire? { assert {} + SetOf(next.todo) == SetOf(next.todo); }
  }

  lemma StepKeepsPc(info: Info, current: bool, p: nat, th: ThreadState, a: Action)
    requires InfoOk(info) && PcOk(info, current, th) && EnabledOn(info, th, a)
    ensures var (info', th') := StepOn(info, current, p, th, a); PcOk(info', current, th')
  {
    hide Ok, Reached, WorkedInfo, LockTwo, LockThree, GoalOk;
    match th.pc
    case Acquire(todo, goal) =>
      if |todo| > 0 {
        AcquireKeepsPc(info, current, p, th, todo, goal);
      } else {
        assert th.held + SetOf(todo) == th.held;
        ReachedKeepsPc(info, current, th, goal);
      }
    case Search => SearchKeepsPc(info, current, p, th, a);
    case Unlock(next) => UnlockKeepsPc(info, current, p, th, a);
    case _ =>
  }

  /** Locks change hands only between nobody and thread p. */
  ghost predicate LockStep(info: Info, info': Info, p: nat, th': ThreadState) {
    && OwnsLocks(info', p, th'.held)
    && forall q, held | q != p && OwnsLocks(info, q, held) :: OwnsLocks(info', q, held)
  }

  lemma AcquireIsLockStep(info: Info, p: nat, th: ThreadState, l: nat, pc: Pc)
    requires OwnsLocks(info, p, th.held) && l < LOCKS && |info.locks| == LOCKS && info.locks[l] == Nobody
    ensures LockStep(info, info.(locks := info.locks[l := Thread(p)]), p, th.(pc := pc, held := th.held + {l}))
  {
  }

  lemma ReleaseIsLockStep(info: Info, p: nat, th: ThreadState, l: nat, pc: Pc)
    requires OwnsLocks(info, p, th.held) && l < LOCKS && |info.locks| == LOCKS && l in th.held
    ensures LockStep(info, info.(locks := info.locks[l := Nobody]), p, th.(pc := pc, held := th.held - {l}))
  {
  }

  lemma ReachedIsLockStep(info: Info, current: bool, p: nat, th: ThreadState, goal: Goal)
    requires InfoOk(info) && OwnsLocks(info, p, th.held) && GoalOk(info.g, th.job, goal, th.held)
    requires goal.PathLocked? ==> AllInTable(info.g, goal.path)
    ensures var (info', th') := Reached(info, current, th, goal);
            LockStep(info, info', p, th') && th'.ti == th.ti && th'.job == th.job
  {
    hide Swap, IsTaken;
    if goal.PathLocked? && goal.depth == 1 && CanSwap(info.g, info.t, goal.path, 1) {
      MoveLocksAre(info.g, th.job.key, goal.path, 1);
      var tl := LockInd(goal.path[1].bucket);
      var info' := info.(t := Swap(info.g, info.t, goal.path, 1));
      ReleaseIsLockStep(info', p, th, tl, Freed(goal.path[0].bucket, goal.path[0].slot));
    }
  }

  lemma StepIsLockStep(info: Info, current: bool, p: nat, th: ThreadState, a: Action)
    requires InfoOk(info) && PcOk(info, current, th) && EnabledOn(info, th, a) && OwnsLocks(info, p, th.held)
    ensures var (info', th') := StepOn(info, current, p, th, a);
            LockStep(info, info', p, th') && th'.ti == th.ti && th'.job == th.job
  {
    match th.pc
    case Acquire(todo, goal) =>
      if |todo| > 0 {
        AcquireIsLockStep(info, p, th, todo[0], Acquire(todo[1..], goal));
      } else {
        assert th.held + SetOf(todo) == th.held;
        ReachedIsLockStep(info, current, p, th, goal);
      }
    case Unlock(next) =>
      if th.held != {} { ReleaseIsLockStep(info, p, th, a.l, th.pc); }
    case _ =>
  }

  /** A turn of one thread leaves alone what the others know. */
  lemma OthersKeepPc(info: Info, info': Info, current: bool, p: nat, th: ThreadState, q: nat, other: ThreadState)
    requires InfoOk(info) && InfoOk(info') && TableStep(info, info', th) && p != q
    requires OwnsLocks(info, p, th.held) && OwnsLocks(info, q, other.held) && PcOk(info, current, other)
    ensures PcOk(info', current, other)
  {
    if other.pc.Freed? || other.pc.InsertReady? {
      var b := other.pc.b;
      assert LockInd(b) in other.held;
      assert LockInd(b) !in th.held;
      assert info'.t[b] == info.t[b];
    }
  }

  // ---- all threads ---------------------------------------------------------

  function HeldOn(th: ThreadState, v: nat): set<nat> {
    if th.ti == v then th.held else {}
  }

  ghost predicate ThreadOk(st: State, q: nat)
    requires q < |st.threads|
  {
    var th := st.threads[q];
    th.ti < |st.infos| && PcOk(st.infos[th.ti], th.ti == st.cur, th)
  }

  /** What every run keeps: all tables ever installed are well formed, every
      thread is where its locks allow it to be, and its record of the locks it
      holds is exact. */
  ghost predicate Safe(st: State) {
    && st.cur < |st.infos|
    && (forall v | 0 <= v < |st.infos| :: InfoOk(st.infos[v]))
    && (forall q | 0 <= q < |st.threads| :: ThreadOk(st, q))
    && (forall v, q | 0 <= v < |st.infos| && 0 <= q < |st.threads| :: OwnsLocks(st.infos[v], q, HeldOn(st.threads[q], v)))
    && (forall v | 0 <= v < |st.infos| :: OwnersExist(st.infos[v], |st.threads|))
  }

  ghost predicate OwnersExist(info: Info, n: nat) {
    forall l | 0 <= l < |info.locks| && info.locks[l].Thread? :: info.locks[l].id < n
  }

  ghost predicate Alone(st: State, p: nat, a: Action)
    requires Enabled(st, p, a)
  {
    var th := st.threads[p];
    th.pc.Idle? || th.pc.Load? || th.pc.Full? || th.pc.ClearLoad? || th.pc.ExpandReady?
  }

  lemma StartKeepsPc(st: State, p: nat, a: Action)
    requires Safe(st) && Enabled(st, p, a) && Alone(st, p, a) && !st.threads[p].pc.ExpandReady?
    ensures ThreadOk(Next(st, p, a), p) && Next(st, p, a).infos == st.infos && Next(st, p, a).cur == st.cur
    ensures st.threads[p].held == Next(st, p, a).threads[p].held == {}
  {
    var th := st.threads[p];
    assert ThreadOk(st, p) && th.held == {};
    match th.pc {
      case Load =>
        var g := st.infos[st.cur].g;
        var locks := LockTwo(g.First(th.job.key), g.Second(th.job.key));
        assert {} + SetOf(locks) == SetOf(locks);
      case Full(n) => assert {} + SetOf(LockAll()) == SetOf(LockAll());
      case ClearLoad => assert {} + SetOf(LockAll()) == SetOf(LockAll());
      case _ =>
    }
  }

  lemma StartKeepsSafe(st: State, p: nat, a: Action)
    requires Safe(st) && Enabled(st, p, a) && Alone(st, p, a) && !st.threads[p].pc.ExpandReady?
    ensures Safe(Next(st, p, a))
  {
    hide PcOk;
    var st' := Next(st, p, a);
    StartKeepsPc(st, p, a);
    forall q | 0 <= q < |st.threads| ensures ThreadOk(st', q) {
      assert ThreadOk(st, q);
    }
    forall v, q | 0 <= v < |st.infos| && 0 <= q < |st.threads| ensures OwnsLocks(st'.infos[v], q, HeldOn(st'.threads[q], v)) {
      assert OwnsLocks(st.infos[v], q, HeldOn(st.threads[q], v));
    }
  }

  /** While a thread holds all locks of the current table, no other thread is
      between its check that the table is current and its last write. */
  lemma InstallKeepsSafe(st: State, p: nat, a: Action)
    requires Safe(st) && Enabled(st, p, a) && st.threads[p].pc.ExpandReady?
    ensures Safe(Next(st, p, a))
    ensures Abs(a.info.t) == Abs(st.infos[st.cur].t)
  {
    var st' := Next(st, p, a);
    assert ThreadOk(st, p);
    forall q | 0 <= q < |st.threads| ensures ThreadOk(st', q) {
      assert ThreadOk(st, q);
      if q != p && st.threads[q].ti == st.cur { AllLocksExclude(st, p, q); }
    }
    forall v, q | 0 <= v < |st'.infos| && 0 <= q < |st.threads| ensures OwnsLocks(st'.infos[v], q, HeldOn(st'.threads[q], v)) {
      assert ThreadOk(st, q);
      if v < |st.infos| { assert OwnsLocks(st.infos[v], q, HeldOn(st.threads[q], v)); }
    }
  }

  lemma AllLocksExclude(st: State, p: nat, q: nat)
    requires Safe(st) && p < |st.threads| && q < |st.threads| && p != q
    requires st.threads[p].pc.ExpandReady? && st.threads[q].ti == st.cur
    ensures !st.threads[q].pc.Ready? && !st.threads[q].pc.InsertReady?
    ensures !st.threads[q].pc.ExpandReady? && !st.threads[q].pc.ClearReady?
  {
    assert ThreadOk(st, p) && ThreadOk(st, q);
    var (th, other) := (st.threads[p], st.threads[q]);
    assert OwnsLocks(st.infos[st.cur], p, HeldOn(th, st.cur)) && OwnsLocks(st.infos[st.cur], q, HeldOn(other, st.cur));
    forall l | 0 <= l < LOCKS ensures l !in other.held {
      assert l in LockAll();
      assert l in th.held;
    }
    var l := LockInd(st.infos[st.cur].g.First(other.job.key));
    assert l in HomeLocks(st.infos[st.cur].g, other.job.key);
    assert 0 in LockAll();
  }

  lemma OnTableKeepsThreads(st: State, p: nat, a: Action, q: nat)
    requires Safe(st) && Enabled(st, p, a) && !Alone(st, p, a) && q < |st.threads|
    ensures ThreadOk(Next(st, p, a), q)
  {
    hide Ok;
    var th := st.threads[p];
    var (info, current) := (st.infos[th.ti], th.ti == st.cur);
    assert ThreadOk(st, p) && ThreadOk(st, q) && OwnsLocks(info, p, HeldOn(th, th.ti));
    StepIsLockStep(info, current, p, th, a);
    if q == p {
      StepKeepsPc(info, current, p, th, a);
    } else if st.threads[q].ti == th.ti {
      StepIsTableStep(info, current, p, th, a);
      assert OwnsLocks(info, q, HeldOn(st.threads[q], th.ti));
      OthersKeepPc(info, StepOn(info, current, p, th, a).0, current, p, th, q, st.threads[q]);
    }
  }

  lemma OnTableKeepsLocks(st: State, p: nat, a: Action, v: nat, q: nat)
    requires Safe(st) && Enabled(st, p, a) && !Alone(st, p, a) && q < |st.threads| && v < |st.infos|
    ensures OwnsLocks(Next(st, p, a).infos[v], q, HeldOn(Next(st, p, a).threads[q], v))
  {
    var th := st.threads[p];
    var (info, current) := (st.infos[th.ti], th.ti == st.cur);
    assert ThreadOk(st, p) && OwnsLocks(info, p, HeldOn(th, th.ti)) && OwnsLocks(st.infos[v], q, HeldOn(st.threads[q], v));
    StepIsLockStep(info, current, p, th, a);
  }

  lemma OnTableKeepsSafe(st: State, p: nat, a: Action)
    requires Safe(st) && Enabled(st, p, a) && !Alone(st, p, a)
    ensures Safe(Next(st, p, a))
  {
    hide PcOk, TableStep, Ok, OwnersExist;
    var st' := Next(st, p, a);
    var th := st.threads[p];
    var (info, current) := (st.infos[th.ti], th.ti == st.cur);
    assert ThreadOk(st, p);
    StepIsTableStep(info, current, p, th, a);
    OwnersStay(info, current, p, th, a, |st.threads|);
    forall q | 0 <= q < |st.threads| ensures ThreadOk(st', q) { OnTableKeepsThreads(st, p, a, q); }
    forall v, q | 0 <= v < |st.infos| && 0 <= q < |st.threads| ensures OwnsLocks(st'.infos[v], q, HeldOn(st'.threads[q], v)) {
      OnTableKeepsLocks(st, p, a, v, q);
    }
  }

  lemma OwnersStay(info: Info, current: bool, p: nat, th: ThreadState, a: Action, n: nat)
    requires InfoOk(info) && PcOk(info, current, th) && EnabledOn(info, th, a) && p < n && OwnersExist(info, n)
    ensures OwnersExist(StepOn(info, current, p, th, a).0, n)
  {
  }

  lemma NextKeepsSafe(st: State, p: nat, a: Action)
    requires Safe(st) && Enabled(st, p, a)
    ensures Safe(Next(st, p, a))
  {
    if st.threads[p].pc.ExpandReady? {
      InstallKeepsSafe(st, p, a);
    } else if Alone(st, p, a) {
      StartKeepsSafe(st, p, a);
    } else {
      OnTableKeepsSafe(st, p, a);
    }
  }

  // ---- counters and calls --------------------------------------------------

  /** The thread is between two calls, or has only its locks to give back. */
  predicate AtRest(pc: Pc) {
    pc.Idle? || (pc.Unlock? && AtRest(pc.next))
  }

  ghost predicate InfoCounts(st: State, v: nat)
    requires v < |st.infos|
  {
    CountersOk(st.infos[v]) && |st.infos[v].inserts| == st.cores
  }

  ghost predicate ThreadCounts(st: State, q: nat)
    requires q < |st.threads|
  {
    st.threads[q].counter < st.cores && (!AtRest(st.threads[q].pc) ==> st.threads[q].call > 0)
  }

  /** The counters of every table agree with its contents. */
  ghost predicate Accounted(st: State) {
    && (forall v | 0 <= v < |st.infos| :: InfoCounts(st, v))
    && (forall q | 0 <= q < |st.threads| :: ThreadCounts(st, q))
  }

  ghost predicate Inv(st: State) {
    Safe(st) && Accounted(st)
  }

  lemma NextKeepsThreadCounts(st: State, p: nat, a: Action, q: nat)
    requires Inv(st) && Enabled(st, p, a) && q < |st.threads|
    ensures ThreadCounts(Next(st, p, a), q)
  {
    hide Safe;
    assert ThreadCounts(st, p) && ThreadCounts(st, q);
    if !Alone(st, p, a) { CallStays(st, p, a); }
  }

  /** The thread is still in the same call. */
  ghost predicate SameCall(th: ThreadState, th': ThreadState) {
    th'.call == th.call && th'.counter == th.counter && th'.job == th.job
  }

  lemma ReachedStays(info: Info, current: bool, th: ThreadState, goal: Goal)
    requires goal.PathLocked? ==> Shaped(info.g, info.t) && AllInTable(info.g, goal.path) && goal.depth < |goal.path|
    ensures var th' := Reached(info, current, th, goal).1; SameCall(th, th') && !AtRest(th'.pc)
  {
  }

  lemma StepStays(info: Info, current: bool, p: nat, th: ThreadState, a: Action)
    requires EnabledOn(info, th, a)
    ensures var th' := StepOn(info, current, p, th, a).1;
            && SameCall(th, th')
            && (AtRest(th'.pc) <==> AtRest(th.pc) || (Writes(th) && !a.Crowded?))
  {
    if th.pc.Acquire? && |th.pc.todo| == 0 { ReachedStays(info, current, th, th.pc.goal); }
  }

  /** A turn on a table leaves the call a thread is in, and begins none. */
  lemma CallStays(st: State, p: nat, a: Action)
    requires Enabled(st, p, a) && !Alone(st, p, a)
    ensures var (th, th') := (st.threads[p], Next(st, p, a).threads[p]);
            && SameCall(th, th')
            && (AtRest(th'.pc) <==> AtRest(th.pc) || (Writes(th) && !a.Crowded?))
  {
    var th := st.threads[p];
    StepStays(st.infos[th.ti], th.ti == st.cur, p, th, a);
  }

  lemma NextKeepsInfoCounts(st: State, p: nat, a: Action, v: nat)
    requires Inv(st) && Enabled(st, p, a) && v < |Next(st, p, a).infos|
    ensures InfoCounts(Next(st, p, a), v)
  {
    hide CountersOk;
    var th := st.threads[p];
    assert ThreadOk(st, p) && ThreadCounts(st, p) && InfoCounts(st, th.ti);
    if v < |st.infos| { assert InfoCounts(st, v); }
    if !Alone(st, p, a) { StepKeepsCounters(st.infos[th.ti], th.ti == st.cur, p, th, a); }
  }

  lemma NextKeepsAccounts(st: State, p: nat, a: Action)
    requires Inv(st) && Enabled(st, p, a)
    ensures Accounted(Next(st, p, a))
  {
    hide InfoCounts, ThreadCounts, Safe;
    var st' := Next(st, p, a);
    forall q | 0 <= q < |st'.threads| ensures ThreadCounts(st', q) { NextKeepsThreadCounts(st, p, a, q); }
    forall v | 0 <= v < |st'.infos| ensures InfoCounts(st', v) { NextKeepsInfoCounts(st, p, a, v); }
  }

  lemma NextKeepsInv(st: State, p: nat, a: Action)
    requires Inv(st) && Enabled(st, p, a)
    ensures Inv(Next(st, p, a))
  {
    NextKeepsSafe(st, p, a);
    NextKeepsAccounts(st, p, a);
  }
}
