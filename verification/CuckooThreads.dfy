/** Any number of threads on one cuckoo table: finds, erases, updates, inserts
    and clears with striped locks, optimistic replay of cuckoo paths that were
    computed without locks, and expansions that replace the table.

    A turn takes one lock, gives one lock back, or does what one critical
    section does while its locks are held.  What a search without locks may
    come back with is left open as far as CuckooPath.CuckooPathSearch leaves it
    open: any path of the right shape. */
module CuckooThreads {
  import opened Counters
  import opened CuckooIndex
  import opened CuckooTable
  import opened CuckooSearch
  import opened CuckooPath
  import opened CuckooMap

  datatype Owner = Nobody | Thread(id: nat)

  /** A TableInfo: its buckets, its stripe locks and its counters. */
  datatype Info = Info(g: Geometry, t: Table, locks: seq<Owner>, inserts: seq<nat>, deletes: seq<nat>)

  datatype Job = Find(key: Key) | Erase(key: Key) | Update(key: Key, val: Val) | Insert(key: Key, val: Val)

  /** What a thread does once it has the locks it is taking. */
  datatype Goal =
    | TwoLocked                                         // snapshot_and_lock_two
    | LookLocked(b: nat)                                // one look of a search
    | PathLocked(path: seq<CuckooRecord>, depth: nat)   // one swap of cuckoopath_move
    | AllLocked(n: nat)                                 // snapshot_and_lock_all, to expand
    | ClearLocked                                       // snapshot_and_lock_all, to clear

  datatype Pc =
    | Idle
    | Load                                // about to load table_info
    | Acquire(todo: seq<nat>, goal: Goal)
    | Ready                               // both home buckets locked, table current
    | Search                              // run_cuckoo, no locks held
    | Full(n: nat)                        // about to expand to hash power n
    | Freed(b: nat, s: nat)               // moves done, both home buckets locked
    | InsertReady(b: nat, s: nat)         // table still current
    | ExpandReady(n: nat)                 // all locks held, table current
    | ClearLoad                           // about to lock all for a clear
    | ClearReady                          // all locks held, table current
    | Unlock(next: Pc)

  /** A thread; `counter` is its counterid, and `call` numbers its calls. */
  datatype ThreadState = ThreadState(pc: Pc, job: Job, ti: nat, held: set<nat>, counter: nat, call: nat)

  datatype State = State(infos: seq<Info>, cur: nat, threads: seq<ThreadState>, cores: nat)

  /** What the environment decides in a turn. */
  datatype Action =
    | Begin(job: Job) | BeginClear
    | Go
    | Hit(b: nat, s: nat) | Miss          // the key was found there, or in neither home bucket
    | Place(b: nat, s: nat) | Crowded     // a free slot, or none in either home bucket
    | Look(b: nat) | Path(p: seq<CuckooRecord>) | NoPath
    | Drop(l: nat)                        // give lock l back
    | Install(info: Info)                 // install the expanded table

  // ---- the order of locks --------------------------------------------------

  /** The locks lock_two takes, in the order it takes them. */
  function LockTwo(b1: nat, b2: nat): (ls: seq<nat>)
    ensures Ascending(ls) && (set l | l in ls) == {LockInd(b1), LockInd(b2)}
  {
    var (i1, i2) := (LockInd(b1), LockInd(b2));
    if i1 < i2 then [i1, i2] else if i2 < i1 then [i2, i1] else [i1]
  }

  /** The locks lock_three takes, in the order it takes them. */
  function LockThree(b1: nat, b2: nat, b3: nat): (ls: seq<nat>)
    ensures Ascending(ls) && (set l | l in ls) == {LockInd(b1), LockInd(b2), LockInd(b3)}
  {
    var (i1, i2, i3) := (LockInd(b1), LockInd(b2), LockInd(b3));
    if i1 == i2 then LockTwo(b1, b3)
    else if i2 == i3 then LockTwo(b1, b3)
    else if i1 == i3 then LockTwo(b1, b2)
    else if i1 < i2 then
      if i2 < i3 then [i1, i2, i3] else if i1 < i3 then [i1, i3, i2] else [i3, i1, i2]
    else if i2 < i3 then
      if i1 < i3 then [i2, i1, i3] else [i2, i3, i1]
    else [i3, i2, i1]
  }

  lemma AllListed(ls: seq<nat>)
    requires |ls| == LOCKS && forall l | 0 <= l < LOCKS :: ls[l] == l
    ensures forall l | 0 <= l < LOCKS :: l in ls
  {
    forall l | 0 <= l < LOCKS ensures l in ls { assert ls[l] in ls; }
  }

  function LockAll(): (ls: seq<nat>)
    ensures Ascending(ls) && forall l | 0 <= l < LOCKS :: l in ls
  {
    var ls := seq(LOCKS, i => i);
    AllListed(ls);
    ls
  }

  ghost predicate Ascending(ls: seq<nat>) {
    && (forall i, j | 0 <= i < j < |ls| :: ls[i] < ls[j])
    && (forall i | 0 <= i < |ls| :: ls[i] < LOCKS)
  }

  /** The locks of a key's two home buckets. */
  function HomeLocks(g: Geometry, k: Key): set<nat> {
    {LockInd(g.First(k)), LockInd(g.Second(k))}
  }

  /** The other one of i1 and i2. */
  function OtherOf(g: Geometry, k: Key, b: nat): nat {
    if b == g.First(k) then g.Second(k) else g.First(k)
  }

  /** The locks cuckoopath_move takes for the swap into position d. */
  function MoveLocks(g: Geometry, k: Key, p: seq<CuckooRecord>, d: nat): (ls: seq<nat>)
    requires d < |p|
    ensures Ascending(ls)
  {
    if d == 0 then LockTwo(g.First(k), g.Second(k))
    else if d == 1 then LockThree(p[0].bucket, p[1].bucket, OtherOf(g, k, p[0].bucket))
    else LockTwo(p[d - 1].bucket, p[d].bucket)
  }

  // ---- one turn ------------------------------------------------------------

  ghost predicate NotAtHome(g: Geometry, t: Table, k: Key) {
    forall b: nat, s: nat :: g.IsHome(k, b) ==> !At(t, b, s, k)
  }

  ghost predicate FreeSlot(t: Table, b: nat, s: nat) {
    b < |t| && s < |t[b]| && !t[b][s].occupied
  }

  ghost predicate IsMiss(g: Geometry, t: Table, k: Key, a: Action) {
    !a.Hit? && NotAtHome(g, t, k)
  }

  ghost predicate IsHit(g: Geometry, t: Table, k: Key, a: Action) {
    a.Hit? && g.IsHome(k, a.b) && At(t, a.b, a.s, k)
  }

  /** A turn of a thread on the table it has loaded is possible. */
  ghost predicate EnabledOn(info: Info, th: ThreadState, a: Action) {
    var (g, t, k) := (info.g, info.t, th.job.key);
    match th.pc
    case Acquire(todo, goal) =>
      && a.Go?
      && (|todo| > 0 ==> todo[0] < |info.locks| && info.locks[todo[0]] == Nobody)
      && (|todo| == 0 && goal.PathLocked? ==> Shaped(g, t) && AllInTable(g, goal.path) && goal.depth < |goal.path|)
    case Ready =>
      || IsHit(g, t, k, a)
      || (IsMiss(g, t, k, a) && !th.job.Insert? && a.Miss?)
      || (IsMiss(g, t, k, a) && th.job.Insert? && a.Place? && g.IsHome(k, a.b) && FreeSlot(t, a.b, a.s))
      || (IsMiss(g, t, k, a) && th.job.Insert? && a.Crowded? && CuckooSearch.Full(t, g.First(k)) && CuckooSearch.Full(t, g.Second(k)))
    case Search => a.Look? || a.NoPath? || (a.Path? && PathShape(g, a.p, g.First(k), g.Second(k)))
    case Freed(b, s) => a.Go?
    case ClearReady => a.Go?
    case InsertReady(b, s) => b < |t| && s < |t[b]| && (IsHit(g, t, k, a) || (IsMiss(g, t, k, a) && a.Miss?))
    case Unlock(next) => if th.held == {} then a.Go? else a.Drop? && a.l in th.held && a.l < |info.locks|
    case _ => false
  }

  /** A thread that has all the locks it wanted. */
  function Reached(info: Info, current: bool, th: ThreadState, goal: Goal): (Info, ThreadState)
    requires goal.PathLocked? ==> Shaped(info.g, info.t) && AllInTable(info.g, goal.path) && goal.depth < |goal.path|
  {
    match goal
    case TwoLocked => (info, th.(pc := if current then Ready else Unlock(Load)))
    case LookLocked(b) => (info, th.(pc := Unlock(Search)))
    case AllLocked(n) =>
      (info, th.(pc := if !current then Unlock(Full(n)) else if n <= info.g.hp then Unlock(Load) else ExpandReady(n)))
    case ClearLocked => (info, th.(pc := if current then ClearReady else Unlock(ClearLoad)))
    case PathLocked(path, d) =>
      if d == 0 then
        (info, th.(pc := if IsTaken(info.t, path[0]) then Unlock(Search) else Freed(path[0].bucket, path[0].slot)))
      else if !CanSwap(info.g, info.t, path, d) then (info, th.(pc := Unlock(Search)))
      else
        var info' := info.(t := Swap(info.g, info.t, path, d));
        if d > 1 then
          (info', th.(pc := Unlock(Acquire(MoveLocks(info.g, th.job.key, path, d - 1), PathLocked(path, d - 1)))))
        else LastSwapped(info', th, path)
  }

  predicate IsTaken(t: Table, r: CuckooRecord) {
    r.bucket < |t| && r.slot < |t[r.bucket]| && t[r.bucket][r.slot].occupied
  }

  /** After the last swap only tb is unlocked, unless it shares its stripe with
      fb or ob. */
  function LastSwapped(info: Info, th: ThreadState, path: seq<CuckooRecord>): (Info, ThreadState)
    requires |path| > 1
  {
    var fl := LockInd(path[0].bucket);
    var tl := LockInd(path[1].bucket);
    var ol := LockInd(OtherOf(info.g, th.job.key, path[0].bucket));
    var th' := th.(pc := Freed(path[0].bucket, path[0].slot));
    if tl != fl && tl != ol && tl < |info.locks| then
      (info.(locks := info.locks[tl := Nobody]), th'.(held := th.held - {tl}))
    else (info, th')
  }

  function Counted(counters: seq<nat>, c: nat, counts: bool): seq<nat> {
    if counts && c < |counters| then Bump(counters, c) else counters
  }

  /** What a thread with both home buckets locked makes of the table. */
  function Worked(t: Table, job: Job, a: Action): Table
    requires a.Hit? || a.Place? ==> a.b < |t| && a.s < |t[a.b]|
  {
    if a.Hit? && job.Erase? then SetSlot(t, a.b, a.s, t[a.b][a.s].(occupied := false))
    else if a.Hit? && job.Update? then SetSlot(t, a.b, a.s, t[a.b][a.s].(val := job.val))
    else if a.Place? && job.Insert? then SetSlot(t, a.b, a.s, Slot(true, job.key, job.val))
    else t
  }

  /** The same with the counters. */
  function WorkedInfo(info: Info, th: ThreadState, a: Action): Info
    requires a.Hit? || a.Place? ==> a.b < |info.t| && a.s < |info.t[a.b]|
  {
    info.(t := Worked(info.t, th.job, a),
          inserts := Counted(info.inserts, th.counter, a.Place? && th.job.Insert?),
          deletes := Counted(info.deletes, th.counter, a.Hit? && th.job.Erase?))
  }

  /** cuckoo_clear. */
  function Cleared(info: Info): Info {
    var t := info.t;
    info.(t := seq(|t|, b requires 0 <= b < |t| => seq(|t[b]|, s => Slot(false, 0, 0))),
          inserts := seq(|info.inserts|, c => 0), deletes := seq(|info.deletes|, c => 0))
  }

  /** A turn of thread p on the table it has loaded, which is current or not. */
  function StepOn(info: Info, current: bool, p: nat, th: ThreadState, a: Action): (Info, ThreadState)
    requires EnabledOn(info, th, a)
  {
    match th.pc
    case Acquire(todo, goal) =>
      if |todo| > 0 then
        (info.(locks := info.locks[todo[0] := Thread(p)]),
         th.(pc := Acquire(todo[1..], goal), held := th.held + {todo[0]}))
      else Reached(info, current, th, goal)
    case Ready =>
      if a.Crowded? then (info, th.(pc := Unlock(Search)))
      else (WorkedInfo(info, th, a), th.(pc := Unlock(Idle)))
    case Search =>
      (info,
       th.(pc := if a.Look? then Acquire([LockInd(a.b)], LookLocked(a.b))
                 else if a.Path? then Acquire(MoveLocks(info.g, th.job.key, a.p, |a.p| - 1), PathLocked(a.p, |a.p| - 1))
                 else Full(info.g.hp + 1)))
    case Freed(b, s) => (info, th.(pc := if current then InsertReady(b, s) else Unlock(Load)))
    case InsertReady(b, s) =>
      (if a.Hit? then info else WorkedInfo(info, th, Place(b, s)), th.(pc := Unlock(Idle)))
    case ClearReady => (Cleared(info), th.(pc := Unlock(Idle)))
    case Unlock(next) =>
      if th.held == {} then (info, th.(pc := next))
      else (info.(locks := info.locks[a.l := Nobody]), th.(held := th.held - {a.l}))
    case _ => (info, th)
  }

  /** The counters of a table agree with its contents. */
  ghost predicate CountersOk(info: Info) {
    && |info.inserts| == |info.deletes|
    && (forall c | 0 <= c < |info.inserts| :: info.inserts[c] < WORD && info.deletes[c] < WORD)
    && Counts(info.inserts, info.deletes, |Abs(info.t)|)
  }

  /** An expansion may install a table of the demanded size that represents the
      same map, and whose counters count it: what one inserter after the other
      makes of a new table by CuckooMap.CuckooHashMap.ExpandSimple, and any
      interleaving of them by CuckooThreadsExpansion.ConcurrentExpansion. */
  ghost predicate Expands(info: Info, n: nat, info': Info) {
    && info'.g.hp >= n && info'.g.hash == info.g.hash && info'.g.slots == info.g.slots
    && Ok(info'.g, info'.t) && Abs(info'.t) == Abs(info.t)
    && CountersOk(info') && |info'.inserts| == |info.inserts|
    && |info'.locks| == LOCKS && forall l | 0 <= l < LOCKS :: info'.locks[l] == Nobody
  }

  ghost predicate Enabled(st: State, p: nat, a: Action) {
    && p < |st.threads| && st.cur < |st.infos|
    && var th := st.threads[p];
       match th.pc
       case Idle => a.Begin? || a.BeginClear?
       case ClearLoad => a.Go?
       case Load => a.Go?
       case Full(n) => a.Go?
       case ExpandReady(n) => a.Install? && th.ti < |st.infos| && Expands(st.infos[th.ti], n, a.info)
       case _ => th.ti < |st.infos| && EnabledOn(st.infos[th.ti], th, a)
  }

  function Next(st: State, p: nat, a: Action): State
    requires Enabled(st, p, a)
  {
    var th := st.threads[p];
    match th.pc
    case Idle =>
      var th' := th.(call := th.call + 1);
      st.(threads := st.threads[p := if a.Begin? then th'.(pc := Load, job := a.job) else th'.(pc := ClearLoad)])
    case ClearLoad => st.(threads := st.threads[p := th.(ti := st.cur, pc := Acquire(LockAll(), ClearLocked))])
    case Load =>
      var g := st.infos[st.cur].g;
      var locks := LockTwo(g.First(th.job.key), g.Second(th.job.key));
      st.(threads := st.threads[p := th.(ti := st.cur, pc := Acquire(locks, TwoLocked))])
    case Full(n) => st.(threads := st.threads[p := th.(ti := st.cur, pc := Acquire(LockAll(), AllLocked(n)))])
    case ExpandReady(n) =>
      st.(infos := st.infos + [a.info], cur := |st.infos|, threads := st.threads[p := th.(pc := Unlock(Load))])
    case _ =>
      var r := StepOn(st.infos[th.ti], th.ti == st.cur, p, th, a);
      st.(infos := st.infos[th.ti := r.0], threads := st.threads[p := r.1])
  }
}
