/** The lock-based CLHT table with resizing: any number of threads that put and
    remove, and one resizer that freezes, copies and replaces the table.  A turn
    is one access to h->ht, to a lock byte, to table_new or to an entry outside
    a lock, or what one critical section does to its locked chain. */
module Resize {
  import opened Bits
  import opened Chains

  datatype Lock = Free | Update(owner: nat) | Resizing

  /** A clht_hashtable_t; `linked` says that table_new is set. */
  datatype Table = Table(chains: seq<Chain>, locks: seq<Lock>, linked: bool)

  function Bin(n: nat, k: Key): (b: nat)
    requires n > 0
    ensures b < n
  {
    And(k, n - 1)
  }

  /** What a search for k in a table finds. */
  function Lookup(t: Table, k: Key): Option<Val>
    requires |t.chains| > 0
  {
    Find(t.chains[Bin(|t.chains|, k)], k)
  }

  function NewTable(n: nat): Table
    requires n > 0
  {
    Table(seq(n, i => [EMPTY, EMPTY, EMPTY]), seq(n, i => Free), false)
  }

  datatype Job = Put(key: Key, val: Val) | Remove(key: Key)

  datatype Result = Added | Present | Removed(val: Val) | Absent

  datatype Pc =
    | Idle
    | Load                            // about to read h->ht
    | Exists(ti: nat, i: nat)         // bucket_exists is at entry i
    | Acquire(ti: nat)                // about to compare and swap the lock
    | Wait(ti: nat)                   // until table_new is set
    | Reload
    | Work(ti: nat)                   // holds the lock
    | Release(ti: nat, res: Result)
    | Freeze(from: nat, to: nat, b: nat)          // resizer: lock bucket b, or swap
    | Copy(from: nat, to: nat, b: nat, j: nat)    // resizer: entry j of bucket b
    | Link(from: nat, to: nat)                    // resizer: set table_new
    | Unlock                                      // resizer: give resize_lock back

  /** A thread; `call` numbers its calls, and `since` is the instant at which the
      last one began. */
  datatype ThreadState = ThreadState(pc: Pc, job: Job, since: nat, call: nat)

  /** A change of the map, and whose call made it. */
  datatype Change = Change(thread: nat, call: nat, job: Job, res: Result)

  /** What a call returned, and the instants between which it ran. */
  datatype Answer = Answer(thread: nat, call: nat, job: Job, res: Result, since: nat, until: nat)

  /** `instants` are the tables the current map went through, one more than the
      changes; `answers` are the calls that have returned. */
  datatype State = State(
    tables: seq<Table>, cur: nat, resizer: Option<nat>, threads: seq<ThreadState>,
    instants: seq<Table>, changes: seq<Change>, answers: seq<Answer>)

  datatype Action = Begin(job: Job) | BeginResize(n: nat) | Go

  /** Thread p's chain in a table it has loaded. */
  predicate HasChain(st: State, ti: nat) {
    ti < |st.tables| && |st.tables[ti].chains| > 0 && |st.tables[ti].locks| == |st.tables[ti].chains|
  }

  function BinOf(st: State, ti: nat, k: Key): (b: nat)
    requires HasChain(st, ti)
    ensures b < |st.tables[ti].chains|
  {
    Bin(|st.tables[ti].chains|, k)
  }

  ghost predicate Enabled(st: State, p: nat, a: Action) {
    && p < |st.threads|
    && match st.threads[p].pc
       case Idle =>
         (a.Begin? && a.job.key != 0)
         || (a.BeginResize? && a.n > 0 && st.resizer == None && HasChain(st, st.cur))
       case Load => a.Go?
       case Reload => a.Go?
       case Exists(ti, i) => a.Go? && HasChain(st, ti)
       case Acquire(ti) => a.Go? && HasChain(st, ti) && !st.tables[ti].locks[BinOf(st, ti, st.threads[p].job.key)].Update?
       case Wait(ti) => a.Go? && HasChain(st, ti) && st.tables[ti].linked
       case Work(ti) => a.Go? && HasChain(st, ti)
       case Release(ti, _) => a.Go? && HasChain(st, ti)
       case Freeze(from, to, b) =>
         && a.Go? && HasChain(st, from) && to < |st.tables|
         && (b < |st.tables[from].locks| ==> !st.tables[from].locks[b].Update?)
       case Copy(from, to, b, j) => a.Go? && HasChain(st, from) && HasChain(st, to) && b < |st.tables[from].chains|
       case Link(from, to) => a.Go? && from < |st.tables|
       case Unlock => a.Go?
  }

  function SetLock(t: Table, b: nat, l: Lock): Table
    requires b < |t.locks|
  {
    t.(locks := t.locks[b := l])
  }

  function SetChain(t: Table, b: nat, c: Chain): Table
    requires b < |t.chains|
  {
    t.(chains := t.chains[b := c])
  }

  function IndexOf(c: Chain, k: Key): (s: nat)
    ensures s <= |c| && (s < |c| ==> c[s].key == k)
    ensures s == |c| <==> Find(c, k) == None
    ensures s < |c| ==> Find(c, k) == Some(c[s].val)
  {
    if c == [] then 0
    else if c[0].key == k then 0
    else IndexOf(c[1..], k) + 1
  }

  /** What a put or remove does to the chain it has locked. */
  function Effect(c: Chain, job: Job): (Chain, Result) {
    var s := IndexOf(c, job.key);
    match job
    case Put(k, v) => if s < |c| then (c, Present) else (PutIn(c, k, v), Added)
    case Remove(k) => if s < |c| then (c[s := c[s].(key := 0)], Removed(c[s].val)) else (c, Absent)
  }

  predicate Changes(res: Result) {
    res.Added? || res.Removed?
  }

  function Goto(st: State, p: nat, pc: Pc): State
    requires p < |st.threads|
  {
    st.(threads := st.threads[p := st.threads[p].(pc := pc)])
  }

  function WithTable(st: State, v: nat, t: Table): State
    requires v < |st.tables|
  {
    st.(tables := st.tables[v := t])
  }

  /** What thread p would answer now. */
  function AnswerNow(st: State, p: nat, res: Result): Answer
    requires p < |st.threads|
  {
    var th := st.threads[p];
    Answer(p, th.call, th.job, res, th.since, |st.changes|)
  }

  /** Thread p returns from its call. */
  function Return(st: State, p: nat, res: Result): State
    requires p < |st.threads|
  {
    Goto(st.(answers := st.answers + [AnswerNow(st, p, res)]), p, Idle)
  }

  /** One look of bucket_exists: put is done when it finds its key, remove when
      it comes to the end of the chain. */
  function ExistsNext(st: State, p: nat, c: Chain, ti: nat, i: nat): State
    requires p < |st.threads|
  {
    var job := st.threads[p].job;
    if i >= |c| then (if job.Put? then Goto(st, p, Acquire(ti)) else Return(st, p, Absent))
    else if c[i].key == job.key then (if job.Put? then Return(st, p, Present) else Goto(st, p, Acquire(ti)))
    else Goto(st, p, Exists(ti, i + 1))
  }

  function WorkNext(st: State, p: nat, ti: nat): State
    requires p < |st.threads| && HasChain(st, ti)
  {
    var job := st.threads[p].job;
    var b := BinOf(st, ti, job.key);
    var (c, res) := Effect(st.tables[ti].chains[b], job);
    var t := SetChain(st.tables[ti], b, c);
    var st1 := Goto(WithTable(st, ti, t), p, Release(ti, res));
    if Changes(res) then
      st1.(instants := st.instants + [t], changes := st.changes + [Change(p, st.threads[p].call, job, res)])
    else st1
  }

  /** One entry of bucket_cpy, with clht_put_seq into the new table. */
  function CopyNext(st: State, p: nat, from: nat, to: nat, b: nat, j: nat): State
    requires p < |st.threads| && HasChain(st, from) && HasChain(st, to) && b < |st.tables[from].chains|
  {
    var c := st.tables[from].chains[b];
    if j >= |c| then Goto(st, p, Freeze(from, to, b + 1))
    else
      var st1 := Goto(st, p, Copy(from, to, b, j + 1));
      if c[j].key == 0 then st1
      else
        var bin := BinOf(st, to, c[j].key);
        WithTable(st1, to, SetChain(st.tables[to], bin, PutIn(st.tables[to].chains[bin], c[j].key, c[j].val)))
  }

  function Next(st: State, p: nat, a: Action): State
    requires Enabled(st, p, a)
  {
    var th := st.threads[p];
    match th.pc
    case Idle =>
      if a.Begin? then
        st.(threads := st.threads[p := ThreadState(Load, a.job, |st.changes|, th.call + 1)])
      else
        Goto(st.(tables := st.tables + [NewTable(a.n)], resizer := Some(p)), p, Freeze(st.cur, |st.tables|, 0))
    case Load => Goto(st, p, Exists(st.cur, 0))
    case Exists(ti, i) => ExistsNext(st, p, st.tables[ti].chains[BinOf(st, ti, th.job.key)], ti, i)
    case Acquire(ti) =>
      var b := BinOf(st, ti, th.job.key);
      if st.tables[ti].locks[b].Resizing? then Goto(st, p, Wait(ti))
      else Goto(WithTable(st, ti, SetLock(st.tables[ti], b, Update(p))), p, Work(ti))
    case Wait(ti) => Goto(st, p, Reload)
    case Reload => Goto(st, p, Acquire(st.cur))
    case Work(ti) => WorkNext(st, p, ti)
    case Release(ti, res) =>
      Return(WithTable(st, ti, SetLock(st.tables[ti], BinOf(st, ti, th.job.key), Free)), p, res)
    case Freeze(from, to, b) =>
      if b >= |st.tables[from].chains| then Goto(st.(cur := to), p, Link(from, to))
      else Goto(WithTable(st, from, SetLock(st.tables[from], b, Resizing)), p, Copy(from, to, b, 0))
    case Copy(from, to, b, j) => CopyNext(st, p, from, to, b, j)
    case Link(from, to) => Goto(WithTable(st, from, st.tables[from].(linked := true)), p, Unlock)
    case Unlock => Goto(st.(resizer := None), p, Idle)
  }
}
