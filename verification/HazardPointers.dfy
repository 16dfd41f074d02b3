/** Hazard pointers of the cuckoo table: when a replaced TableInfo may be freed.
    Any number of threads, any number of expansions, and addresses that are
    used again after they were freed.  Each turn is one access to table_info,
    to a hazard pointer or to the list of replaced tables; the mutex of the
    global list covers registration and a whole delete_unused. */
module HazardPointers {

  type Address = nat

  const NULL := 0

  datatype Option<T> = None | Some(value: T)

  datatype Pc =
    | Out                            // no table snapshot in use (the hazard pointer may be stale)
    | Loaded(a: Address)             // ti = table_info.load()
    | Announced(a: Address)          // *hazard_pointer = ti
    | Using(a: Address, gen: nat)    // ti == table_info.load() held
    | Replaced(a: Address, gen: nat) // stored the expanded table over a
    | Deleting(a: Address, gen: nat) // in delete_unused

  /** A thread and its node in the list of hazard pointers. */
  datatype ThreadState = ThreadState(node: Option<nat>, pc: Pc)

  /** delete_unused is at hazard pointer j for replaced table i. */
  datatype Scan = NoScan | At(i: nat, j: nat)

  datatype State = State(
    cur: Address,                // table_info
    mem: map<Address, nat>,      // live TableInfos and which allocation made them
    allocations: nat,
    hp: seq<Address>,            // global_hazard_pointers
    replaced: seq<Address>,      // old_table_infos
    scan: Scan,
    threads: seq<ThreadState>)

  datatype Action =
    | Register | Load | Announce
    | Recheck                   // compare ti with table_info again
    | Leave                     // clear the hazard pointer
    | Retry                     // start over without clearing it
    | Install(a: Address)       // allocate at a, fill, store into table_info
    | Delete                    // push the old table and call delete_unused
    | Compare                   // one comparison of delete_unused, or its end

  ghost predicate Enabled(st: State, p: nat, act: Action) {
    && p < |st.threads|
    && var th := st.threads[p];
       match act
       case Register => th.node.None? && th.pc.Out? && st.scan == NoScan
       case Load => th.node.Some? && th.pc.Out?
       case Announce => th.pc.Loaded? && th.node.Some? && th.node.value < |st.hp|
       case Recheck => th.pc.Announced? && st.cur in st.mem
       case Leave => th.pc.Using? && th.node.Some? && th.node.value < |st.hp|
       case Retry => th.pc.Using?
       case Install(a) => th.pc.Using? && th.pc.a == st.cur && a != NULL && a !in st.mem
       case Delete => th.pc.Replaced? && st.scan == NoScan
       case Compare => th.pc.Deleting? && st.scan.At? && st.scan.i <= |st.replaced| && st.scan.j <= |st.hp|
  }

  function Goto(st: State, p: nat, pc: Pc): State
    requires p < |st.threads|
  {
    st.(threads := st.threads[p := st.threads[p].(pc := pc)])
  }

  /** delete_unused looks at hazard pointer j for replaced table i: a match keeps
      the table, the end of the list frees it. */
  function CompareOne(st: State): State
    requires st.scan.At? && st.scan.i < |st.replaced| && st.scan.j <= |st.hp|
  {
    var At(i, j) := st.scan;
    if j == |st.hp| then
      st.(mem := st.mem - {st.replaced[i]}, replaced := st.replaced[..i] + st.replaced[i + 1..], scan := At(i, 0))
    else if st.hp[j] == st.replaced[i] then st.(scan := At(i + 1, 0))
    else st.(scan := At(i, j + 1))
  }

  function Next(st: State, p: nat, act: Action): State
    requires Enabled(st, p, act)
  {
    var th := st.threads[p];
    match act
    case Register =>
      st.(hp := st.hp + [NULL], threads := st.threads[p := th.(node := Some(|st.hp|))])
    case Load => Goto(st, p, Loaded(st.cur))
    case Announce => Goto(st.(hp := st.hp[th.node.value := th.pc.a]), p, Announced(th.pc.a))
    case Recheck => Goto(st, p, if th.pc.a == st.cur then Using(st.cur, st.mem[st.cur]) else Out)
    case Leave => Goto(st.(hp := st.hp[th.node.value := NULL]), p, Out)
    case Retry => Goto(st, p, Out)
    case Install(a) =>
      Goto(st.(cur := a, mem := st.mem[a := st.allocations], allocations := st.allocations + 1),
           p, Replaced(th.pc.a, th.pc.gen))
    case Delete =>
      Goto(st.(replaced := st.replaced + [th.pc.a], scan := At(0, 0)), p, Deleting(th.pc.a, th.pc.gen))
    case Compare =>
      if st.scan.i == |st.replaced| then Goto(st.(scan := NoScan), p, Using(th.pc.a, th.pc.gen)) else CompareOne(st)
  }

  // ---- the invariant -------------------------------------------------------

  /** The thread relies on the table at pc.a being the one it checked. */
  predicate Relies(pc: Pc) {
    pc.Using? || pc.Replaced? || pc.Deleting?
  }

  /** Replaced, but not yet on the list of replaced tables. */
  ghost predicate Pending(st: State, a: Address) {
    exists p :: 0 <= p < |st.threads| && st.threads[p].pc.Replaced? && st.threads[p].pc.a == a
  }

  ghost predicate ThreadOk(st: State, p: nat)
    requires p < |st.threads|
  {
    var th := st.threads[p];
    && (th.node.Some? ==> th.node.value < |st.hp|)
    && (!th.pc.Out? ==> th.node.Some?)
    && (th.pc.Announced? ==> st.hp[th.node.value] == th.pc.a)
    && (Relies(th.pc) ==> st.hp[th.node.value] == th.pc.a && th.pc.a in st.mem && st.mem[th.pc.a] == th.pc.gen)
    && (th.pc.Replaced? ==> th.pc.a != st.cur && th.pc.a !in st.replaced)
  }

  /** No thread that relies on the table under scrutiny has a hazard pointer
      among those already looked at. */
  ghost predicate NotPassed(st: State, p: nat)
    requires p < |st.threads|
  {
    var th := st.threads[p];
    st.scan.At? && st.scan.i < |st.replaced| && Relies(th.pc) && th.node.Some? && th.pc.a == st.replaced[st.scan.i]
    ==> st.scan.j <= th.node.value
  }

  /** Every live TableInfo has exactly one place: current, on the list of
      replaced tables, or about to be put there. */
  ghost predicate Inv(st: State) {
    && st.cur in st.mem && st.cur != NULL && st.cur !in st.replaced
    && (forall i, j | 0 <= i < j < |st.replaced| :: st.replaced[i] != st.replaced[j])
    && (forall a :: a in st.mem <==> a == st.cur || a in st.replaced || Pending(st, a))
    && (st.scan.At? ==> st.scan.i <= |st.replaced| && st.scan.j <= |st.hp|)
    && (forall p | 0 <= p < |st.threads| :: ThreadOk(st, p) && NotPassed(st, p))
    && (forall p, q | 0 <= p < q < |st.threads| :: DifferentNodes(st.threads[p], st.threads[q]))
  }

  /** Two threads never share a node, nor replace the same table. */
  ghost predicate DifferentNodes(x: ThreadState, y: ThreadState) {
    && (x.node.Some? && y.node.Some? ==> x.node.value != y.node.value)
    && (x.pc.Replaced? && y.pc.Replaced? ==> x.pc.a != y.pc.a)
  }

  lemma Without(s: seq<Address>, i: nat, a: Address)
    requires i < |s| && forall i, j | 0 <= i < j < |s| :: s[i] != s[j]
    ensures a in s[..i] + s[i + 1..] <==> a in s && a != s[i]
  {
    if a in s && a != s[i] {
      var j :| 0 <= j < |s| && s[j] == a;
      var r := s[..i] + s[i + 1..];
      assert r[if j < i then j else j - 1] == a;
    }
  }

  /** The end of the hazard pointers is reached only for a table on which no
      thread relies. */
  lemma FreedIsUnused(st: State, p: nat)
    requires Inv(st) && p < |st.threads|
    requires st.scan.At? && st.scan.i < |st.replaced| && st.scan.j == |st.hp|
    requires Relies(st.threads[p].pc)
    ensures st.threads[p].pc.a != st.replaced[st.scan.i]
  {
    assert ThreadOk(st, p) && NotPassed(st, p);
  }

  lemma FreeKeepsInv(st: State, p: nat)
    requires Inv(st) && Enabled(st, p, Compare) && st.scan.i < |st.replaced| && st.scan.j == |st.hp|
    ensures Inv(Next(st, p, Compare))
  {
    var st' := Next(st, p, Compare);
    var i := st.scan.i;
    forall a ensures a in st'.replaced <==> a in st.replaced && a != st.replaced[i] {
      Without(st.replaced, i, a);
    }
    forall q | 0 <= q < |st.threads| ensures ThreadOk(st', q) && NotPassed(st', q) {
      assert ThreadOk(st, q);
      if Relies(st.threads[q].pc) { FreedIsUnused(st, q); }
    }
    forall a ensures Pending(st, a) <==> Pending(st', a) {}
    forall a | Pending(st, a) ensures a !in st.replaced {
      var q :| 0 <= q < |st.threads| && st.threads[q].pc.Replaced? && st.threads[q].pc.a == a;
      assert ThreadOk(st, q);
    }
  }

  lemma CompareKeepsInv(st: State, p: nat)
    requires Inv(st) && Enabled(st, p, Compare)
    ensures Inv(Next(st, p, Compare))
  {
    if st.scan.i < |st.replaced| && st.scan.j == |st.hp| {
      FreeKeepsInv(st, p);
    } else {
      var st' := Next(st, p, Compare);
      forall q | 0 <= q < |st.threads| ensures ThreadOk(st', q) && NotPassed(st', q) {
        assert ThreadOk(st, q) && NotPassed(st, q);
      }
      forall a ensures Pending(st, a) <==> Pending(st', a) {
        if Pending(st, a) {
          var q :| 0 <= q < |st.threads| && st.threads[q].pc.Replaced? && st.threads[q].pc.a == a;
          assert st'.threads[q].pc == st.threads[q].pc;
        }
      }
      forall q, r | 0 <= q < r < |st.threads| ensures DifferentNodes(st'.threads[q], st'.threads[r]) {
        assert DifferentNodes(st.threads[q], st.threads[r]);
      }
    }
  }

  lemma InstallKeepsInv(st: State, p: nat, a: Address)
    requires Inv(st) && Enabled(st, p, Install(a))
    ensures Inv(Next(st, p, Install(a)))
  {
    var st' := Next(st, p, Install(a));
    assert ThreadOk(st, p);
    forall q | 0 <= q < |st.threads| ensures ThreadOk(st', q) && NotPassed(st', q) {
      assert ThreadOk(st, q) && NotPassed(st, q);
    }
    forall x ensures Pending(st', x) <==> Pending(st, x) || x == st.cur {
      if Pending(st, x) {
        var q :| 0 <= q < |st.threads| && st.threads[q].pc.Replaced? && st.threads[q].pc.a == x;
        assert st'.threads[q].pc == st.threads[q].pc;
      }
      if x == st.cur { assert st'.threads[p].pc.a == x; }
    }
    forall q, r | 0 <= q < r < |st.threads| ensures DifferentNodes(st'.threads[q], st'.threads[r]) {
      assert ThreadOk(st, q) && ThreadOk(st, r) && DifferentNodes(st.threads[q], st.threads[r]);
    }
  }

  lemma DeleteKeepsInv(st: State, p: nat)
    requires Inv(st) && Enabled(st, p, Delete)
    ensures Inv(Next(st, p, Delete))
  {
    var st' := Next(st, p, Delete);
    var was := st.threads[p].pc.a;
    assert ThreadOk(st, p);
    forall q | 0 <= q < |st.threads| ensures ThreadOk(st', q) && NotPassed(st', q) {
      assert ThreadOk(st, q) && ThreadOk(st, p);
      if q < p { assert DifferentNodes(st.threads[q], st.threads[p]); }
      if p < q { assert DifferentNodes(st.threads[p], st.threads[q]); }
    }
    forall x ensures Pending(st, x) <==> Pending(st', x) || x == was {
      if Pending(st, x) && x != was {
        var q :| 0 <= q < |st.threads| && st.threads[q].pc.Replaced? && st.threads[q].pc.a == x;
        assert st'.threads[q].pc == st.threads[q].pc;
      }
    }
    forall q, r | 0 <= q < r < |st.threads| ensures DifferentNodes(st'.threads[q], st'.threads[r]) {
      assert DifferentNodes(st.threads[q], st.threads[r]);
    }
  }

  /** A turn that touches neither the tables nor the scan. */
  lemma LocalKeepsInv(st: State, p: nat, act: Action)
    requires Inv(st) && Enabled(st, p, act) && !act.Compare? && !act.Install? && !act.Delete?
    ensures Inv(Next(st, p, act))
  {
    var st' := Next(st, p, act);
    assert ThreadOk(st, p);
    forall q | 0 <= q < |st.threads| ensures ThreadOk(st', q) && NotPassed(st', q) {
      assert ThreadOk(st, q) && NotPassed(st, q);
      if q < p { assert DifferentNodes(st.threads[q], st.threads[p]); }
      if p < q { assert DifferentNodes(st.threads[p], st.threads[q]); }
    }
    forall x ensures Pending(st, x) <==> Pending(st', x) {
      if Pending(st, x) {
        var q :| 0 <= q < |st.threads| && st.threads[q].pc.Replaced? && st.threads[q].pc.a == x;
        assert st'.threads[q].pc == st.threads[q].pc;
      }
    }
    forall q, r | 0 <= q < r < |st.threads| ensures DifferentNodes(st'.threads[q], st'.threads[r]) {
      assert DifferentNodes(st.threads[q], st.threads[r]) && ThreadOk(st, q) && ThreadOk(st, r);
    }
  }

  lemma NextKeepsInv(st: State, p: nat, act: Action)
    requires Inv(st) && Enabled(st, p, act)
    ensures Inv(Next(st, p, act))
  {
    match act
    case Compare => CompareKeepsInv(st, p);
    case Install(a) => InstallKeepsInv(st, p, a);
    case Delete => DeleteKeepsInv(st, p);
    case _ => LocalKeepsInv(st, p, act);
  }

  // ---- runs ----------------------------------------------------------------

  type Run = seq<(nat, Action)>

  ghost predicate IsRun(st: State, run: Run)
    decreases |run|
  {
    |run| > 0 ==> Enabled(st, run[0].0, run[0].1) && IsRun(Next(st, run[0].0, run[0].1), run[1..])
  }

  function EndOf(st: State, run: Run): State
    requires IsRun(st, run)
    decreases |run|
  {
    if run == [] then st else EndOf(Next(st, run[0].0, run[0].1), run[1..])
  }

  /** A new map: one table, no thread has used it yet. */
  predicate Initial(st: State) {
    && st.cur != NULL && st.mem == map[st.cur := 0] && st.allocations == 1
    && st.hp == [] && st.replaced == [] && st.scan == NoScan
    && forall p | 0 <= p < |st.threads| :: st.threads[p] == ThreadState(None, Out)
  }

  lemma {:induction false} RunKeepsInv(st: State, run: Run)
    requires Inv(st) && IsRun(st, run)
    ensures Inv(EndOf(st, run))
    decreases |run|
  {
    if run != [] {
      NextKeepsInv(st, run[0].0, run[0].1);
      RunKeepsInv(Next(st, run[0].0, run[0].1), run[1..]);
    }
  }

  /** From the re-check until the thread clears or overwrites its hazard pointer,
      the table it checked is live, and is still the one it checked although
      addresses are used again. */
  lemma CheckedTablesStayLive(st: State, run: Run, p: nat)
    requires Initial(st) && IsRun(st, run) && p < |st.threads|
    ensures var end := EndOf(st, run);
            && p < |end.threads|
            && (Relies(end.threads[p].pc) ==>
                 end.threads[p].pc.a in end.mem && end.mem[end.threads[p].pc.a] == end.threads[p].pc.gen)
  {
    InitialIsOk(st);
    RunKeepsInv(st, run);
    SameThreads(st, run);
    assert ThreadOk(EndOf(st, run), p);
  }

  /** At every instant of every run the live tables are exactly the current one,
      those on the list, and those about to be put there, and each is in one
      place only: none is leaked, none is freed twice. */
  lemma NoTableIsLost(st: State, run: Run, a: Address)
    requires Initial(st) && IsRun(st, run)
    ensures var end := EndOf(st, run);
            && (a in end.mem <==> a == end.cur || a in end.replaced || Pending(end, a))
            && (a == end.cur ==> a !in end.replaced)
            && (Pending(end, a) ==> a != end.cur && a !in end.replaced)
            && (forall i, j | 0 <= i < j < |end.replaced| :: end.replaced[i] != end.replaced[j])
  {
    InitialIsOk(st);
    RunKeepsInv(st, run);
    var end := EndOf(st, run);
    if Pending(end, a) {
      var p :| 0 <= p < |end.threads| && end.threads[p].pc.Replaced? && end.threads[p].pc.a == a;
      assert ThreadOk(end, p);
    }
  }

  lemma InitialIsOk(st: State)
    requires Initial(st)
    ensures Inv(st)
  {
    forall p | 0 <= p < |st.threads| ensures ThreadOk(st, p) && NotPassed(st, p) {}
  }

  lemma {:induction false} SameThreads(st: State, run: Run)
    requires IsRun(st, run)
    ensures |EndOf(st, run).threads| == |st.threads|
    decreases |run|
  {
    if run != [] { SameThreads(Next(st, run[0].0, run[0].1), run[1..]); }
  }
}
