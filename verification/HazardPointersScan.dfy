/** What one delete_unused frees, while other threads move their hazard
    pointers: exactly the tables it has not met in a hazard pointer. */
module HazardPointersScan {
  import opened HazardPointers

  // ---- a whole scan --------------------------------------------------------

  /** The run begins within a scan, and its last turn ends the scan. */
  ghost predicate Scanning(st: State, run: Run)
    decreases |run|
  {
    && |run| > 0 && st.scan.At? && Enabled(st, run[0].0, run[0].1)
    && var st' := Next(st, run[0].0, run[0].1);
       if |run| == 1 then st'.scan == NoScan else Scanning(st', run[1..])
  }

  function AtEnd(st: State, run: Run): State
    requires Scanning(st, run)
    decreases |run|
  {
    var st' := Next(st, run[0].0, run[0].1);
    if |run| == 1 then st' else AtEnd(st', run[1..])
  }

  lemma {:induction false} ScanIsRun(st: State, run: Run)
    requires Scanning(st, run)
    ensures IsRun(st, run) && EndOf(st, run) == AtEnd(st, run)
    decreases |run|
  {
    if |run| > 1 { ScanIsRun(Next(st, run[0].0, run[0].1), run[1..]); } else { assert run[1..] == []; }
  }

  /** A comparison that finds table a in the hazard pointer it looks at. */
  predicate Finds(st: State, act: Action, a: Address) {
    && act.Compare? && st.scan.At? && st.scan.i < |st.replaced| && st.scan.j < |st.hp|
    && st.replaced[st.scan.i] == a && st.hp[st.scan.j] == a
  }

  /** Some comparison of the scan does. */
  ghost predicate Met(st: State, run: Run, a: Address)
    requires Scanning(st, run)
    decreases |run|
  {
    Finds(st, run[0].1, a) || (|run| > 1 && Met(Next(st, run[0].0, run[0].1), run[1..], a))
  }

  /** Table a is in no hazard pointer in any state of the scan. */
  ghost predicate Unannounced(st: State, run: Run, a: Address)
    requires Scanning(st, run)
    decreases |run|
  {
    a !in st.hp && (|run| > 1 ==> Unannounced(Next(st, run[0].0, run[0].1), run[1..], a))
  }

  /** Table a is in hazard pointer h in all of them. */
  ghost predicate Held(st: State, run: Run, a: Address, h: nat)
    requires Scanning(st, run)
    decreases |run|
  {
    h < |st.hp| && st.hp[h] == a && (|run| > 1 ==> Held(Next(st, run[0].0, run[0].1), run[1..], a, h))
  }

  // ---- what becomes of one table -------------------------------------------

  /** Every live table was made by an allocation that has happened. */
  ghost predicate Numbered(st: State) {
    forall a | a in st.mem :: st.mem[a] < st.allocations
  }

  /** The allocation of table a that made it generation gen is live. */
  predicate Live(st: State, a: Address, gen: nat) {
    a in st.mem && st.mem[a] == gen
  }

  /** It has been freed; the address may be in use again. */
  ghost predicate Freed(st: State, a: Address, gen: nat) {
    a !in st.replaced && !Live(st, a, gen) && gen < st.allocations
  }

  ghost predicate Waits(st: State, a: Address) {
    st.scan.At? && st.scan.i <= |st.replaced| && a in st.replaced[st.scan.i..]
  }

  ghost predicate Kept(st: State, a: Address) {
    a in st.replaced && (st.scan.At? ==> st.scan.i <= |st.replaced| && a in st.replaced[..st.scan.i])
  }

  lemma CompareDecides(st: State, p: nat, a: Address, gen: nat)
    requires Inv(st) && Numbered(st) && Enabled(st, p, Compare) && Waits(st, a) && Live(st, a, gen)
    ensures var st' := Next(st, p, Compare);
            if Finds(st, Compare, a) then Kept(st', a) && Live(st', a, gen)
            else Freed(st', a, gen) || (Waits(st', a) && Live(st', a, gen))
  {
    hide ThreadOk, NotPassed, DifferentNodes, Pending;
    var st' := Next(st, p, Compare);
    var At(i, j) := st.scan;
    var x: nat :| x < |st.replaced[i..]| && st.replaced[i..][x] == a;
    assert st.replaced[i + x] == a;
    if j == |st.hp| {
      Without(st.replaced, i, a);
      if x > 0 { assert st'.replaced[i..][x - 1] == a; }
    } else if st.hp[j] == st.replaced[i] {
      if x > 0 { assert st'.replaced[i + 1..][x - 1] == a; } else { assert st'.replaced[..i + 1][i] == a; }
    }
  }

  /** What a turn of a scan does to a table that is on the list: it keeps it when
      it finds it, frees it after the last hazard pointer, and otherwise leaves it
      to be looked at. */
  lemma TurnDecides(st: State, p: nat, act: Action, a: Address, gen: nat)
    requires Inv(st) && Numbered(st) && Enabled(st, p, act) && Waits(st, a) && Live(st, a, gen)
    ensures var st' := Next(st, p, act);
            if Finds(st, act, a) then Kept(st', a) && Live(st', a, gen)
            else Freed(st', a, gen) || (Waits(st', a) && Live(st', a, gen))
  {
    if act.Compare? { CompareDecides(st, p, a, gen); }
  }

  lemma FreedStays(st: State, p: nat, act: Action, a: Address, gen: nat)
    requires Inv(st) && Enabled(st, p, act) && st.scan.At? && Freed(st, a, gen)
    ensures Freed(Next(st, p, act), a, gen) && !Finds(st, act, a)
  {
  }

  lemma KeptStays(st: State, p: nat, act: Action, a: Address, gen: nat)
    requires Inv(st) && Enabled(st, p, act) && st.scan.At? && Kept(st, a) && Live(st, a, gen)
    ensures Kept(Next(st, p, act), a) && Live(Next(st, p, act), a, gen)
  {
    var i := st.scan.i;
    var x: nat :| x < i && st.replaced[x] == a;
    var st' := Next(st, p, act);
    assert st'.replaced[x] == a;
    if st'.scan.At? { assert st'.replaced[..st'.scan.i][x] == a; }
  }

  lemma NextKeepsNumbers(st: State, p: nat, act: Action)
    requires Numbered(st) && Enabled(st, p, act)
    ensures Numbered(Next(st, p, act))
  {
  }

  lemma {:induction false} FreedForGood(st: State, run: Run, a: Address, gen: nat)
    requires Inv(st) && Scanning(st, run) && Freed(st, a, gen)
    ensures Freed(AtEnd(st, run), a, gen) && !Met(st, run, a)
    decreases |run|
  {
    var (p, act) := run[0];
    FreedStays(st, p, act, a, gen);
    if |run| > 1 {
      NextKeepsInv(st, p, act);
      FreedForGood(Next(st, p, act), run[1..], a, gen);
    }
  }

  lemma {:induction false} KeptForGood(st: State, run: Run, a: Address, gen: nat)
    requires Inv(st) && Scanning(st, run) && Kept(st, a) && Live(st, a, gen)
    ensures a in AtEnd(st, run).replaced && Live(AtEnd(st, run), a, gen)
    decreases |run|
  {
    var (p, act) := run[0];
    KeptStays(st, p, act, a, gen);
    if |run| > 1 {
      NextKeepsInv(st, p, act);
      KeptForGood(Next(st, p, act), run[1..], a, gen);
    }
  }

  lemma {:induction false} ScanDecides(st: State, run: Run, a: Address, gen: nat)
    requires Inv(st) && Numbered(st) && Scanning(st, run) && Waits(st, a) && Live(st, a, gen)
    ensures var end := AtEnd(st, run);
            if Met(st, run, a) then a in end.replaced && Live(end, a, gen) else Freed(end, a, gen)
    decreases |run|
  {
    var (p, act) := run[0];
    var st' := Next(st, p, act);
    TurnDecides(st, p, act, a, gen);
    if |run| > 1 {
      NextKeepsInv(st, p, act);
      NextKeepsNumbers(st, p, act);
      if Finds(st, act, a) {
        KeptForGood(st', run[1..], a, gen);
      } else if Freed(st', a, gen) {
        FreedForGood(st', run[1..], a, gen);
      } else {
        ScanDecides(st', run[1..], a, gen);
      }
    }
  }

  /** Thread p puts the table it has replaced on the list and scans.  A table on
      the list is still there, and still the same allocation, exactly if the scan
      has found it in a hazard pointer; otherwise it has been freed. */
  lemma FreedUnlessMet(st: State, p: nat, run: Run, a: Address)
    requires Inv(st) && Numbered(st) && Enabled(st, p, Delete) && Scanning(Next(st, p, Delete), run)
    requires a in Next(st, p, Delete).replaced
    ensures var (start, end) := (Next(st, p, Delete), AtEnd(Next(st, p, Delete), run));
            && a in start.mem
            && if Met(start, run, a) then a in end.replaced && Live(end, a, start.mem[a]) else Freed(end, a, start.mem[a])
  {
    var start := Next(st, p, Delete);
    NextKeepsInv(st, p, Delete);
    assert start.replaced[0..] == start.replaced;
    ScanDecides(start, run, a, start.mem[a]);
  }

  /** A table that no thread announces during the scan is freed. */
  lemma UnannouncedIsFreed(st: State, p: nat, run: Run, a: Address)
    requires Inv(st) && Numbered(st) && Enabled(st, p, Delete) && Scanning(Next(st, p, Delete), run)
    requires a in Next(st, p, Delete).replaced && Unannounced(Next(st, p, Delete), run, a)
    ensures var (start, end) := (Next(st, p, Delete), AtEnd(Next(st, p, Delete), run));
            a in start.mem && Freed(end, a, start.mem[a])
  {
    FreedUnlessMet(st, p, run, a);
    UnannouncedIsNotMet(Next(st, p, Delete), run, a);
  }

  lemma {:induction false} UnannouncedIsNotMet(st: State, run: Run, a: Address)
    requires Scanning(st, run) && Unannounced(st, run, a)
    ensures !Met(st, run, a)
    decreases |run|
  {
    if |run| > 1 { UnannouncedIsNotMet(Next(st, run[0].0, run[0].1), run[1..], a); }
  }

  /** A table that a hazard pointer holds throughout the scan is kept. */
  lemma HeldIsKept(st: State, p: nat, run: Run, a: Address, h: nat)
    requires Inv(st) && Numbered(st) && Enabled(st, p, Delete) && Scanning(Next(st, p, Delete), run)
    requires a in Next(st, p, Delete).replaced && Held(Next(st, p, Delete), run, a, h)
    ensures var (start, end) := (Next(st, p, Delete), AtEnd(Next(st, p, Delete), run));
            a in start.mem && a in end.replaced && Live(end, a, start.mem[a])
  {
    var start := Next(st, p, Delete);
    FreedUnlessMet(st, p, run, a);
    NextKeepsInv(st, p, Delete);
    assert start.replaced[0..] == start.replaced;
    HeldIsMet(start, run, a, h);
  }

  lemma {:induction false} HeldIsMet(st: State, run: Run, a: Address, h: nat)
    requires Inv(st) && Scanning(st, run) && Held(st, run, a, h) && Waits(st, a)
    requires st.scan.i < |st.replaced| && st.replaced[st.scan.i] == a ==> st.scan.j <= h
    ensures Met(st, run, a)
    decreases |run|
  {
    var (p, act) := run[0];
    var st' := Next(st, p, act);
    if !Finds(st, act, a) {
      HeldWaits(st, p, act, a, h);
      NextKeepsInv(st, p, act);
      HeldIsMet(st', run[1..], a, h);
    }
  }

  lemma HeldWaits(st: State, p: nat, act: Action, a: Address, h: nat)
    requires Inv(st) && Enabled(st, p, act) && Waits(st, a) && !Finds(st, act, a) && h < |st.hp| && st.hp[h] == a
    requires st.scan.i < |st.replaced| && st.replaced[st.scan.i] == a ==> st.scan.j <= h
    ensures var st' := Next(st, p, act);
            Waits(st', a) && (st'.scan.i < |st'.replaced| && st'.replaced[st'.scan.i] == a ==> st'.scan.j <= h)
  {
    var st' := Next(st, p, act);
    var At(i, j) := st.scan;
    if act.Compare? {
      var x: nat :| x < |st.replaced[i..]| && st.replaced[i..][x] == a;
      assert st.replaced[i + x] == a;
      if j == |st.hp| {
        assert st'.replaced[i..][x - 1] == a;
      } else if st.hp[j] == st.replaced[i] {
        assert st'.replaced[i + 1..][x - 1] == a;
      }
    }
  }

  // ---- a scan ends ---------------------------------------------------------

  predicate Scans(st: State, p: nat) {
    p < |st.threads| && st.threads[p].pc.Deleting?
  }

  /** One thread scans, and only while the mutex is taken. */
  ghost predicate OneScanner(st: State) {
    && (st.scan.At? <==> exists p :: Scans(st, p))
    && (forall p, q | Scans(st, p) && Scans(st, q) :: p == q)
  }

  lemma NextKeepsScanner(st: State, p: nat, act: Action)
    requires OneScanner(st) && Enabled(st, p, act)
    ensures OneScanner(Next(st, p, act))
  {
    var st' := Next(st, p, act);
    forall q ensures Scans(st', q) ==> Scans(st, q) || (q == p && act.Delete?) {}
    if st.scan.At? {
      var q :| Scans(st, q);
      if !act.Compare? || st'.scan.At? { assert Scans(st', q); } else { assert Scans(st, p); }
    }
    if act.Delete? { assert Scans(st', p); }
  }

  /** The scanner can always take its next turn. */
  lemma ScannerCanGo(st: State) returns (p: nat)
    requires Inv(st) && OneScanner(st) && st.scan.At?
    ensures Enabled(st, p, Compare)
  {
    p :| Scans(st, p);
  }

  /** How many turns of its own a scan needs at most. */
  function ScanLeft(st: State): nat
    requires st.scan.At? ==> st.scan.i <= |st.replaced| && st.scan.j <= |st.hp|
  {
    if st.scan.At? then (|st.replaced| - st.scan.i) * (|st.hp| + 1) + (|st.hp| - st.scan.j) + 1 else 0
  }

  lemma TurnOfScan(st: State, p: nat, act: Action)
    requires Inv(st) && Enabled(st, p, act) && st.scan.At? && Inv(Next(st, p, act))
    ensures ScanLeft(Next(st, p, act)) + (if act.Compare? then 1 else 0) <= ScanLeft(st)
  {
    if act.Compare? && st.scan.i < |st.replaced| {
      var (n, m) := (|st.replaced| - st.scan.i, |st.hp| + 1);
      assert (n - 1) * m == n * m - m;
    }
  }

  function Compares(run: Run): nat {
    if run == [] then 0 else (if run[0].1.Compare? then 1 else 0) + Compares(run[1..])
  }

  /** Every state of the run but the last is within the scan. */
  ghost predicate Within(st: State, run: Run)
    requires IsRun(st, run)
    decreases |run|
  {
    run != [] ==> st.scan.At? && Within(Next(st, run[0].0, run[0].1), run[1..])
  }

  /** A scan that begins with r tables on the list ends, whatever the others do,
      within (r + 1) * (h + 1) comparisons with the h hazard pointers. */
  lemma ScanEnds(st: State, p: nat, run: Run)
    requires Inv(st) && Enabled(st, p, Delete) && IsRun(Next(st, p, Delete), run) && Within(Next(st, p, Delete), run)
    ensures Compares(run) <= (|Next(st, p, Delete).replaced| + 1) * (|st.hp| + 1)
  {
    NextKeepsInv(st, p, Delete);
    var (n, m) := (|Next(st, p, Delete).replaced|, |st.hp| + 1);
    ComparesAreFew(Next(st, p, Delete), run);
    assert (n + 1) * m == n * m + m;
  }

  lemma {:induction false} ComparesAreFew(st: State, run: Run)
    requires Inv(st) && IsRun(st, run) && Within(st, run)
    ensures Compares(run) <= ScanLeft(st)
    decreases |run|
  {
    if run != [] {
      var (p, act) := run[0];
      NextKeepsInv(st, p, act);
      TurnOfScan(st, p, act);
      ComparesAreFew(Next(st, p, act), run[1..]);
    }
  }

  lemma {:induction false} RunKeepsScanner(st: State, run: Run)
    requires OneScanner(st) && Numbered(st) && IsRun(st, run)
    ensures OneScanner(EndOf(st, run)) && Numbered(EndOf(st, run))
    decreases |run|
  {
    if run != [] {
      NextKeepsScanner(st, run[0].0, run[0].1);
      NextKeepsNumbers(st, run[0].0, run[0].1);
      RunKeepsScanner(Next(st, run[0].0, run[0].1), run[1..]);
    }
  }

  /** The conditions of these results hold in every run. */
  lemma ScannerInRuns(st: State, run: Run)
    requires HazardPointers.Initial(st) && IsRun(st, run)
    ensures Inv(EndOf(st, run)) && OneScanner(EndOf(st, run)) && Numbered(EndOf(st, run))
  {
    InitialIsOk(st);
    RunKeepsInv(st, run);
    forall p ensures !Scans(st, p) {}
    RunKeepsScanner(st, run);
  }

  // ---- a check that is left alone ------------------------------------------

  /** A thread that loads, announces and checks the table while nobody replaces
      it may use it and has announced it; when it leaves, its pointer is clear. */
  lemma CheckSucceeds(st: State, p: nat)
    requires Inv(st) && Enabled(st, p, Load)
    ensures Enabled(Next(st, p, Load), p, Announce)
    ensures var st' := Next(Next(st, p, Load), p, Announce);
            && Enabled(st', p, Recheck)
            && var end := Next(st', p, Recheck);
               && end.threads[p].pc == Using(st.cur, st.mem[st.cur])
               && end.threads[p].node.Some? && end.hp[end.threads[p].node.value] == st.cur
               && Enabled(end, p, Leave)
               && Next(end, p, Leave) == st.(hp := st.hp[st.threads[p].node.value := NULL])
  {
    assert ThreadOk(st, p);
    var end := Next(Next(Next(Next(st, p, Load), p, Announce), p, Recheck), p, Leave);
    assert end.threads == st.threads && end.hp == st.hp[st.threads[p].node.value := NULL];
  }

  // ---- a table announced now here, now there -------------------------------

  /** Table a is in some hazard pointer in every state of the scan. */
  ghost predicate SomewhereHeld(st: State, run: Run, a: Address)
    requires Scanning(st, run)
    decreases |run|
  {
    a in st.hp && (|run| > 1 ==> SomewhereHeld(Next(st, run[0].0, run[0].1), run[1..], a))
  }

  lemma OneMore(st: State, run: Run, p: nat, act: Action) returns (longer: Run)
    requires IsRun(st, run) && Enabled(EndOf(st, run), p, act)
    ensures IsRun(st, longer) && EndOf(st, longer) == Next(EndOf(st, run), p, act)
    decreases |run|
  {
    if run == [] {
      longer := [(p, act)];
      assert longer[1..] == [];
    } else {
      var rest := OneMore(Next(st, run[0].0, run[0].1), run[1..], p, act);
      longer := [run[0]] + rest;
      assert longer[1..] == rest;
    }
  }

  lemma NoTurns(st: State) returns (run: Run)
    ensures IsRun(st, run) && EndOf(st, run) == st
  {
    run := [];
  }

  lemma Before(st: State, p: nat, act: Action, run: Run, a: Address) returns (longer: Run)
    requires Enabled(st, p, act) && st.scan.At? && a in st.hp
    requires Scanning(Next(st, p, act), run) && SomewhereHeld(Next(st, p, act), run, a)
    ensures Scanning(st, longer) && SomewhereHeld(st, longer, a) && AtEnd(st, longer) == AtEnd(Next(st, p, act), run)
  {
    longer := [(p, act)] + run;
    assert longer[1..] == run;
  }

  const FRESH := State(2, map[2 := 0], 1, [], [], NoScan,
                       [ThreadState(None, Out), ThreadState(None, Out), ThreadState(None, Out)])

  /** Thread 0 is about to delete table 1; table 2, which it replaced before, is on
      the list.  Thread 1 loaded table 2 while it was current; thread 2 has left it
      in its hazard pointer. */
  const STALE := State(3, map[2 := 0, 1 := 1, 3 := 2], 3, [1, 0, 2], [2], NoScan,
                       [ThreadState(Some(0), Replaced(1, 1)), ThreadState(Some(1), Loaded(2)), ThreadState(Some(2), Out)])

  /** In the middle of the next scan: the pointer of thread 1 has been looked at
      before it announced table 2, that of thread 2 not yet. */
  const MOVED := State(3, map[2 := 0, 1 := 1, 3 := 2], 3, [1, 2, 3], [2, 1], At(0, 2),
                       [ThreadState(Some(0), Deleting(1, 1)), ThreadState(Some(1), Announced(2)),
                        ThreadState(Some(2), Announced(3))])

  lemma RegisterAll() returns (run: Run)
    ensures IsRun(FRESH, run) && EndOf(FRESH, run) ==
            FRESH.(hp := [0, 0, 2],
                   threads := [ThreadState(Some(0), Out), ThreadState(Some(1), Loaded(2)), ThreadState(Some(2), Out)])
  {
    hide IsRun, EndOf;
    run := NoTurns(FRESH);
    run := OneMore(FRESH, run, 0, Register);
    run := OneMore(FRESH, run, 1, Register);
    run := OneMore(FRESH, run, 2, Register);
    run := OneMore(FRESH, run, 1, Load);
    run := OneMore(FRESH, run, 2, Load);
    run := OneMore(FRESH, run, 2, Announce);
    run := OneMore(FRESH, run, 2, Recheck);
    run := OneMore(FRESH, run, 2, Retry);
  }

  lemma ReplaceOnce() returns (run: Run)
    ensures IsRun(FRESH, run) && EndOf(FRESH, run) ==
            State(1, map[2 := 0, 1 := 1], 2, [2, 0, 2], [], NoScan,
                  [ThreadState(Some(0), Replaced(2, 0)), ThreadState(Some(1), Loaded(2)), ThreadState(Some(2), Out)])
  {
    hide IsRun, EndOf;
    run := RegisterAll();
    run := OneMore(FRESH, run, 0, Load);
    run := OneMore(FRESH, run, 0, Announce);
    run := OneMore(FRESH, run, 0, Recheck);
    run := OneMore(FRESH, run, 0, Install(1));
  }

  lemma KeepOnce() returns (run: Run)
    ensures IsRun(FRESH, run) && EndOf(FRESH, run) ==
            State(1, map[2 := 0, 1 := 1], 2, [2, 0, 2], [2], NoScan,
                  [ThreadState(Some(0), Using(2, 0)), ThreadState(Some(1), Loaded(2)), ThreadState(Some(2), Out)])
  {
    hide IsRun, EndOf;
    run := ReplaceOnce();
    run := OneMore(FRESH, run, 0, Delete);
    run := OneMore(FRESH, run, 0, Compare);
    run := OneMore(FRESH, run, 0, Compare);
  }

  lemma ReplaceTwice() returns (run: Run)
    ensures HazardPointers.Initial(FRESH) && IsRun(FRESH, run) && EndOf(FRESH, run) == STALE
  {
    hide IsRun, EndOf;
    run := KeepOnce();
    run := OneMore(FRESH, run, 0, Leave);
    run := OneMore(FRESH, run, 0, Load);
    run := OneMore(FRESH, run, 0, Announce);
    run := OneMore(FRESH, run, 0, Recheck);
    run := OneMore(FRESH, run, 0, Install(3));
  }

  /** The scan after thread 1 and 2 have moved their hazard pointers. */
  lemma ScanMisses() returns (run: Run)
    ensures Scanning(MOVED, run) && SomewhereHeld(MOVED, run, 2) && Freed(AtEnd(MOVED, run), 2, 0)
  {
    var s1 := Next(MOVED, 0, Compare);
    var s2 := Next(s1, 0, Compare);
    var s3 := Next(s2, 0, Compare);
    assert s2.hp == [1, 2, 3] && s2.hp[1] == 2;
    run := [(0, Compare)];
    run := Before(s2, 0, Compare, run, 2);
    run := Before(s1, 0, Compare, run, 2);
    run := Before(MOVED, 0, Compare, run, 2);
  }

  /** A table may be in some hazard pointer at every instant of a scan and yet be
      freed: thread 1 announces table 2 in a pointer that the scan has passed, and
      then thread 2 overwrites the one that the scan has yet to reach.  Neither
      has checked the table, so neither uses it. */
  lemma MovingAnnouncementIsMissed() returns (before: Run, run: Run)
    ensures HazardPointers.Initial(FRESH) && IsRun(FRESH, before) && EndOf(FRESH, before) == STALE
    ensures Enabled(STALE, 0, Delete) && Scanning(Next(STALE, 0, Delete), run)
    ensures 2 in Next(STALE, 0, Delete).replaced && SomewhereHeld(Next(STALE, 0, Delete), run, 2)
    ensures Freed(AtEnd(Next(STALE, 0, Delete), run), 2, 0)
  {
    before := ReplaceTwice();
    var s0 := Next(STALE, 0, Delete);
    assert s0.replaced == [2, 1];
    var s1 := Next(s0, 0, Compare);
    var s2 := Next(s1, 0, Compare);
    var s3 := Next(s2, 1, Announce);
    var s4 := Next(s3, 2, Load);
    assert Next(s4, 2, Announce) == MOVED;
    run := ScanMisses();
    run := Before(s4, 2, Announce, run, 2);
    run := Before(s3, 2, Load, run, 2);
    run := Before(s2, 1, Announce, run, 2);
    run := Before(s1, 0, Compare, run, 2);
    run := Before(s0, 0, Compare, run, 2);
  }
}
