/** Bounded interference on the lock-free bucket: every operation changes the
    snapshot word at most twice, and each of its failed swaps is paid for by a
    change that another operation made during it. */
module LockFreeBucketCounts {
  import opened LockFreeBucket
  import opened LockFreeBucketSafety
  import opened LockFreeBucketRuns
  import opened Sums

  /** The next swap of `o` is bound to fail. */
  function Doomed(b: Bucket, o: OpOk): nat {
    if InWindow(o) && b.Snapshot() != Expected(o) then 1 else 0
  }

  /** How often an operation has changed the word so far, at most. */
  function Allowance(o: OpOk): nat {
    match o.kind
    case Get => 0
    case Put => if o.pc == Done then 2 else if Owns(o) then 1 else 0
    case Remove => if o.pc == Done then 1 else 0
  }

  ghost predicate CountOk(st: State, o: OpOk) {
    && o.mine <= Allowance(o)
    && o.base + o.mine + o.fails + Doomed(st.b, o) <= st.changes
  }

  function Mines(ops: seq<OpOk>): seq<nat> {
    seq(|ops|, i requires 0 <= i < |ops| => ops[i].mine)
  }

  function Fails(ops: seq<OpOk>): seq<nat> {
    seq(|ops|, i requires 0 <= i < |ops| => ops[i].fails)
  }

  ghost predicate CountInv(st: State) {
    && (forall p | 0 <= p < |st.ops| :: CountOk(st, st.ops[p]))
    && st.changes == Sum(Mines(st.ops))
  }

  /** A turn counts a change of the word exactly when it makes one. */
  lemma ActCountsChanges(b: Bucket, p: nat, o: OpOk)
    requires LocalOk(b, p, o) && o.mine <= Allowance(o)
    ensures var (b', o') := Act(b, p, o);
            && o'.mine == o.mine + (if b'.Snapshot() == b.Snapshot() then 0 else 1)
            && o'.mine <= Allowance(o')
  {
  }

  /** It counts a failed swap only when the word was not the expected one. */
  lemma ActCountsFailures(b: Bucket, p: nat, o: OpOk)
    requires LocalOk(b, p, o)
    ensures var (b', o') := Act(b, p, o);
            o'.fails + Doomed(b', o') <= o.fails + Doomed(b, o)
  {
    if Searching(o) && o.idx >= 0 && o.kind.Put? {
      assert o.snap.marks[o.idx := Insrt] == o.snap.marks;
    }
  }

  lemma TurnKeepsCounts(st: State, p: nat)
    requires Inv(st) && CountInv(st) && p < |st.ops|
    ensures CountInv(Turn(st, p))
  {
    var st' := Turn(st, p);
    var o := st.ops[p];
    assert LocalOk(st.b, p, o) && CountOk(st, o);
    ActCountsChanges(st.b, p, o);
    ActCountsFailures(st.b, p, o);
    ActKeepsCall(st.b, p, o);
    forall q | 0 <= q < |st'.ops| ensures CountOk(st', st'.ops[q]) {
      assert CountOk(st, st.ops[q]);
      if q == p {
        assert Doomed(st'.b, st'.ops[p]) == Doomed(st'.b, Act(st.b, p, o).1);
      }
    }
    assert Mines(st'.ops) == Mines(st.ops)[p := st'.ops[p].mine];
    SumUpdate(Mines(st.ops), p, st'.ops[p].mine);
  }

  lemma {:induction false} RunKeepsCounts(run: seq<State>, t: nat)
    requires IsRun(run) && t < |run|
    ensures CountInv(run[t])
  {
    if t > 0 {
      var (a, b) := (run[t - 1], run[t]);
      assert StepOf(a, b);
      var e :| Legal(a, e) && b == After(a, e);
      RunKeepsCounts(run, t - 1);
      RunKeepsInv(run, t - 1);
      match e
      case Next(p) => TurnKeepsCounts(a, p);
      case Invoke(kind, key, val) =>
        assert forall p | 0 <= p < |a.ops| :: CountOk(a, a.ops[p]);
        assert Mines(b.ops)[..|a.ops|] == Mines(a.ops);
    }
  }

  /** Operation p was called in the step that led to run[s]. */
  predicate CalledAt(run: seq<State>, p: nat, s: nat) {
    0 < s < |run| && |run[s - 1].ops| <= p < |run[s].ops|
  }

  lemma CallSetsBase(a: State, b: State, p: nat)
    requires StepOf(a, b) && |a.ops| <= p < |b.ops|
    ensures b.ops[p].base == b.changes
  {
    var e :| Legal(a, e) && b == After(a, e);
    match e
    case Invoke(kind, key, val) => assert b.ops[p] == Invocation(a.b, kind, key, val, a.changes);
    case Next(q) =>
  }

  lemma {:induction false} BaseIsAtCall(run: seq<State>, p: nat, t: nat) returns (s: nat)
    requires IsRun(run) && t < |run| && p < |run[t].ops|
    ensures s <= t && CalledAt(run, p, s) && run[t].ops[p].base == run[s].changes
  {
    hide StepOf, Calm;
    assert StepOf(run[t - 1], run[t]);
    if p < |run[t - 1].ops| {
      StepKeepsCall(run[t - 1], run[t], p);
      s := BaseIsAtCall(run, p, t - 1);
    } else {
      CallSetsBase(run[t - 1], run[t], p);
      s := t;
    }
  }

  /** At every instant up to its end, the failed swaps of a call number at most
      the changes of the word that other operations made since it was called,
      and the call itself has changed the word at most twice. */
  lemma FailuresArePaidFor(run: seq<State>, p: nat, t: nat)
    requires IsRun(run) && t < |run| && p < |run[t].ops|
    ensures run[t].ops[p].mine <= 2
    ensures exists s: nat :: s <= t && CalledAt(run, p, s)
                             && run[t].ops[p].fails <= run[t].changes - run[s].changes - run[t].ops[p].mine
  {
    RunKeepsCounts(run, t);
    var s := BaseIsAtCall(run, p, t);
    assert CountOk(run[t], run[t].ops[p]);
  }

  /** M calls change the word at most 2M times and fail at most 2M^2 swaps in
      all, however they are interleaved. */
  lemma TotalFailuresBounded(run: seq<State>, t: nat)
    requires IsRun(run) && t < |run|
    ensures run[t].changes <= |run[t].ops| * 2
    ensures Sum(Fails(run[t].ops)) <= |run[t].ops| * (|run[t].ops| * 2)
  {
    var ops := run[t].ops;
    RunKeepsCounts(run, t);
    forall p | 0 <= p < |ops| ensures Mines(ops)[p] <= 2 { FailuresArePaidFor(run, p, t); }
    SumBound(Mines(ops), 2);
    forall p | 0 <= p < |ops| ensures Fails(ops)[p] <= |ops| * 2 { FailuresArePaidFor(run, p, t); }
    SumBound(Fails(ops), |ops| * 2);
  }
}
