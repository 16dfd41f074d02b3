/** What one call does to the lock-free bucket: a put or remove that succeeds
    changes the map in exactly one of its own turns, a call that fails in none,
    and a call that is left alone ends with the answer of a map. */
module LockFreeBucketCalls {
  import opened LockFreeBucket
  import opened LockFreeBucketSafety
  import opened LockFreeBucketRuns

  // ---- the events of a run -------------------------------------------------

  ghost predicate StepBy(run: seq<State>, es: seq<Event>, t: nat)
    requires t < |es| && t + 1 < |run|
  {
    Legal(run[t], es[t]) && run[t + 1] == After(run[t], es[t])
  }

  /** A run and the calls and turns it is made of. */
  ghost predicate RunBy(run: seq<State>, es: seq<Event>) {
    IsRun(run) && |es| + 1 == |run| && forall t | 0 <= t < |es| :: StepBy(run, es, t)
  }

  /** Every run has its events. */
  lemma {:induction false} RunHasEvents(run: seq<State>, n: nat) returns (es: seq<Event>)
    requires IsRun(run) && n < |run|
    ensures |es| == n && forall t | 0 <= t < n :: StepBy(run, es, t)
  {
    es := [];
    if n > 0 {
      var before := RunHasEvents(run, n - 1);
      assert StepOf(run[n - 1], run[n]);
      var e :| Legal(run[n - 1], e) && run[n] == After(run[n - 1], e);
      es := before + [e];
      forall t | 0 <= t < n ensures StepBy(run, es, t) {
        if t < n - 1 { assert StepBy(run, before, t); }
      }
    }
  }

  // ---- what was asked ------------------------------------------------------

  datatype Call = Call(kind: Kind, key: nat, val: nat)

  function CallOf(o: OpOk): Call {
    Call(o.kind, o.key, o.val)
  }

  /** The calls among the events. */
  function Asked(es: seq<Event>): seq<Call> {
    if es == [] then []
    else
      var e := es[|es| - 1];
      Asked(es[..|es| - 1]) + (if e.Invoke? then [Call(e.kind, e.key, e.val)] else [])
  }

  /** At every instant operation p is the p-th call, with the arguments it was
      called with. */
  lemma {:induction false} OperationsAreCalls(run: seq<State>, es: seq<Event>, t: nat)
    requires RunBy(run, es) && t < |run|
    ensures |run[t].ops| == |Asked(es[..t])|
    ensures forall p | 0 <= p < |run[t].ops| :: CallOf(run[t].ops[p]) == Asked(es[..t])[p]
  {
    if t > 0 {
      OperationsAreCalls(run, es, t - 1);
      assert StepBy(run, es, t - 1) && es[..t][..t - 1] == es[..t - 1];
      var (a, b) := (run[t - 1], run[t]);
      match es[t - 1]
      case Invoke(kind, key, val) =>
      case Next(q) => ActKeepsCall(a.b, q, a.ops[q]);
    }
  }

  // ---- one effect for each success -----------------------------------------

  /** A put that has answered true, or a remove that has answered a value. */
  predicate Succeeded(o: OpOk) {
    o.pc == Done && !o.kind.Get? && o.result != 0
  }

  ghost predicate SameMap(b: Bucket, b': Bucket) {
    forall k: nat :: b'.Lookup(k) == b.Lookup(k)
  }

  /** A put of c's pair, or a remove of c's key that finds x, takes effect. */
  ghost predicate Effect(b: Bucket, b': Bucket, c: Call, x: nat) {
    && b.Lookup(c.key) == (if c.kind.Put? then 0 else x)
    && forall k: nat :: b'.Lookup(k) == if k != c.key then b.Lookup(k) else if c.kind.Put? then c.val else 0
  }

  ghost predicate MapStays(run: seq<State>, t: nat)
    requires t + 1 < |run|
  {
    SameMap(run[t].b, run[t + 1].b)
  }

  ghost predicate TakesEffect(run: seq<State>, t: nat, c: Call, x: nat)
    requires t + 1 < |run|
  {
    Effect(run[t].b, run[t + 1].b, c, x)
  }

  /** All turns of operation p before instant t, but for turn s, leave the map
      alone. */
  ghost predicate OnlyTurn(run: seq<State>, es: seq<Event>, p: nat, t: nat, s: int)
    requires t < |run| && |es| + 1 == |run|
  {
    forall u: nat | u < t && u != s && es[u] == Next(p) :: MapStays(run, u)
  }

  /** A call ends in success exactly with the swap that changes the map. */
  lemma TurnSucceeds(st: State, p: nat)
    requires Inv(st) && Calm(st) && p < |st.ops| && st.ops[p].pc != Done
    ensures var (o, o') := (st.ops[p], Turn(st, p).ops[p]);
            Succeeded(o') <==> Validates(st.b, o) || Removes(st.b, o)
    ensures Validates(st.b, st.ops[p]) ==> st.ops[p].kind.Put? && Turn(st, p).ops[p].result == 1
    ensures Removes(st.b, st.ops[p]) ==> st.ops[p].kind.Remove? && Turn(st, p).ops[p].result == st.ops[p].v
  {
    var o := st.ops[p];
    assert LocalOk(st.b, p, o);
    if Removes(st.b, o) { RemovingTakesPair(st, p, o.key); }
  }

  /** An operation that has ended or does not move stays as it is. */
  lemma OthersStay(st: State, p: nat, q: nat)
    requires p < |st.ops| && q < |st.ops| && (q != p || st.ops[p].pc == Done)
    ensures Turn(st, p).ops[q] == Observe(Turn(st, p).b, st.ops[q])
    ensures st.ops[p].pc == Done ==> Turn(st, p).b == st.b
  {
  }

  /** The turn in which an operation succeeds is the one that changes the map. */
  lemma TurnIsEffect(st: State, p: nat)
    requires Inv(st) && Calm(st) && p < |st.ops| && st.ops[p].pc != Done
    ensures var (st', o') := (Turn(st, p), Turn(st, p).ops[p]);
            && CallOf(o') == CallOf(st.ops[p])
            && if Succeeded(o') then Effect(st.b, st'.b, CallOf(o'), o'.result) && (o'.kind.Put? ==> o'.result == 1)
               else SameMap(st.b, st'.b)
  {
    hide Inv, Calm, Act;
    TurnSucceeds(st, p);
    ActKeepsCall(st.b, p, st.ops[p]);
    var (b, b', o') := (st.b, Turn(st, p).b, Turn(st, p).ops[p]);
    forall k: nat
      ensures b'.Lookup(k) == if !Succeeded(o') || k != o'.key then b.Lookup(k) else if o'.kind.Put? then o'.val else 0
    {
      TurnRefinesMap(st, p, k);
    }
    TurnRefinesMap(st, p, o'.key);
  }

  lemma OwnTurn(run: seq<State>, es: seq<Event>, p: nat, t: nat)
    requires RunBy(run, es) && t < |es| && es[t] == Next(p) && p < |run[t].ops| && run[t].ops[p].pc != Done
    ensures p < |run[t + 1].ops| && CallOf(run[t + 1].ops[p]) == CallOf(run[t].ops[p])
    ensures var o := run[t + 1].ops[p];
            if Succeeded(o) then TakesEffect(run, t, CallOf(o), o.result) && (o.kind.Put? ==> o.result == 1) else MapStays(run, t)
  {
    hide Inv, Calm, Effect, SameMap, Act, Succeeded;
    assert StepBy(run, es, t);
    RunKeepsInv(run, t);
    TurnIsEffect(run[t], p);
  }

  /** A step that is not a turn of a call, or comes after its end, leaves it. */
  lemma CallStays(run: seq<State>, es: seq<Event>, p: nat, t: nat)
    requires RunBy(run, es) && t < |es| && p < |run[t].ops| && (es[t] == Next(p) ==> run[t].ops[p].pc == Done)
    ensures p < |run[t + 1].ops|
    ensures var (o, o') := (run[t].ops[p], run[t + 1].ops[p]);
            CallOf(o') == CallOf(o) && o'.pc == o.pc && o'.result == o.result
    ensures es[t] == Next(p) ==> MapStays(run, t)
  {
    hide Inv, Calm, Act;
    assert StepBy(run, es, t);
    if es[t].Next? { OthersStay(run[t], es[t].op, p); }
  }

  /** An operation takes no turn before it is called. */
  lemma {:induction false} NotCalledYet(run: seq<State>, es: seq<Event>, p: nat, t: nat)
    requires RunBy(run, es) && 0 < t < |run| && p >= |run[t - 1].ops|
    ensures forall u: nat | u < t :: es[u] != Next(p)
  {
    assert StepBy(run, es, t - 1);
    if t > 1 {
      assert StepBy(run, es, t - 2);
      NotCalledYet(run, es, p, t - 1);
    }
  }

  lemma FreshCall(run: seq<State>, es: seq<Event>, p: nat, t: nat)
    requires RunBy(run, es) && t < |run| && p < |run[t].ops| && (t > 0 ==> p >= |run[t - 1].ops|)
    ensures !Succeeded(run[t].ops[p]) && OnlyTurn(run, es, p, t, -1)
  {
    if t > 0 {
      assert StepBy(run, es, t - 1);
      NotCalledYet(run, es, p, t);
    }
  }

  /** The effect of a call, by induction over the run. */
  lemma {:induction false} EffectOf(run: seq<State>, es: seq<Event>, p: nat, t: nat) returns (s: int)
    requires RunBy(run, es) && t < |run| && p < |run[t].ops|
    ensures OnlyTurn(run, es, p, t, s)
    ensures var o := run[t].ops[p];
            && (if !Succeeded(o) then s == -1
                else 0 <= s < t && es[s] == Next(p) && During(run, p, s) && TakesEffect(run, s, CallOf(o), o.result))
            && (Succeeded(o) && o.kind.Put? ==> o.result == 1)
  {
    hide After, Legal, IsRun, TakesEffect, MapStays;
    if t == 0 || p >= |run[t - 1].ops| {
      s := -1;
      FreshCall(run, es, p, t);
    } else {
      s := EffectOf(run, es, p, t - 1);
      if es[t - 1] == Next(p) && run[t - 1].ops[p].pc != Done {
        OwnTurn(run, es, p, t - 1);
        if Succeeded(run[t].ops[p]) { s := t - 1; }
      } else {
        CallStays(run, es, p, t - 1);
      }
    }
  }

  /** A put answers true exactly if one of its own turns, inside the call, maps
      its key, absent until then, to its value, and no other turn of it changes
      what any key is mapped to.  A remove answers a value x exactly if one of
      its turns takes its key, mapped to x until then, out of the map.  A call
      that has not ended or has answered anything else has changed nothing. */
  lemma SuccessIsOneChange(run: seq<State>, es: seq<Event>, p: nat, t: nat)
    requires RunBy(run, es) && t < |run| && p < |run[t].ops|
    ensures var o := run[t].ops[p];
            if Succeeded(o) then
              exists s: nat :: s < t && es[s] == Next(p) && During(run, p, s)
                               && TakesEffect(run, s, CallOf(o), o.result) && OnlyTurn(run, es, p, t, s)
            else OnlyTurn(run, es, p, t, -1)
    ensures Succeeded(run[t].ops[p]) && run[t].ops[p].kind.Put? ==> run[t].ops[p].result == 1
  {
    var s := EffectOf(run, es, p, t);
  }

  /** And every change of the map is the success of one call: the one whose turn
      it is ends with it. */
  lemma ChangesAreSuccesses(run: seq<State>, es: seq<Event>, t: nat)
    requires RunBy(run, es) && t < |es| && !MapStays(run, t)
    ensures es[t].Next? && During(run, es[t].op, t) && es[t].op < |run[t + 1].ops|
    ensures var o := run[t + 1].ops[es[t].op]; Succeeded(o) && TakesEffect(run, t, CallOf(o), o.result)
  {
    assert StepBy(run, es, t);
    if es[t].Next? && run[t].ops[es[t].op].pc != Done {
      OwnTurn(run, es, es[t].op, t);
    } else if es[t].Next? {
      OthersStay(run[t], es[t].op, es[t].op);
    }
  }

  // ---- a call that is left alone -------------------------------------------

  /** What a map answers. */
  function Answer(b: Bucket, o: OpOk): nat {
    if o.kind.Put? then (if b.Lookup(o.key) == 0 then 1 else 0) else b.Lookup(o.key)
  }

  /** A put that finds neither its key nor a free slot. */
  predicate NoRoom(b: Bucket, o: OpOk) {
    o.kind.Put? && b.Lookup(o.key) == 0 && EmptyIndex(b.Snapshot()) < 0
  }

  ghost predicate NotBefore(b: Bucket, key: nat, i: nat) {
    forall j: nat | j < i :: !b.Holds(j, key)
  }

  ghost predicate AloneSearching(b: Bucket, o: OpOk) {
    && o.idx < 0 && NotBefore(b, o.key, o.i)
    && (o.kind.Put? ==> o.snap == b.Snapshot())
    && (o.pc != ReadVal ==> o.v == b.vals[o.i])
    && (o.pc in {ReadKey, ReReadVal} ==> b.marks[o.i] == Valid)
    && (o.pc == ReReadVal ==> b.keys[o.i] == o.key)
  }

  ghost predicate AloneRemoving(b: Bucket, o: OpOk) {
    && o.snap == b.Snapshot() && NotBefore(b, o.key, o.i)
    && (o.pc != RemKey ==> b.Holds(o.i, o.key)) && (o.pc == RemCas ==> o.v == b.vals[o.i])
  }

  /** Where an operation is that was called when the bucket was b0 and has been
      the only one to move since. */
  ghost predicate AloneOk(b0: Bucket, b: Bucket, o: OpOk) {
    if Searching(o) then b == b0 && AloneSearching(b, o)
    else if o.pc in {RemKey, RemVal, RemCas} then b == b0 && AloneRemoving(b, o)
    else if o.pc == ReadSnap then b == b0 && o.idx < 0
    else if o.pc == Done then o.result == Answer(b0, o) && !NoRoom(b0, o)
    else
      && o.pc != Abort && o.idx == EmptyIndex(b0.Snapshot()) >= 0 && b0.Lookup(o.key) == 0
      && if o.pc == CasClaim then b == b0 && o.snap == b.Snapshot() else b.Snapshot() == SetMark(o.snap, o.idx, Insrt)
  }

  /** How many turns it needs at most. */
  function TurnsLeft(o: OpOk): nat {
    var search := 4 * (SLOTS - o.i) + if o.kind.Put? then 4 else 0;
    match o.pc
    case ReadSnap => if o.kind.Put? then 17 else 10
    case ReadVal => search
    case ReadMark => search - 1
    case ReadKey => search - 2
    case ReReadVal => search - 3
    case CasClaim => 4
    case WriteVal => 3
    case WriteKey => 2
    case CasValid => 1
    case RemKey => 3 * (SLOTS - o.i)
    case RemVal => 3 * (SLOTS - o.i) - 1
    case RemCas => 3 * (SLOTS - o.i) - 2
    case _ => 0
  }

  /** The search of an operation that is alone has seen all slots. */
  lemma SearchEnds(b: Bucket, o: OpOk)
    requires SlotsOk(b) && WellFormed(o) && Searching(o) && AloneOk(b, b, o) && NotBefore(b, o.key, SLOTS)
    ensures var o' := SearchReturns(o, 0);
            AloneOk(b, b, o') && (TurnsLeft(o') <= TurnsLeft(o) - 1 || NoRoom(b, o)) && (NoRoom(b, o) ==> o'.pc != Done)
  {
    LookupAbsent(b, o.key);
  }

  lemma AloneSearches(b: Bucket, p: nat, o: OpOk)
    requires SlotsOk(b) && WellFormed(o) && Searching(o) && AloneOk(b, b, o)
    ensures var (b', o') := Act(b, p, o);
            b' == b && AloneOk(b, b, o') && (TurnsLeft(o') < TurnsLeft(o) || NoRoom(b, o))
  {
    if (o.pc == ReadMark && b.marks[o.i] != Valid) || (o.pc == ReadKey && b.keys[o.i] != o.key) {
      assert !b.Holds(o.i, o.key);
      if o.i + 1 == SLOTS { SearchEnds(b, o); }
    } else if o.pc == ReReadVal {
      LookupOf(b, o.i);
    }
  }

  lemma AloneRemoves(b: Bucket, p: nat, o: OpOk)
    requires SlotsOk(b) && WellFormed(o) && AloneOk(b, b, o) && o.pc in {RemKey, RemVal, RemCas}
    ensures var (b', o') := Act(b, p, o);
            AloneOk(b, b', o') && TurnsLeft(o') < TurnsLeft(o)
  {
    if o.pc == RemKey && !b.Holds(o.i, o.key) {
      LookupAbsent(b, o.key);
    } else if o.pc == RemCas {
      LookupOf(b, o.i);
    }
  }

  lemma AloneActs(b0: Bucket, b: Bucket, p: nat, o: OpOk)
    requires SlotsOk(b) && LocalOk(b, p, o) && AloneOk(b0, b, o) && o.pc != Done
    ensures var (b', o') := Act(b, p, o);
            AloneOk(b0, b', o') && (TurnsLeft(o') < TurnsLeft(o) || NoRoom(b0, o))
  {
    match o.pc
    case ReadVal | ReadMark | ReadKey | ReReadVal => AloneSearches(b, p, o);
    case RemKey | RemVal | RemCas => AloneRemoves(b, p, o);
    case _ =>
  }

  /** How many of the events from s to t are turns. */
  function Turns(es: seq<Event>, s: nat, t: nat): nat
    requires t <= |es|
  {
    if t <= s then 0 else Turns(es, s, t - 1) + if es[t - 1].Next? then 1 else 0
  }

  /** Operation p is called in step s - 1, and up to instant t nobody else takes
      a turn. */
  ghost predicate Alone(run: seq<State>, es: seq<Event>, p: nat, s: nat, t: nat) {
    && RunBy(run, es) && 0 < s <= t < |run| && es[s - 1].Invoke? && p == |run[s - 1].ops|
    && forall u | s <= u < t && es[u].Next? :: es[u].op == p
  }

  lemma AloneIgnoresPast(b0: Bucket, b: Bucket, o: OpOk)
    requires AloneOk(b0, b, o)
    ensures AloneOk(b0, b, Observe(b, o)) && TurnsLeft(Observe(b, o)) == TurnsLeft(o) && CallOf(Observe(b, o)) == CallOf(o)
  {
  }

  lemma AloneTurn(b0: Bucket, st: State, p: nat)
    requires Inv(st) && p < |st.ops| && AloneOk(b0, st.b, st.ops[p])
    ensures var (o, st') := (st.ops[p], Turn(st, p));
            && CallOf(st'.ops[p]) == CallOf(o) && AloneOk(b0, st'.b, st'.ops[p])
            && (NoRoom(b0, o) || TurnsLeft(st'.ops[p]) == 0 || TurnsLeft(st'.ops[p]) < TurnsLeft(o))
  {
    var o := st.ops[p];
    ActKeepsCall(st.b, p, o);
    if o.pc != Done {
      assert LocalOk(st.b, p, o);
      hide LocalOk, SlotsOk, Act;
      AloneActs(b0, st.b, p, o);
      AloneIgnoresPast(b0, Act(st.b, p, o).0, Act(st.b, p, o).1);
    }
  }

  lemma AloneStep(b0: Bucket, st: State, e: Event, p: nat)
    requires Inv(st) && Legal(st, e) && (e.Next? ==> e.op == p) && p < |st.ops| && AloneOk(b0, st.b, st.ops[p])
    ensures p < |After(st, e).ops|
    ensures var (o, st') := (st.ops[p], After(st, e));
            && CallOf(st'.ops[p]) == CallOf(o) && AloneOk(b0, st'.b, st'.ops[p])
            && NoRoom(b0, st'.ops[p]) == NoRoom(b0, o)
            && var left := TurnsLeft(st'.ops[p]);
               NoRoom(b0, o) || left == 0 || left + (if e.Next? then 1 else 0) <= TurnsLeft(o)
  {
    hide AloneOk, TurnsLeft, Inv, Act, Observe;
    if e.Next? { AloneTurn(b0, st, p); }
  }

  lemma AloneStart(run: seq<State>, es: seq<Event>, p: nat, s: nat, t: nat)
    requires Alone(run, es, p, s, t)
    ensures p < |run[s].ops| && AloneOk(run[s].b, run[s].b, run[s].ops[p]) && TurnsLeft(run[s].ops[p]) <= 17
  {
    assert StepBy(run, es, s - 1);
    var e := es[s - 1];
    assert run[s].ops[p] == Invocation(run[s - 1].b, e.kind, e.key, e.val, run[s - 1].changes);
  }

  lemma {:induction false} AloneSoFar(run: seq<State>, es: seq<Event>, p: nat, s: nat, t: nat)
    requires Alone(run, es, p, s, t)
    ensures p < |run[s].ops| && p < |run[t].ops|
    ensures CallOf(run[t].ops[p]) == CallOf(run[s].ops[p]) && AloneOk(run[s].b, run[t].b, run[t].ops[p])
    ensures NoRoom(run[s].b, run[t].ops[p]) == NoRoom(run[s].b, run[s].ops[p])
    ensures var left := TurnsLeft(run[t].ops[p]); NoRoom(run[s].b, run[s].ops[p]) || left == 0 || left + Turns(es, s, t) <= 17
  {
    hide AloneOk, TurnsLeft, Inv, After, NoRoom, IsRun, Legal;
    if s == t {
      AloneStart(run, es, p, s, t);
    } else {
      AloneSoFar(run, es, p, s, t - 1);
      assert StepBy(run, es, t - 1);
      assert run[t] == After(run[t - 1], es[t - 1]) && Legal(run[t - 1], es[t - 1]);
      RunKeepsInv(run, t - 1);
      AloneStep(run[s].b, run[t - 1], es[t - 1], p);
    }
  }

  /** A call during which no other operation takes a turn answers as a map does.
      It ends within 17 of its turns, unless it is a put that finds neither its
      key nor a free slot, which never ends. */
  lemma AloneAnswers(run: seq<State>, es: seq<Event>, p: nat, s: nat, t: nat)
    requires Alone(run, es, p, s, t)
    ensures p < |run[s].ops| && p < |run[t].ops|
    ensures var (b, o) := (run[s].b, run[t].ops[p]);
            && (o.pc == Done ==> o.result == Answer(b, run[s].ops[p]) && !NoRoom(b, run[s].ops[p]))
            && (Turns(es, s, t) >= 17 ==> o.pc == Done || NoRoom(b, run[s].ops[p]))
  {
    AloneSoFar(run, es, p, s, s);
    AloneSoFar(run, es, p, s, t);
  }
}
