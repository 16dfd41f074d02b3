/** Whole runs of the lock-free bucket: what its steps mean for the map it
    represents, and that what gets, puts and removes answer was true at some
    instant inside the call. */
module LockFreeBucketRuns {
  import opened LockFreeBucket
  import opened LockFreeBucketSafety

  ghost predicate StepOf(a: State, b: State) {
    exists e :: Legal(a, e) && b == After(a, e)
  }

  /** A run from the empty bucket, one state per event, in which no snapshot is
      held while 2^32 validating swaps happen. */
  ghost predicate IsRun(run: seq<State>) {
    && |run| > 0
    && run[0] == START
    && (forall t | 0 <= t < |run| - 1 :: StepOf(run[t], run[t + 1]))
    && (forall t | 0 <= t < |run| :: Calm(run[t]))
  }

  lemma {:induction false} RunKeepsInv(run: seq<State>, t: nat)
    requires IsRun(run) && t < |run|
    ensures Inv(run[t])
  {
    if t > 0 {
      RunKeepsInv(run, t - 1);
      assert StepOf(run[t - 1], run[t]);
      var e :| Legal(run[t - 1], e) && run[t] == After(run[t - 1], e);
      AfterKeepsInv(run[t - 1], e);
    }
  }

  /** Every slot being inserted has exactly one owner, and valid slots hold
      pairwise different keys, at every instant of every run. */
  lemma SlotsHaveOneOwner(run: seq<State>, t: nat)
    requires IsRun(run) && t < |run|
    ensures forall j | 0 <= j < SLOTS && run[t].b.marks[j] == Insrt ::
              exists p | 0 <= p < |run[t].ops| :: Owns(run[t].ops[p]) && run[t].ops[p].idx == j
    ensures forall p, q | 0 <= p < |run[t].ops| && 0 <= q < |run[t].ops| && Owns(run[t].ops[p]) && Owns(run[t].ops[q]) ::
              run[t].ops[p].idx == run[t].ops[q].idx ==> p == q
    ensures forall i, j | 0 <= i < j < SLOTS && run[t].b.marks[i] == Valid && run[t].b.marks[j] == Valid ::
              run[t].b.keys[i] != run[t].b.keys[j]
  {
    var st := run[t];
    RunKeepsInv(run, t);
    forall j | 0 <= j < SLOTS && st.b.marks[j] == Insrt
      ensures exists p | 0 <= p < |st.ops| :: Owns(st.ops[p]) && st.ops[p].idx == j
    {
      assert ClaimedBy(st, j);
    }
    forall p, q | 0 <= p < |st.ops| && 0 <= q < |st.ops| && Owns(st.ops[p]) && Owns(st.ops[q]) && st.ops[p].idx == st.ops[q].idx
      ensures p == q
    {
      assert LocalOk(st.b, p, st.ops[p]) && LocalOk(st.b, q, st.ops[q]);
    }
  }

  // ---- the map -------------------------------------------------------------

  /** The swap that makes a put's pair visible is about to succeed. */
  predicate Validates(b: Bucket, o: OpOk) {
    o.pc == CasValid && o.idx >= 0 && b.Snapshot() == Expected(o)
  }

  /** The swap that removes a pair is about to succeed. */
  predicate Removes(b: Bucket, o: OpOk) {
    o.pc == RemCas && b.Snapshot() == Expected(o)
  }

  /** Setting one slot's mark changes the map only at that slot's key. */
  lemma LookupAfter(b: Bucket, b': Bucket, i: nat, key: nat)
    requires SlotsOk(b) && SlotsOk(b') && i < SLOTS && OnlySlot(b, b', i)
    requires b.marks[i] == Valid ==> b.keys[i] != key
    requires b'.marks[i] == Valid ==> b'.keys[i] != key
    ensures b'.Lookup(key) == b.Lookup(key)
  {
    assert forall j | 0 <= j < SLOTS && j != i :: SameSlot(b, b', j);
    assert SameSlot(b, b', (i + 1) % 3) && SameSlot(b, b', (i + 2) % 3);
  }

  lemma ValidatingAddsPair(st: State, p: nat, key: nat)
    requires Inv(st) && Calm(st) && p < |st.ops| && Validates(st.b, st.ops[p])
    ensures var (b, b', o, o') := (st.b, Turn(st, p).b, st.ops[p], Turn(st, p).ops[p]);
            && o.val != 0 && b.Lookup(o.key) == 0 && o'.pc == Done && o'.result == 1
            && b'.Lookup(key) == if key == o.key then o.val else b.Lookup(key)
  {
    var (b, b', o) := (st.b, Turn(st, p).b, st.ops[p]);
    assert LocalOk(b, p, o) && CalmOp(b, o);
    ActGuarantees(b, p, o);
    SwapFindsKeyAbsent(b, p, o);
    if key != o.key { LookupAfter(b, b', o.idx, key); } else { LookupOf(b', o.idx); }
  }

  lemma RemovingTakesPair(st: State, p: nat, key: nat)
    requires Inv(st) && Calm(st) && p < |st.ops| && Removes(st.b, st.ops[p])
    ensures var (b, b', o, o') := (st.b, Turn(st, p).b, st.ops[p], Turn(st, p).ops[p]);
            && b.Lookup(o.key) == o.v != 0 && o'.pc == Done && o'.result == o.v
            && b'.Lookup(key) == if key == o.key then 0 else b.Lookup(key)
  {
    var (b, b', o) := (st.b, Turn(st, p).b, st.ops[p]);
    assert LocalOk(b, p, o) && CalmOp(b, o);
    ActGuarantees(b, p, o);
    SwapIsQuiet(b, p, o);
    LookupOf(b, o.i);
    if key != o.key {
      LookupAfter(b, b', o.i, key);
    } else {
      LookupAbsent(b', key);
      forall j | 0 <= j < SLOTS ensures !b'.Holds(j, key) {
        if j != o.i && b.marks[j] == Valid { assert b.keys[j] != b.keys[o.i]; }
      }
    }
  }

  /** One turn is one step of a map: a validating swap adds its pair under a
      key that is absent at that instant, a removing swap takes exactly the pair
      whose value remove returns, and nothing else changes the map. */
  lemma TurnRefinesMap(st: State, p: nat, key: nat)
    requires Inv(st) && Calm(st) && p < |st.ops|
    ensures var (b, b', o, o') := (st.b, Turn(st, p).b, st.ops[p], Turn(st, p).ops[p]);
            if Validates(b, o) then
              && o.val != 0 && b.Lookup(o.key) == 0 && o'.pc == Done && o'.result == 1
              && b'.Lookup(key) == if key == o.key then o.val else b.Lookup(key)
            else if Removes(b, o) then
              && b.Lookup(o.key) == o.v != 0 && o'.pc == Done && o'.result == o.v
              && b'.Lookup(key) == if key == o.key then 0 else b.Lookup(key)
            else b'.Lookup(key) == b.Lookup(key)
  {
    var (b, b', o) := (st.b, Turn(st, p).b, st.ops[p]);
    if Validates(b, o) {
      ValidatingAddsPair(st, p, key);
    } else if Removes(b, o) {
      RemovingTakesPair(st, p, key);
    } else if o.pc in {CasClaim, WriteVal, WriteKey, Abort} && b' != b {
      assert LocalOk(b, p, o) && CalmOp(b, o);
      ActGuarantees(b, p, o);
      LookupAfter(b, b', o.idx, key);
    }
  }

  // ---- results -------------------------------------------------------------

  /** Instant t lies inside the call of operation p. */
  predicate During(run: seq<State>, p: nat, t: nat) {
    t < |run| && p < |run[t].ops| && run[t].ops[p].pc != Done
  }

  /** Operation p's key was mapped to x (0: was absent) at some instant inside
      its call. */
  ghost predicate WasMapped(run: seq<State>, p: nat, x: nat) {
    exists t: nat :: During(run, p, t) && run[t].b.Lookup(run[t].ops[p].key) == x
  }

  lemma ActKeepsCall(b: Bucket, p: nat, o: OpOk)
    ensures var o' := Act(b, p, o).1;
            o'.key == o.key && o'.kind == o.kind && o'.val == o.val && o'.past == o.past && o'.base == o.base
    ensures o.pc == Done ==> Act(b, p, o) == (b, o)
  {
  }

  /** A step leaves the arguments of a call alone and records at most the value
      its key has afterwards, and that only while the call is going on. */
  lemma StepKeepsCall(a: State, b: State, p: nat)
    requires StepOf(a, b) && p < |a.ops|
    ensures p < |b.ops| && b.ops[p].key == a.ops[p].key && b.ops[p].kind == a.ops[p].kind && b.ops[p].val == a.ops[p].val
    ensures b.ops[p].base == a.ops[p].base
    ensures b.ops[p].past <= a.ops[p].past + (if b.ops[p].pc == Done then {} else {b.b.Lookup(b.ops[p].key)})
  {
    var e :| Legal(a, e) && b == After(a, e);
    match e
    case Invoke(kind, key, val) => assert b.ops[p] == a.ops[p];
    case Next(q) => ActKeepsCall(a.b, q, a.ops[q]);
  }

  /** The history of a call records only what was true inside the call. */
  lemma {:induction false} PastWasMapped(run: seq<State>, p: nat, t: nat, x: nat)
    requires IsRun(run) && t < |run| && p < |run[t].ops| && x in run[t].ops[p].past
    ensures WasMapped(run, p, x)
  {
    if During(run, p, t) && run[t].b.Lookup(run[t].ops[p].key) == x {
    } else {
      assert StepOf(run[t - 1], run[t]);
      if p < |run[t - 1].ops| {
        StepKeepsCall(run[t - 1], run[t], p);
        PastWasMapped(run, p, t - 1, x);
      }
    }
  }

  /** A get or remove that answers 0 had its key absent at some instant inside
      its call, even when the search gave up because a value changed under it;
      a remove that answers a value had its key mapped to it. */
  lemma MissesLinearize(run: seq<State>, p: nat, t: nat)
    requires IsRun(run) && t < |run| && p < |run[t].ops| && run[t].ops[p].pc == Done
    ensures !run[t].ops[p].kind.Put? && run[t].ops[p].result == 0 ==> WasMapped(run, p, 0)
    ensures run[t].ops[p].kind.Remove? ==> WasMapped(run, p, run[t].ops[p].result)
  {
    RunKeepsInv(run, t);
    assert LocalOk(run[t].b, p, run[t].ops[p]);
    if !run[t].ops[p].kind.Put? && run[t].ops[p].result == 0 { PastWasMapped(run, p, t, 0); }
    if run[t].ops[p].kind.Remove? { PastWasMapped(run, p, t, run[t].ops[p].result); }
  }

  // ---- hits ----------------------------------------------------------------

  /** No value is put twice. */
  ghost predicate FreshValues(st: State) {
    forall p, q | 0 <= p < q < |st.ops| && st.ops[p].kind.Put? && st.ops[q].kind.Put? :: st.ops[p].val != st.ops[q].val
  }

  /** A put that has not stored its value yet. */
  predicate NotWritten(o: OpOk) {
    o.kind.Put? && (o.idx < 0 || o.pc in {CasClaim, WriteVal})
  }

  ghost predicate HitOk(b: Bucket, o: OpOk) {
    && (o.pc in {ReadMark, ReadKey, ReReadVal} && o.v != 0 ==> o.v in b.written)
    && (o.pc == ReadKey && o.v != 0 && b.vals[o.i] == o.v ==>
          && (b.keys[o.i] == o.key ==> o.v in o.past)
          && (b.marks[o.i] == Insrt ==> b.claims[o.i].val != o.v))
    && (o.pc == ReReadVal && o.v != 0 && b.vals[o.i] == o.v ==> o.v in o.past)
    && (NotWritten(o) ==> o.val !in b.written)
    && (o.kind.Put? && (o.pc == Abort || (o.pc == Done && o.result == 0)) ==> o.v != 0 && o.v in o.past)
    && (o.kind.Get? && o.pc == Done && o.result != 0 ==> o.result in o.past)
  }

  /** Some put carries this value. */
  ghost predicate IsPutValue(st: State, x: nat) {
    exists q :: 0 <= q < |st.ops| && st.ops[q].kind.Put? && st.ops[q].val == x
  }

  ghost predicate WrittenOk(st: State) {
    && (forall j | 0 <= j < SLOTS :: st.b.vals[j] == 0 || st.b.vals[j] in st.b.written)
    && (forall x | x in st.b.written :: IsPutValue(st, x))
  }

  ghost predicate HitInv(st: State) {
    WrittenOk(st) && forall p | 0 <= p < |st.ops| :: HitOk(st.b, st.ops[p])
  }

  /** What a turn does to values, as the other searches see it. */
  ghost predicate HitGuarantee(b: Bucket, b': Bucket) {
    && b.written <= b'.written
    && forall j | 0 <= j < SLOTS :: SlotHitGuarantee(b, b', j)
  }

  ghost predicate SlotHitGuarantee(b: Bucket, b': Bucket, j: nat)
    requires j < SLOTS
  {
    && (b'.vals[j] != b.vals[j] ==> b'.vals[j] !in b.written)
    && (b'.keys[j] != b.keys[j] ==> b.marks[j] == Insrt && b'.vals[j] == b.vals[j] == b.claims[j].val)
    && (b'.marks[j] == Insrt ==> (b.marks[j] == Insrt && b'.claims[j] == b.claims[j]) || b'.claims[j].val !in b.written)
  }

  lemma ActHitGuarantees(b: Bucket, p: nat, o: OpOk)
    requires LocalOk(b, p, o) && HitOk(b, o)
    ensures HitGuarantee(b, Act(b, p, o).0)
    ensures Act(b, p, o).0.written <= b.written + (if o.pc == WriteVal then {o.val} else {})
  {
  }

  lemma HitStable(b: Bucket, b': Bucket, o: OpOk)
    requires HitOk(b, o) && HitGuarantee(b, b')
    requires NotWritten(o) ==> o.val !in b'.written
    ensures HitOk(b', Observe(b', o))
  {
    assert SlotHitGuarantee(b, b', o.i);
  }

  lemma HitSearchActs(b: Bucket, p: nat, o: OpOk)
    requires SlotsOk(b) && LocalOk(b, p, o) && HitOk(b, o) && Searching(o)
    requires forall j | 0 <= j < SLOTS :: b.vals[j] == 0 || b.vals[j] in b.written
    ensures HitOk(b, Acted(b, p, o))
  {
    if o.pc == ReadMark && b.marks[o.i] == Valid { LookupOf(b, o.i); }
  }

  lemma HitStoreActs(b: Bucket, p: nat, o: OpOk)
    requires LocalOk(b, p, o) && HitOk(b, o) && !Searching(o)
    ensures HitOk(Act(b, p, o).0, Acted(b, p, o))
  {
    match o.pc
    case CasClaim =>
    case WriteVal =>
    case CasValid =>
    case _ =>
  }

  lemma MoverKeepsHit(st: State, p: nat)
    requires Inv(st) && HitInv(st) && p < |st.ops|
    ensures HitOk(Turn(st, p).b, Turn(st, p).ops[p])
  {
    var o := st.ops[p];
    assert LocalOk(st.b, p, o) && HitOk(st.b, o);
    if Searching(o) { HitSearchActs(st.b, p, o); } else { HitStoreActs(st.b, p, o); }
  }

  lemma OtherKeepsHit(st: State, p: nat, q: nat)
    requires Inv(st) && HitInv(st) && FreshValues(st) && p < |st.ops| && q < |st.ops| && q != p
    ensures HitOk(Turn(st, p).b, Turn(st, p).ops[q])
  {
    var (b, o, other) := (st.b, st.ops[p], st.ops[q]);
    assert LocalOk(b, p, o) && HitOk(b, o) && HitOk(b, other);
    ActHitGuarantees(b, p, o);
    assert o.pc == WriteVal && o.kind.Put? && other.kind.Put? ==> o.val != other.val;
    HitStable(b, Turn(st, p).b, other);
  }

  lemma CallsKeepPutValues(a: State, b: State, x: nat)
    requires IsPutValue(a, x) && |a.ops| <= |b.ops|
    requires forall q | 0 <= q < |a.ops| :: b.ops[q].kind == a.ops[q].kind && b.ops[q].val == a.ops[q].val
    ensures IsPutValue(b, x)
  {
    var q :| 0 <= q < |a.ops| && a.ops[q].kind.Put? && a.ops[q].val == x;
    assert b.ops[q].kind.Put? && b.ops[q].val == x;
  }

  lemma TurnKeepsWritten(st: State, p: nat)
    requires Inv(st) && WrittenOk(st) && p < |st.ops|
    ensures WrittenOk(Turn(st, p))
  {
    var st' := Turn(st, p);
    var o := st.ops[p];
    assert LocalOk(st.b, p, o);
    ActKeepsCall(st.b, p, o);
    ActWrites(st.b, p, o);
    forall x | x in st'.b.written ensures IsPutValue(st', x) {
      assert IsPutValue(st, x) by { if x == o.val && o.kind.Put? { assert st.ops[p].kind.Put?; } }
      CallsKeepPutValues(st, st', x);
    }
  }

  /** Every value in a slot was stored by a put. */
  lemma ActWrites(b: Bucket, p: nat, o: OpOk)
    requires LocalOk(b, p, o)
    ensures var b' := Act(b, p, o).0;
            && (forall j | 0 <= j < SLOTS :: b'.vals[j] == b.vals[j] || b'.vals[j] in b'.written)
            && b.written <= b'.written <= b.written + (if o.kind.Put? then {o.val} else {})
  {
  }

  lemma TurnKeepsHits(st: State, p: nat)
    requires Inv(st) && HitInv(st) && FreshValues(st) && p < |st.ops|
    ensures HitInv(Turn(st, p))
  {
    TurnKeepsWritten(st, p);
    forall q | 0 <= q < |st.ops| ensures HitOk(Turn(st, p).b, Turn(st, p).ops[q]) {
      if q == p { MoverKeepsHit(st, p); } else { OtherKeepsHit(st, p, q); }
    }
  }

  lemma InvokeKeepsHits(st: State, kind: Kind, key: nat, val: nat)
    requires HitInv(st) && Legal(st, Invoke(kind, key, val)) && FreshValues(After(st, Invoke(kind, key, val)))
    ensures HitInv(After(st, Invoke(kind, key, val)))
  {
    var st' := After(st, Invoke(kind, key, val));
    var n := |st.ops|;
    assert forall p | 0 <= p < n :: st'.ops[p] == st.ops[p];
    forall x | x in st'.b.written ensures IsPutValue(st', x) {
      assert IsPutValue(st, x);
      CallsKeepPutValues(st, st', x);
    }
    forall q | 0 <= q < n && st.ops[q].kind.Put? && kind.Put? ensures st.ops[q].val != val {
      assert st'.ops[q] == st.ops[q] && st'.ops[n].val == val;
    }
    assert kind.Put? ==> !IsPutValue(st, val);
  }

  lemma {:induction false} RunKeepsHits(run: seq<State>, t: nat)
    requires IsRun(run) && t < |run| && FreshValues(run[t])
    ensures HitInv(run[t])
  {
    if t > 0 {
      var (a, b) := (run[t - 1], run[t]);
      assert StepOf(a, b);
      var e :| Legal(a, e) && b == After(a, e);
      forall p | 0 <= p < |a.ops| ensures b.ops[p].kind == a.ops[p].kind && b.ops[p].val == a.ops[p].val {
        StepKeepsCall(a, b, p);
      }
      assert FreshValues(a);
      RunKeepsHits(run, t - 1);
      RunKeepsInv(run, t - 1);
      match e
      case Next(p) => TurnKeepsHits(a, p);
      case Invoke(kind, key, val) => InvokeKeepsHits(a, kind, key, val);
    }
  }

  /** When no value is put twice, a get that answers a value had its key mapped
      to that value at some instant inside its call, and a put that answers
      false had its key present. */
  lemma HitsLinearize(run: seq<State>, p: nat, t: nat)
    requires IsRun(run) && t < |run| && FreshValues(run[t])
    requires p < |run[t].ops| && run[t].ops[p].pc == Done
    ensures run[t].ops[p].kind.Get? ==> WasMapped(run, p, run[t].ops[p].result)
    ensures run[t].ops[p].kind.Put? && run[t].ops[p].result == 0 ==> exists x :: x != 0 && WasMapped(run, p, x)
  {
    var o := run[t].ops[p];
    RunKeepsHits(run, t);
    assert HitOk(run[t].b, o);
    if o.kind.Get? {
      if o.result == 0 { MissesLinearize(run, p, t); } else { PastWasMapped(run, p, t, o.result); }
    } else if o.kind.Put? && o.result == 0 {
      PastWasMapped(run, p, t, o.v);
    }
  }
}
