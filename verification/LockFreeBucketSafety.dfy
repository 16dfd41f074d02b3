/** What every interleaving of puts, gets and removes on one lock-free bucket
    keeps, proved by rely and guarantee: one turn of an operation guarantees
    what the local facts of all the others rely on. */
module LockFreeBucketSafety {
  import opened LockFreeBucket

  // ---- what is known of one operation --------------------------------------

  predicate Searching(o: OpOk) {
    o.pc in {ReadVal, ReadMark, ReadKey, ReReadVal}
  }

  ghost predicate WellFormed(o: OpOk) {
    && (o.kind.Get? ==> Searching(o) || o.pc.Done?)
    && (o.kind.Put? ==> o.pc !in {RemKey, RemVal, RemCas} && o.val != 0)
    && (o.kind.Remove? ==> o.pc in {ReadSnap, RemKey, RemVal, RemCas, Done})
    && (o.pc in {CasClaim, WriteVal, WriteKey, CasValid, Abort} ==> o.idx >= 0)
  }

  /** A put between a successful claim and its validating swap or abort. */
  predicate Owns(o: OpOk) {
    o.kind.Put? && o.idx >= 0 && o.pc !in {CasClaim, Done}
  }

  /** Between taking a snapshot and the swap that compares with it. */
  predicate InWindow(o: OpOk) {
    !o.kind.Get? && o.pc !in {ReadSnap, Abort, Done}
  }

  /** No validating swap and no removal has happened since the snapshot. */
  ghost predicate Quiet(b: Bucket, o: OpOk) {
    b.commits == o.seen && forall j | 0 <= j < SLOTS :: o.snap.marks[j] == Valid ==> b.marks[j] == Valid
  }

  /** The slots a put's search has passed without finding the key. */
  function Passed(o: OpOk): nat {
    if Searching(o) then o.i else SLOTS
  }

  ghost predicate OwnerOk(b: Bucket, p: nat, o: OpOk) {
    Owns(o) ==>
      && b.marks[o.idx] == Insrt
      && b.claims[o.idx] == Claim(p, o.key, o.val)
      && (o.pc != WriteVal ==> b.vals[o.idx] == o.val)
      && (o.pc !in {WriteVal, WriteKey} ==> b.keys[o.idx] == o.key)
  }

  ghost predicate WindowOk(b: Bucket, o: OpOk) {
    InWindow(o) ==>
      && o.snap.version == o.seen % VERSIONS
      && o.seen <= b.commits
      && (b.commits == o.seen ==> forall j | 0 <= j < SLOTS :: b.marks[j] == Valid ==> o.snap.marks[j] == Valid)
      && (o.kind.Put? ==> PutWindowOk(b, o))
      && (o.pc in {RemVal, RemCas} ==>
            && o.snap.marks[o.i] == Valid
            && (Quiet(b, o) ==> b.keys[o.i] == o.key && (o.pc == RemCas ==> b.vals[o.i] == o.v)))
  }

  ghost predicate PutWindowOk(b: Bucket, o: OpOk) {
    && (o.pc == CasClaim ==> o.idx >= 0)
    && (o.idx >= 0 ==> o.snap.marks[o.idx] != Valid)
    && (o.pc == CasClaim ==> o.snap.marks[o.idx] == Invld)
    && (o.idx >= 0 && Searching(o) ==> o.snap.marks[o.idx] == Insrt)
    && (Quiet(b, o) ==> forall j | 0 <= j < Passed(o) :: !b.Holds(j, o.key))
    && (o.pc in {ReadMark, ReadKey, ReReadVal} && Quiet(b, o) && b.marks[o.i] == Valid ==> b.vals[o.i] == o.v)
    && (o.pc in {ReadKey, ReReadVal} && b.commits == o.seen ==> o.snap.marks[o.i] == Valid)
  }

  /** While the key has been present since the call began it has stayed in one
      slot, and the operation has not overlooked that slot. */
  ghost predicate PresentOk(b: Bucket, o: OpOk) {
    o.pc != Done ==>
      && b.Lookup(o.key) in o.past
      && (0 !in o.past ==> forall j | b.Holds(j, o.key) :: NotMissed(b, o, j))
  }

  ghost predicate NotMissed(b: Bucket, o: OpOk, j: nat)
    requires j < SLOTS
  {
    && (Searching(o) ==> o.i <= j)
    && (o.pc in {ReadMark, ReadKey, ReReadVal} && o.i == j ==> o.v == b.vals[j])
    && (o.pc == ReadKey && o.i != j ==> NotAbout(b, o.i, o.key))
    && (o.pc == ReReadVal ==> o.i == j)
    && (o.pc == RemKey ==> o.i <= j && o.snap.marks[j] == Valid)
  }

  /** Slot i does not hold `key` and its claimant is not going to write it. */
  ghost predicate NotAbout(b: Bucket, i: nat, key: nat)
    requires i < SLOTS
  {
    b.keys[i] != key && (b.marks[i] == Insrt ==> b.claims[i].key != key)
  }

  /** A get or remove that found nothing, and a remove that took a value. */
  ghost predicate ResultOk(o: OpOk) {
    o.pc == Done ==>
      && (!o.kind.Put? && o.result == 0 ==> 0 in o.past)
      && (o.kind.Remove? ==> o.result in o.past)
  }

  ghost predicate LocalOk(b: Bucket, p: nat, o: OpOk) {
    && WellFormed(o)
    && OwnerOk(b, p, o)
    && WindowOk(b, o)
    && PresentOk(b, o)
    && ResultOk(o)
  }

  // ---- what is known of the bucket -----------------------------------------

  /** Valid slots hold nonzero values and pairwise different keys. */
  ghost predicate SlotsOk(b: Bucket) {
    && (forall j | 0 <= j < SLOTS :: b.marks[j] == Valid ==> b.vals[j] != 0)
    && (forall i, j | 0 <= i < j < SLOTS :: b.marks[i] == Valid && b.marks[j] == Valid ==> b.keys[i] != b.keys[j])
  }

  ghost predicate ClaimedBy(st: State, j: nat)
    requires j < SLOTS
  {
    var id := st.b.claims[j].id;
    id < |st.ops| && Owns(st.ops[id]) && st.ops[id].idx == j
  }

  ghost predicate Inv(st: State) {
    && SlotsOk(st.b)
    && (forall j | 0 <= j < SLOTS && st.b.marks[j] == Insrt :: ClaimedBy(st, j))
    && (forall p | 0 <= p < |st.ops| :: LocalOk(st.b, p, st.ops[p]))
  }

  /** Between a snapshot and the swap that compares with it there are fewer
      than 2^32 validating swaps, so an equal version means the same version. */
  ghost predicate CalmOp(b: Bucket, o: OpOk) {
    InWindow(o) ==> b.commits - o.seen < VERSIONS
  }

  ghost predicate Calm(st: State) {
    forall p | 0 <= p < |st.ops| :: CalmOp(st.b, st.ops[p])
  }

  // ---- facts about one word ------------------------------------------------

  lemma LookupOf(b: Bucket, j: nat)
    requires SlotsOk(b) && j < SLOTS && b.marks[j] == Valid
    ensures b.Lookup(b.keys[j]) == b.vals[j]
  {
  }

  lemma LookupAbsent(b: Bucket, key: nat)
    requires SlotsOk(b)
    ensures b.Lookup(key) == 0 <==> forall j | 0 <= j < SLOTS :: !b.Holds(j, key)
  {
    assert b.Lookup(key) == 0 <==> !b.Holds(0, key) && !b.Holds(1, key) && !b.Holds(2, key);
    assert (forall j | 0 <= j < SLOTS :: !b.Holds(j, key)) <==> !b.Holds(0, key) && !b.Holds(1, key) && !b.Holds(2, key);
  }

  lemma SameVersion(commits: nat, seen: nat)
    requires seen <= commits < seen + VERSIONS
    requires commits % VERSIONS == seen % VERSIONS
    ensures commits == seen
  {
    var d := commits - seen;
    assert commits == VERSIONS * (commits / VERSIONS) + commits % VERSIONS;
    assert seen == VERSIONS * (seen / VERSIONS) + seen % VERSIONS;
    assert d == VERSIONS * (commits / VERSIONS - seen / VERSIONS);
  }

  /** A swap that succeeds compares equal with a quiet bucket. */
  lemma SwapIsQuiet(b: Bucket, p: nat, o: OpOk)
    requires LocalOk(b, p, o) && CalmOp(b, o)
    requires o.pc in {CasClaim, CasValid, RemCas}
    requires b.Snapshot() == Expected(o)
    ensures Quiet(b, o)
  {
    SameVersion(b.commits, o.seen);
  }

  /** At a successful claim or validation the key is absent. */
  lemma SwapFindsKeyAbsent(b: Bucket, p: nat, o: OpOk)
    requires SlotsOk(b) && LocalOk(b, p, o) && CalmOp(b, o)
    requires o.pc in {CasClaim, CasValid}
    requires b.Snapshot() == Expected(o)
    ensures b.Lookup(o.key) == 0
  {
    SwapIsQuiet(b, p, o);
    LookupAbsent(b, o.key);
  }

  // ---- guarantee -----------------------------------------------------------

  /** What a turn of operation p does to the bucket, as the others see it. */
  ghost predicate Guarantee(b: Bucket, b': Bucket, p: nat) {
    && b.commits <= b'.commits
    && (b'.commits == b.commits ==> forall j | 0 <= j < SLOTS :: b'.marks[j] == Valid ==> b.marks[j] == Valid)
    && (forall j | 0 <= j < SLOTS :: SlotGuarantee(b, b', p, j))
  }

  ghost predicate SlotGuarantee(b: Bucket, b': Bucket, p: nat, j: nat)
    requires j < SLOTS
  {
    && (b.marks[j] == Valid && b'.marks[j] == Valid ==> b'.keys[j] == b.keys[j] && b'.vals[j] == b.vals[j])
    && (b.marks[j] == Insrt && b.claims[j].id != p ==> SameSlot(b, b', j))
    && (b.marks[j] != Valid && b'.marks[j] == Valid ==> b.Lookup(b'.keys[j]) == 0)
    && (b'.keys[j] != b.keys[j] ==> b.marks[j] == Insrt && b'.keys[j] == b.claims[j].key)
    && (b'.marks[j] == Insrt && b.marks[j] == Insrt ==> b'.claims[j] == b.claims[j])
    && (b'.marks[j] == Insrt && b.marks[j] != Insrt ==>
          b.Lookup(b'.claims[j].key) == 0 && b'.keys[j] == b.keys[j] && b.marks[j] == Invld)
  }

  ghost predicate SameSlot(b: Bucket, b': Bucket, j: nat)
    requires j < SLOTS
  {
    b'.marks[j] == b.marks[j] && b'.keys[j] == b.keys[j] && b'.vals[j] == b.vals[j] && b'.claims[j] == b.claims[j]
  }

  /** A turn that writes at most slot i. */
  ghost predicate OnlySlot(b: Bucket, b': Bucket, i: nat) {
    forall j | 0 <= j < SLOTS && j != i :: SameSlot(b, b', j)
  }

  lemma SlotsGuarantee(b: Bucket, b': Bucket, p: nat, i: nat)
    requires i < SLOTS && OnlySlot(b, b', i) && SlotGuarantee(b, b', p, i)
    ensures forall j | 0 <= j < SLOTS :: SlotGuarantee(b, b', p, j)
  {
    forall j | 0 <= j < SLOTS ensures SlotGuarantee(b, b', p, j) {
      if j != i { assert SameSlot(b, b', j); }
    }
  }

  lemma ClaimGuarantees(b: Bucket, p: nat, o: OpOk)
    requires SlotsOk(b) && LocalOk(b, p, o) && CalmOp(b, o) && o.pc == CasClaim
    ensures Guarantee(b, Act(b, p, o).0, p) && SlotsOk(Act(b, p, o).0)
  {
    if b.Snapshot() == Expected(o) { SwapFindsKeyAbsent(b, p, o); }
    SlotsGuarantee(b, Act(b, p, o).0, p, o.idx);
  }

  lemma ValidateGuarantees(b: Bucket, p: nat, o: OpOk)
    requires SlotsOk(b) && LocalOk(b, p, o) && CalmOp(b, o) && o.pc == CasValid
    ensures Guarantee(b, Act(b, p, o).0, p) && SlotsOk(Act(b, p, o).0)
  {
    if b.Snapshot() == Expected(o) {
      SwapFindsKeyAbsent(b, p, o);
      LookupAbsent(b, o.key);
      forall j | 0 <= j < SLOTS ensures !b.Holds(j, o.key) {}
    }
    SlotsGuarantee(b, Act(b, p, o).0, p, o.idx);
  }

  lemma StoreGuarantees(b: Bucket, p: nat, o: OpOk)
    requires SlotsOk(b) && LocalOk(b, p, o) && o.pc in {WriteVal, WriteKey, Abort}
    ensures Guarantee(b, Act(b, p, o).0, p) && SlotsOk(Act(b, p, o).0)
  {
    SlotsGuarantee(b, Act(b, p, o).0, p, o.idx);
  }

  lemma RemoveGuarantees(b: Bucket, p: nat, o: OpOk)
    requires SlotsOk(b) && LocalOk(b, p, o) && o.pc == RemCas
    ensures Guarantee(b, Act(b, p, o).0, p) && SlotsOk(Act(b, p, o).0)
  {
    SlotsGuarantee(b, Act(b, p, o).0, p, o.i);
  }

  lemma ActGuarantees(b: Bucket, p: nat, o: OpOk)
    requires SlotsOk(b) && LocalOk(b, p, o) && CalmOp(b, o)
    ensures Guarantee(b, Act(b, p, o).0, p) && SlotsOk(Act(b, p, o).0)
  {
    match o.pc
    case CasClaim => ClaimGuarantees(b, p, o);
    case CasValid => ValidateGuarantees(b, p, o);
    case WriteVal | WriteKey | Abort => StoreGuarantees(b, p, o);
    case RemCas => RemoveGuarantees(b, p, o);
    case _ => assert Act(b, p, o).0 == b;
  }

  // ---- rely ----------------------------------------------------------------

  lemma OwnerStable(b: Bucket, b': Bucket, p: nat, q: nat, o: OpOk)
    requires OwnerOk(b, q, o) && Guarantee(b, b', p) && p != q
    ensures OwnerOk(b', q, o)
  {
    if Owns(o) { assert SlotGuarantee(b, b', p, o.idx); }
  }

  lemma QuietBefore(b: Bucket, b': Bucket, p: nat, o: OpOk)
    requires Guarantee(b, b', p) && InWindow(o) && WindowOk(b, o) && Quiet(b', o)
    ensures Quiet(b, o)
    ensures forall j | 0 <= j < SLOTS :: b'.marks[j] == b.marks[j] || (b.marks[j] != Valid && b'.marks[j] != Valid)
    ensures forall j | 0 <= j < SLOTS && b.marks[j] == Valid :: b'.keys[j] == b.keys[j] && b'.vals[j] == b.vals[j]
  {
    forall j | 0 <= j < SLOTS && b.marks[j] == Valid
      ensures b'.marks[j] == Valid && b'.keys[j] == b.keys[j] && b'.vals[j] == b.vals[j]
    {
      assert SlotGuarantee(b, b', p, j);
    }
  }

  lemma WindowStable(b: Bucket, b': Bucket, p: nat, o: OpOk)
    requires WindowOk(b, o) && Guarantee(b, b', p)
    ensures WindowOk(b', o)
  {
    if InWindow(o) && Quiet(b', o) {
      QuietBefore(b, b', p, o);
      forall j | 0 <= j < Passed(o) && o.kind.Put? ensures !b'.Holds(j, o.key) {
        assert !b.Holds(j, o.key);
      }
    }
  }

  lemma PresentStable(b: Bucket, b': Bucket, p: nat, o: OpOk)
    requires SlotsOk(b) && SlotsOk(b') && PresentOk(b, o) && Guarantee(b, b', p)
    ensures PresentOk(b', Observe(b', o))
  {
    var o' := Observe(b', o);
    if o.pc != Done && 0 !in o'.past {
      forall j | b'.Holds(j, o.key) ensures NotMissed(b', o', j) {
        LookupAbsent(b, o.key);
        assert SlotGuarantee(b, b', p, j);
        assert b.Holds(j, o.key);
        assert NotMissed(b, o, j);
        assert SlotGuarantee(b, b', p, o.i);
      }
    }
  }

  lemma LocalStable(b: Bucket, b': Bucket, p: nat, q: nat, o: OpOk)
    requires SlotsOk(b) && SlotsOk(b') && LocalOk(b, q, o) && Guarantee(b, b', p) && p != q
    ensures LocalOk(b', q, Observe(b', o))
  {
    OwnerStable(b, b', p, q, o);
    WindowStable(b, b', p, o);
    PresentStable(b, b', p, o);
  }

  // ---- the operation that takes the turn -----------------------------------

  /** `o` after its own turn, seeing the value its key has then. */
  function Acted(b: Bucket, p: nat, o: OpOk): OpOk {
    Observe(Act(b, p, o).0, Act(b, p, o).1)
  }

  lemma SnapActs(b: Bucket, p: nat, o: OpOk)
    requires SlotsOk(b) && LocalOk(b, p, o) && o.pc == ReadSnap
    ensures LocalOk(b, p, Acted(b, p, o))
  {
  }

  /** The search has finished without a hit; whichever way it ended, a put may
      go on to its swap and a get may report the key missing. */
  lemma SearchMisses(b: Bucket, p: nat, o: OpOk)
    requires SlotsOk(b) && LocalOk(b, p, o) && Searching(o)
    requires o.kind.Put? && Quiet(b, o) ==> forall j | 0 <= j < SLOTS :: !b.Holds(j, o.key)
    requires 0 in o.past || o.kind.Put?
    ensures LocalOk(b, p, Observe(b, SearchReturns(o, 0)))
  {
  }

  lemma SearchPasses(b: Bucket, p: nat, o: OpOk)
    requires SlotsOk(b) && LocalOk(b, p, o) && Searching(o)
    requires o.kind.Put? && Quiet(b, o) ==> !b.Holds(o.i, o.key)
    requires 0 !in o.past ==> !b.Holds(o.i, o.key)
    ensures LocalOk(b, p, Observe(b, SearchNext(o)))
  {
    if o.i + 1 < SLOTS {
    } else {
      forall j | 0 <= j < SLOTS && b.Holds(j, o.key) ensures 0 in o.past {
        assert 0 !in o.past ==> NotMissed(b, o, j);
      }
      LookupAbsent(b, o.key);
      SearchMisses(b, p, o);
    }
  }

  lemma SearchActs(b: Bucket, p: nat, o: OpOk)
    requires SlotsOk(b) && LocalOk(b, p, o) && Searching(o)
    ensures LocalOk(b, p, Acted(b, p, o))
  {
    match o.pc
    case ReadVal =>
    case ReadMark => if b.marks[o.i] != Valid { SearchPasses(b, p, o); }
    case ReadKey => if b.keys[o.i] != o.key { SearchPasses(b, p, o); }
    case ReReadVal =>
      if b.vals[o.i] != o.v || o.v == 0 {
        LookupAbsent(b, o.key);
        assert 0 !in o.past ==> b.Holds(o.i, o.key);
        assert InWindow(o) ==> !Quiet(b, o);
        SearchMisses(b, p, o);
      }
  }

  lemma ClaimActs(b: Bucket, p: nat, o: OpOk)
    requires SlotsOk(b) && LocalOk(b, p, o) && CalmOp(b, o) && o.pc == CasClaim
    ensures LocalOk(Act(b, p, o).0, p, Acted(b, p, o))
  {
    KeptAbsent(b, Act(b, p, o).0, o);
  }

  lemma ValidateActs(b: Bucket, p: nat, o: OpOk)
    requires SlotsOk(b) && LocalOk(b, p, o) && CalmOp(b, o) && o.pc == CasValid
    ensures LocalOk(Act(b, p, o).0, p, Acted(b, p, o))
  {
  }

  /** A key that no valid slot holds is not held by the same valid slots. */
  lemma KeptAbsent(b: Bucket, b': Bucket, o: OpOk)
    requires forall j | 0 <= j < SLOTS :: b'.marks[j] == Valid ==> b.marks[j] == Valid && b'.keys[j] == b.keys[j]
    ensures (forall j | 0 <= j < SLOTS :: !b.Holds(j, o.key)) ==> forall j | 0 <= j < SLOTS :: !b'.Holds(j, o.key)
  {
    forall j | 0 <= j < SLOTS && b'.Holds(j, o.key) ensures b.Holds(j, o.key) {}
  }

  lemma StoreActs(b: Bucket, p: nat, o: OpOk)
    requires SlotsOk(b) && LocalOk(b, p, o) && o.pc in {WriteVal, WriteKey, Abort}
    ensures LocalOk(Act(b, p, o).0, p, Acted(b, p, o))
  {
    KeptAbsent(b, Act(b, p, o).0, o);
  }

  lemma RemovePasses(b: Bucket, p: nat, o: OpOk)
    requires SlotsOk(b) && LocalOk(b, p, o) && o.pc == RemKey
    requires 0 !in o.past ==> !b.Holds(o.i, o.key)
    ensures LocalOk(b, p, Observe(b, RemoveNext(o)))
  {
    forall j | 0 <= j < SLOTS && b.Holds(j, o.key) ensures 0 in o.past || j > o.i {
      assert 0 !in o.past ==> NotMissed(b, o, j);
    }
    LookupAbsent(b, o.key);
  }

  lemma RemoveActs(b: Bucket, p: nat, o: OpOk)
    requires SlotsOk(b) && LocalOk(b, p, o) && CalmOp(b, o) && o.pc in {RemKey, RemVal, RemCas}
    ensures LocalOk(Act(b, p, o).0, p, Acted(b, p, o))
  {
    if o.pc == RemKey && Act(b, p, o).1.pc != RemVal {
      assert b.Holds(o.i, o.key) && 0 !in o.past ==> NotMissed(b, o, o.i);
      RemovePasses(b, p, o);
    } else if o.pc == RemCas && b.Snapshot() == Expected(o) {
      SwapIsQuiet(b, p, o);
      LookupOf(b, o.i);
    }
  }

  lemma TurnKeepsLocal(b: Bucket, p: nat, o: OpOk)
    requires SlotsOk(b) && LocalOk(b, p, o) && CalmOp(b, o)
    ensures LocalOk(Act(b, p, o).0, p, Acted(b, p, o))
  {
    match o.pc
    case ReadSnap => SnapActs(b, p, o);
    case ReadVal | ReadMark | ReadKey | ReReadVal => SearchActs(b, p, o);
    case CasClaim => ClaimActs(b, p, o);
    case CasValid => ValidateActs(b, p, o);
    case WriteVal | WriteKey | Abort => StoreActs(b, p, o);
    case RemKey | RemVal | RemCas => RemoveActs(b, p, o);
    case Done =>
  }

  // ---- every step of every run ---------------------------------------------

  /** A slot marked Insrt after a turn was just claimed, or is claimed as before;
      an owner that takes a turn keeps its slot or unmarks it. */
  lemma ActKeepsOwner(b: Bucket, p: nat, o: OpOk, j: nat)
    requires LocalOk(b, p, o) && j < SLOTS && Act(b, p, o).0.marks[j] == Insrt
    requires b.marks[j] == Insrt && b.claims[j].id == p ==> Owns(o) && o.idx == j
    ensures var (b', o') := Act(b, p, o);
            if b'.claims[j].id == p && (b.marks[j] != Insrt || b.claims[j].id == p) then Owns(o') && o'.idx == j
            else b.marks[j] == Insrt && b'.claims[j] == b.claims[j]
  {
  }

  lemma TurnKeepsClaim(st: State, p: nat, j: nat)
    requires Inv(st) && p < |st.ops| && j < SLOTS && Turn(st, p).b.marks[j] == Insrt
    ensures ClaimedBy(Turn(st, p), j)
  {
    if st.b.marks[j] == Insrt { assert ClaimedBy(st, j); }
    assert LocalOk(st.b, p, st.ops[p]);
    ActKeepsOwner(st.b, p, st.ops[p], j);
  }

  lemma TurnKeepsInv(st: State, p: nat)
    requires Inv(st) && Calm(st) && p < |st.ops|
    ensures Inv(Turn(st, p))
  {
    var st' := Turn(st, p);
    ActGuarantees(st.b, p, st.ops[p]);
    forall j | 0 <= j < SLOTS && st'.b.marks[j] == Insrt ensures ClaimedBy(st', j) {
      TurnKeepsClaim(st, p, j);
    }
    forall q | 0 <= q < |st'.ops| ensures LocalOk(st'.b, q, st'.ops[q]) {
      if q == p {
        TurnKeepsLocal(st.b, p, st.ops[p]);
      } else {
        LocalStable(st.b, st'.b, p, q, st.ops[q]);
      }
    }
  }

  lemma InvokeKeepsInv(st: State, kind: Kind, key: nat, val: nat)
    requires Inv(st) && (kind.Put? ==> val != 0)
    ensures Inv(After(st, Invoke(kind, key, val)))
  {
    var st' := After(st, Invoke(kind, key, val));
    forall j | 0 <= j < SLOTS && st'.b.marks[j] == Insrt ensures ClaimedBy(st', j) {
      assert ClaimedBy(st, j);
    }
  }

  lemma AfterKeepsInv(st: State, e: Event)
    requires Inv(st) && Calm(st) && Legal(st, e)
    ensures Inv(After(st, e))
  {
    match e
    case Invoke(kind, key, val) => InvokeKeepsInv(st, kind, key, val);
    case Next(p) => TurnKeepsInv(st, p);
  }
}
