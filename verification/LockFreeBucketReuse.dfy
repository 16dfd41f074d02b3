/** A run in which one value is put twice and a get answers a value its key
    never had: why hits need fresh values. */
module LockFreeBucketReuse {
  import opened LockFreeBucket
  import opened LockFreeBucketRuns

  /** An operation without its history and counters. */
  function Core(o: OpOk): OpOk {
    o.(past := {}, base := 0, mine := 0, fails := 0)
  }

  /** A run in which key k is never in the bucket and is what operation 1 asks
      for; it has reached bucket `b` and operations `ops`. */
  ghost predicate Reaches(run: seq<State>, k: nat, b: Bucket, ops: seq<OpOk>) {
    && IsRun(run)
    && (forall t | 0 <= t < |run| ::
          run[t].b.Lookup(k) == 0 && (1 < |run[t].ops| ==> run[t].ops[1].key == k))
    && var st := run[|run| - 1];
       st.b == b && |st.ops| == |ops| && forall p | 0 <= p < |ops| :: Core(st.ops[p]) == ops[p]
  }

  lemma Called(run: seq<State>, k: nat, b: Bucket, ops: seq<OpOk>, kind: Kind, key: nat, val: nat) returns (longer: seq<State>)
    requires Reaches(run, k, b, ops) && val != 0 && (|ops| == 1 ==> key == k) && b.commits < VERSIONS
    ensures Reaches(longer, k, b, ops + [Core(Invocation(b, kind, key, val, 0))])
  {
    var st := run[|run| - 1];
    var st' := After(st, Invoke(kind, key, val));
    longer := run + [st'];
    assert Legal(st, Invoke(kind, key, val)) && StepOf(st, st');
  }

  lemma SearchCore(o: OpOk, r: nat)
    ensures Core(SearchReturns(o, r)) == Core(SearchReturns(Core(o), r))
    ensures Core(SearchNext(o)) == Core(SearchNext(Core(o)))
  {
  }

  lemma ActCore(b: Bucket, p: nat, o: OpOk)
    ensures Act(b, p, o).0 == Act(b, p, Core(o)).0
    ensures Core(Act(b, p, o).1) == Core(Act(b, p, Core(o)).1)
  {
    match o.pc
    case ReadMark | ReadKey => SearchCore(o, 0);
    case ReReadVal => SearchCore(o, if b.vals[o.i] == o.v then o.v else 0);
    case CasClaim =>
    case CasValid =>
    case RemKey =>
    case _ =>
  }

  lemma Turned(run: seq<State>, k: nat, b: Bucket, ops: seq<OpOk>, p: nat) returns (longer: seq<State>)
    requires Reaches(run, k, b, ops) && p < |ops|
    requires var b' := Act(b, p, ops[p]).0; b'.Lookup(k) == 0 && b'.commits < VERSIONS
    ensures Reaches(longer, k, Act(b, p, ops[p]).0, ops[p := Core(Act(b, p, ops[p]).1)])
  {
    var st := run[|run| - 1];
    var st' := After(st, Next(p));
    longer := run + [st'];
    assert Legal(st, Next(p)) && StepOf(st, st');
    assert Core(st.ops[p]) == ops[p];
    ActCore(b, p, st.ops[p]);
    ActKeepsCall(b, p, st.ops[p]);
    forall q | 0 <= q < |ops| ensures Core(st'.ops[q]) == ops[p := Core(Act(b, p, ops[p]).1)][q] {
      assert Core(st.ops[q]) == ops[q];
    }
  }

  /** The search of operation p passes a slot that is not valid. */
  lemma PassedSlot(run: seq<State>, k: nat, b: Bucket, ops: seq<OpOk>, p: nat) returns (longer: seq<State>)
    requires Reaches(run, k, b, ops) && p < |ops| && b.Lookup(k) == 0 && b.commits < VERSIONS
    requires ops[p].pc == ReadVal && b.marks[ops[p].i] != Valid
    ensures Reaches(longer, k, b, ops[p := Core(SearchNext(ops[p].(v := b.vals[ops[p].i])))])
  {
    longer := Turned(run, k, b, ops, p);
    var ops' := ops[p := ops[p].(v := b.vals[ops[p].i], pc := ReadMark)];
    assert Core(ops[p]) == ops[p];
    longer := Turned(longer, k, b, ops', p);
    assert ops'[p := Core(SearchNext(ops'[p]))] == ops[p := Core(SearchNext(ops[p].(v := b.vals[ops[p].i])))];
  }

  /** A put from its call to before its validating swap, in a bucket without
      valid slots. */
  lemma PutStores(run: seq<State>, k: nat, b: Bucket, ops: seq<OpOk>, p: nat, key: nat, val: nat)
    returns (longer: seq<State>, o: OpOk)
    requires Reaches(run, k, b, ops) && p < |ops| && b.commits < VERSIONS
    requires b.marks == [Invld, Invld, Invld]
    requires ops[p] == Core(Invocation(b, Put, key, val, 0))
    ensures o == ops[p].(pc := CasValid, idx := 0, snap := b.Snapshot(), seen := b.commits, i := 2, v := b.vals[2])
    ensures Reaches(longer, k,
                    b.(marks := b.marks[0 := Insrt], claims := b.claims[0 := Claim(p, key, val)],
                       vals := b.vals[0 := val], keys := b.keys[0 := key], written := b.written + {val}),
                    ops[p := o])
  {
    var o0: OpOk := ops[p].(snap := b.Snapshot(), seen := b.commits, pc := ReadVal);
    longer := Turned(run, k, b, ops, p);
    assert ops[p := Core(Act(b, p, ops[p]).1)] == ops[p := o0];
    longer := PassedSlot(longer, k, b, ops[p := o0], p);
    var o1: OpOk := o0.(i := 1, v := b.vals[0]);
    assert ops[p := o0][p := o1] == ops[p := o1];
    longer := PassedSlot(longer, k, b, ops[p := o1], p);
    var o2: OpOk := o0.(i := 2, v := b.vals[1]);
    assert ops[p := o1][p := o2] == ops[p := o2];
    longer := PassedSlot(longer, k, b, ops[p := o2], p);
    var o3: OpOk := o0.(i := 2, v := b.vals[2], pc := CasClaim, idx := 0);
    assert ops[p := o2][p := o3] == ops[p := o3];
    longer := Turned(longer, k, b, ops[p := o3], p);
    var b4 := b.(marks := b.marks[0 := Insrt], claims := b.claims[0 := Claim(p, key, val)]);
    var o4: OpOk := o3.(pc := WriteVal);
    assert ops[p := o3][p := o4] == ops[p := o4];
    longer := Turned(longer, k, b4, ops[p := o4], p);
    var b5 := b4.(vals := b.vals[0 := val], written := b.written + {val});
    var o5: OpOk := o3.(pc := WriteKey);
    assert ops[p := o4][p := o5] == ops[p := o5];
    longer := Turned(longer, k, b5, ops[p := o5], p);
    o := o3.(pc := CasValid);
    assert ops[p := o5][p := o] == ops[p := o];
  }

  /** The bucket after a put of (k, v). */
  function One(k: nat, v: nat): Bucket {
    EMPTY.(marks := [Valid, Invld, Invld], claims := EMPTY.claims[0 := Claim(0, k, v)],
           vals := [v, 0, 0], keys := [k, 0, 0], written := {v}, commits := 1)
  }

  /** A get of k' sees the value v in a valid slot 0. */
  lemma GetLooks(run: seq<State>, k: nat, k': nat, v: nat, d: OpOk) returns (longer: seq<State>, g: OpOk)
    requires k != k' && Reaches(run, k', One(k, v), [d])
    ensures g.kind.Get? && g.key == k' && g.pc == ReadKey && g.i == 0 && g.v == v
    ensures Reaches(longer, k', One(k, v), [d, g])
  {
    var b := One(k, v);
    longer := Called(run, k', b, [d], Get, k', 1);
    var g0: OpOk := Core(Invocation(b, Get, k', 1, 0));
    assert [d] + [g0] == [d, g0];
    longer := Turned(longer, k', b, [d, g0], 1);
    var g1: OpOk := g0.(v := v, pc := ReadMark);
    assert [d, g0][1 := g1] == [d, g1];
    longer := Turned(longer, k', b, [d, g1], 1);
    g := g1.(pc := ReadKey);
    assert [d, g1][1 := g] == [d, g];
  }

  /** A remove of k takes the pair in slot 0. */
  lemma RemoveTakes(run: seq<State>, k: nat, k': nat, v: nat, d: OpOk, g: OpOk) returns (longer: seq<State>, r: OpOk)
    requires k != k' && Reaches(run, k', One(k, v), [d, g])
    ensures Reaches(longer, k', One(k, v).(marks := [Invld, Invld, Invld]), [d, g, r]) && r.kind.Remove? && r.key == k
  {
    var b := One(k, v);
    longer := Called(run, k', b, [d, g], Remove, k, 1);
    var r0: OpOk := Core(Invocation(b, Remove, k, 1, 0));
    assert [d, g] + [r0] == [d, g, r0];
    longer := Turned(longer, k', b, [d, g, r0], 2);
    var r1: OpOk := r0.(snap := b.Snapshot(), seen := 1, pc := RemKey);
    assert [d, g, r0][2 := r1] == [d, g, r1];
    longer := Turned(longer, k', b, [d, g, r1], 2);
    var r2: OpOk := r1.(pc := RemVal);
    assert [d, g, r1][2 := r2] == [d, g, r2];
    longer := Turned(longer, k', b, [d, g, r2], 2);
    var r3: OpOk := r1.(v := v, pc := RemCas);
    assert [d, g, r2][2 := r3] == [d, g, r3];
    longer := Turned(longer, k', b, [d, g, r3], 2);
    r := Core(r3.(result := v, pc := Done));
    assert b.marks[0 := Invld] == [Invld, Invld, Invld];
    assert [d, g, r3][2 := r] == [d, g, r];
  }

  /** A put of (k', v) stores its pair in slot 0 without validating it, and the
      get finds it there. */
  lemma GetIsFooled(run: seq<State>, k: nat, k': nat, v: nat, d: OpOk, g: OpOk, r: OpOk)
    returns (longer: seq<State>, g': OpOk, o: OpOk)
    requires k != k' && v != 0 && Reaches(run, k', One(k, v).(marks := [Invld, Invld, Invld]), [d, g, r])
    requires g.kind.Get? && g.key == k' && g.pc == ReadKey && g.i == 0 && g.v == v
    ensures |longer| > 0 && Reaches(longer, k', longer[|longer| - 1].b, [d, g', r, o])
    ensures g'.kind.Get? && g'.key == k' && g'.pc == Done && g'.result == v
    ensures o.kind.Put? && o.key == k' && o.val == v
  {
    var b := One(k, v).(marks := [Invld, Invld, Invld]);
    longer := Called(run, k', b, [d, g, r], Put, k', v);
    var put2: OpOk := Core(Invocation(b, Put, k', v, 0));
    assert [d, g, r] + [put2] == [d, g, r, put2];
    longer, o := PutStores(longer, k', b, [d, g, r, put2], 3, k', v);
    var b2 := b.(marks := b.marks[0 := Insrt], claims := b.claims[0 := Claim(3, k', v)],
                 vals := b.vals[0 := v], keys := b.keys[0 := k'], written := b.written + {v});
    assert [d, g, r, put2][3 := o] == [d, g, r, o];
    longer := Turned(longer, k', b2, [d, g, r, o], 1);
    var g1: OpOk := Core(g.(pc := ReReadVal));
    assert [d, g, r, o][1 := g1] == [d, g1, r, o];
    longer := Turned(longer, k', b2, [d, g1, r, o], 1);
    g' := Core(g1.(pc := Done, result := v));
    assert [d, g1, r, o][1 := g'] == [d, g', r, o];
  }

  /** The first put, of (k, v), runs to its end. */
  lemma FirstPut(k: nat, k': nat, v: nat) returns (run: seq<State>, d: OpOk)
    requires k != k' && v != 0
    ensures Reaches(run, k', One(k, v), [d]) && d.kind.Put? && d.key == k && d.val == v
  {
    run := [START];
    run := Called(run, k', EMPTY, [], Put, k, v);
    var put1: OpOk := Core(Invocation(EMPTY, Put, k, v, 0));
    assert [] + [put1] == [put1];
    var o;
    run, o := PutStores(run, k', EMPTY, [put1], 0, k, v);
    assert [put1][0 := o] == [o];
    run := Turned(run, k', One(k, v).(marks := [Insrt, Invld, Invld], commits := 0), [o], 0);
    d := Core(o.(pc := Done, result := 1));
    assert [o][0 := d] == [d];
  }

  /** Operation 0 puts (k, v).  Operation 1, a get of k', reads the value v in
      slot 0 and finds the slot valid.  Operation 2 removes k.  Operation 3, a
      put of (k', v), claims the slot and stores its pair without validating
      it.  Now the get finds its key and an unchanged value: it answers v, though
      k' was never in the bucket.  So any value that is put under two keys can
      be answered wrongly. */
  lemma HitNeedsFreshValues(k: nat, k': nat, v: nat) returns (run: seq<State>)
    requires k != k' && v != 0
    ensures IsRun(run)
    ensures var o := run[|run| - 1].ops;
            && |o| == 4
            && o[0].kind.Put? && o[0].key == k && o[0].val == v
            && o[1].kind.Get? && o[1].key == k' && o[1].pc == Done && o[1].result == v
            && o[2].kind.Remove? && o[2].key == k
            && o[3].kind.Put? && o[3].key == k' && o[3].val == v
    ensures !WasMapped(run, 1, v)
  {
    var d, g, r, o;
    run, d := FirstPut(k, k', v);
    run, g := GetLooks(run, k, k', v, d);
    run, r := RemoveTakes(run, k, k', v, d, g);
    run, g, o := GetIsFooled(run, k, k', v, d, g, r);
    var ops := run[|run| - 1].ops;
    assert Core(ops[0]) == d && Core(ops[1]) == g && Core(ops[2]) == r && Core(ops[3]) == o;
  }
}
