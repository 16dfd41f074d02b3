/** The lock-free bucket of the CLHT table: three slots whose whole control
    state is one 64-bit word (a 32-bit version and one mark byte per slot) that
    is changed by compare-and-swap, while keys and values are plain words next
    to it.

    An operation in flight is a record of its program counter and its locals;
    one turn performs exactly one access to shared memory.  A run interleaves
    any number of operations in any order. */
module LockFreeBucket {

  const SLOTS := 3
  const VERSIONS := 0x1_0000_0000   // the version is a uint32

  datatype Mark = Invld | Valid | Insrt

  type Marks = s: seq<Mark> | |s| == SLOTS witness [Invld, Invld, Invld]
  type Cells = s: seq<nat> | |s| == SLOTS witness [0, 0, 0]

  /** The snapshot word. */
  datatype Word = Word(version: nat, marks: Marks)

  /** Who claimed a slot, and with which key and value.  History only: no step
      reads it. */
  datatype Claim = Claim(id: nat, key: nat, val: nat)

  type Claims = s: seq<Claim> | |s| == SLOTS witness [Claim(0, 0, 0), Claim(0, 0, 0), Claim(0, 0, 0)]

  /** Shared memory.  `commits` counts the validating swaps; the version field
      is its residue.  `claims` and `written` (every value ever stored) are
      history. */
  datatype Bucket = Bucket(commits: nat, marks: Marks, keys: Cells, vals: Cells,
                           claims: Claims, written: set<nat>)
  {
    function Snapshot(): Word {
      Word(commits % VERSIONS, marks)
    }

    /** The value `key` is mapped to, or 0: what the bucket means as a map. */
    function Lookup(key: nat): nat {
      if marks[0] == Valid && keys[0] == key then vals[0]
      else if marks[1] == Valid && keys[1] == key then vals[1]
      else if marks[2] == Valid && keys[2] == key then vals[2]
      else 0
    }

    ghost predicate Holds(i: nat, key: nat) {
      i < SLOTS && marks[i] == Valid && keys[i] == key
    }
  }

  const EMPTY := Bucket(0, [Invld, Invld, Invld], [0, 0, 0], [0, 0, 0],
                        [Claim(0, 0, 0), Claim(0, 0, 0), Claim(0, 0, 0)], {})

  /** The first slot marked Invld in the snapshot, or -1. */
  function EmptyIndex(s: Word): (r: int)
    ensures -1 <= r < SLOTS
    ensures r >= 0 ==> s.marks[r] == Invld && forall j | 0 <= j < r :: s.marks[j] != Invld
    ensures r < 0 ==> forall j | 0 <= j < SLOTS :: s.marks[j] != Invld
  {
    if s.marks[0] == Invld then 0
    else if s.marks[1] == Invld then 1
    else if s.marks[2] == Invld then 2
    else -1
  }

  function SetMark(s: Word, i: nat, m: Mark): Word
    requires i < SLOTS
  {
    s.(marks := s.marks[i := m])
  }

  datatype Kind = Get | Put | Remove

  /** Where an operation is: the access it performs on its next turn. */
  datatype Pc =
    | ReadSnap                                   // s = bucket->snapshot
    | ReadVal | ReadMark | ReadKey | ReReadVal   // clht_bucket_search at slot i
    | CasClaim | WriteVal | WriteKey | CasValid | Abort
    | RemKey | RemVal | RemCas
    | Done

  /** An operation: its arguments, its locals (`idx` is empty_index, `v` the
      value read by the search or about to be returned by remove), its result,
      and history: `seen`, the commits when the snapshot was taken; `past`, the
      values its key had at every instant since the call began; and counters of
      its word changes and failed swaps. */
  datatype Op = Op(kind: Kind, key: nat, val: nat, pc: Pc, snap: Word, idx: int, i: nat, v: nat,
                   result: nat, seen: nat, past: set<nat>, base: nat, mine: nat, fails: nat)

  type OpOk = o: Op | o.i < SLOTS && -2 <= o.idx < SLOTS
    witness Op(Get, 0, 0, Done, Word(0, [Invld, Invld, Invld]), -2, 0, 0, 0, 0, {}, 0, 0, 0)

  function Invocation(b: Bucket, kind: Kind, key: nat, val: nat, changes: nat): OpOk {
    Op(kind, key, val, if kind.Get? then ReadVal else ReadSnap, Word(0, [Invld, Invld, Invld]),
       -2, 0, 0, 0, 0, {b.Lookup(key)}, changes, 0, 0)
  }

  /** clht_bucket_search has returned r. */
  function SearchReturns(o: OpOk, r: nat): OpOk {
    match o.kind
    case Put =>
      if r != 0 then
        if o.idx >= 0 then o.(pc := Abort, v := r) else o.(pc := Done, v := r, result := 0)
      else if o.idx < 0 then
        var e := EmptyIndex(o.snap);
        if e < 0 then o.(pc := ReadSnap, idx := e) else o.(pc := CasClaim, idx := e)
      else o.(pc := CasValid)
    case _ => o.(pc := Done, result := r)
  }

  /** The search moves on from slot i. */
  function SearchNext(o: OpOk): OpOk {
    if o.i + 1 < SLOTS then o.(pc := ReadVal, i := o.i + 1) else SearchReturns(o, 0)
  }

  function RemoveNext(o: OpOk): OpOk {
    if o.i + 1 < SLOTS then o.(pc := RemKey, i := o.i + 1) else o.(pc := Done, result := 0)
  }

  /** The word the next swap of `o` compares with. */
  function Expected(o: OpOk): Word {
    if o.pc in {WriteVal, WriteKey, CasValid} && o.idx >= 0 then SetMark(o.snap, o.idx, Insrt) else o.snap
  }

  /** One turn of operation number p. */
  function Act(b: Bucket, p: nat, o: OpOk): (r: (Bucket, OpOk)) {
    match o.pc
    case ReadSnap =>
      (b, o.(snap := b.Snapshot(), seen := b.commits, i := 0,
             pc := if o.kind.Remove? then RemKey else ReadVal))
    case ReadVal => (b, o.(v := b.vals[o.i], pc := ReadMark))
    case ReadMark => (b, if b.marks[o.i] == Valid then o.(pc := ReadKey) else SearchNext(o))
    case ReadKey => (b, if b.keys[o.i] == o.key then o.(pc := ReReadVal) else SearchNext(o))
    case ReReadVal => (b, SearchReturns(o, if b.vals[o.i] == o.v then o.v else 0))
    case CasClaim =>
      if o.idx >= 0 && b.Snapshot() == Expected(o) then
        (b.(marks := b.marks[o.idx := Insrt], claims := b.claims[o.idx := Claim(p, o.key, o.val)]),
         o.(pc := WriteVal, mine := o.mine + 1))
      else (b, o.(pc := ReadSnap, idx := -2, fails := o.fails + 1))
    case WriteVal =>
      (if o.idx >= 0 then b.(vals := b.vals[o.idx := o.val], written := b.written + {o.val}) else b,
       o.(pc := WriteKey))
    case WriteKey =>
      (if o.idx >= 0 then b.(keys := b.keys[o.idx := o.key]) else b, o.(pc := CasValid))
    case CasValid =>
      if o.idx >= 0 && b.Snapshot() == Expected(o) then
        (b.(marks := b.marks[o.idx := Valid], commits := b.commits + 1),
         o.(pc := Done, result := 1, mine := o.mine + 1))
      else (b, o.(pc := ReadSnap, fails := o.fails + 1))
    case Abort =>
      (if o.idx >= 0 then b.(marks := b.marks[o.idx := Invld]) else b,
       o.(pc := Done, result := 0, mine := o.mine + 1))
    case RemKey =>
      (b, if b.keys[o.i] == o.key && o.snap.marks[o.i] == Valid then o.(pc := RemVal) else RemoveNext(o))
    case RemVal => (b, o.(v := b.vals[o.i], pc := RemCas))
    case RemCas =>
      if b.Snapshot() == Expected(o) then
        (b.(marks := b.marks[o.i := Invld]), o.(pc := Done, result := o.v, mine := o.mine + 1))
      else (b, o.(pc := ReadSnap, fails := o.fails + 1))
    case Done => (b, o)
  }

  datatype State = State(b: Bucket, ops: seq<OpOk>, changes: nat)

  const START := State(EMPTY, [], 0)

  /** An operation still in its call sees the value its key has now. */
  function Observe(b: Bucket, o: OpOk): OpOk {
    if o.pc == Done then o else o.(past := o.past + {b.Lookup(o.key)})
  }

  function Turn(st: State, p: nat): State
    requires p < |st.ops|
  {
    var r := Act(st.b, p, st.ops[p]);
    State(r.0, seq(|st.ops|, q requires 0 <= q < |st.ops| => Observe(r.0, if q == p then r.1 else st.ops[q])),
          st.changes + (if r.0.Snapshot() == st.b.Snapshot() then 0 else 1))
  }

  datatype Event = Invoke(kind: Kind, key: nat, val: nat) | Next(op: nat)

  /** A put is called with a nonzero value: 0 is what the table answers for a
      missing key. */
  predicate Legal(st: State, e: Event) {
    match e
    case Invoke(kind, _, val) => kind.Put? ==> val != 0
    case Next(p) => p < |st.ops|
  }

  function After(st: State, e: Event): State
    requires Legal(st, e)
  {
    match e
    case Invoke(kind, key, val) =>
      st.(ops := st.ops + [Invocation(st.b, kind, key, val, st.changes)])
    case Next(p) => Turn(st, p)
  }
}
