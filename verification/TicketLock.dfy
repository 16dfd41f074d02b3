/** The ticket lock with its two 32-bit counters, used by any number of threads
    below 2^32 that lock, trylock and unlock.  A turn is one access to the lock
    word. */
module TicketLock {
  import opened Arith

  const WORD32 := 0x1_0000_0000

  /** A thread in the queue remembers the place `n` it drew, counted without
      wrap-around; the source keeps only `ticket`. */
  datatype Pc =
    | Outside
    | Waiting(ticket: nat, n: nat)       // spins until curr == ticket
    | TryRead(ticket: nat, curr: nat)    // trylock has read the whole word
    | Inside(n: nat)                     // holds the lock
    | Leaving(n: nat, curr: nat)         // curr++ has read curr

  /** `taken` lists the threads in the order of their places, and `served` how
      many of them have left. */
  datatype State = State(ticket: nat, curr: nat, threads: seq<Pc>, taken: seq<nat>, served: nat)

  datatype Action = Lock | TryLock | Go | Unlock

  ghost predicate Enabled(st: State, p: nat, a: Action) {
    && p < |st.threads|
    && match st.threads[p]
       case Outside => a.Lock? || a.TryLock?
       case Waiting(t, _) => a.Go? && t == st.curr
       case TryRead(_, _) => a.Go?
       case Inside(_) => a.Unlock?
       case Leaving(_, _) => a.Go?
  }

  function Goto(st: State, p: nat, pc: Pc): State
    requires p < |st.threads|
  {
    st.(threads := st.threads[p := pc])
  }

  /** FAI_U32 or the compare-and-swap of trylock: thread p takes a place. */
  function TakePlace(st: State, p: nat, pc: Pc): State
    requires p < |st.threads|
  {
    Goto(st.(ticket := (st.ticket + 1) % WORD32, taken := st.taken + [p]), p, pc)
  }

  function Next(st: State, p: nat, a: Action): State
    requires Enabled(st, p, a)
  {
    match st.threads[p]
    case Outside =>
      if a.Lock? then TakePlace(st, p, Waiting(st.ticket, |st.taken|))
      else Goto(st, p, if st.curr == st.ticket then TryRead(st.ticket, st.curr) else Outside)
    case Waiting(_, n) => Goto(st, p, Inside(n))
    case TryRead(t, c) =>
      if (st.ticket, st.curr) == (t, c) then TakePlace(st, p, Inside(|st.taken|)) else Goto(st, p, Outside)
    case Inside(n) => Goto(st, p, Leaving(n, st.curr))
    case Leaving(n, c) => Goto(st.(curr := (c + 1) % WORD32, served := st.served + 1), p, Outside)
  }

  // ---- the invariant -------------------------------------------------------

  predicate Queued(pc: Pc) {
    pc.Waiting? || pc.Inside? || pc.Leaving?
  }

  predicate Holds(pc: Pc) {
    pc.Inside? || pc.Leaving?
  }

  /** A queued thread has its own place among those not served yet; a holder has
      the first of them. */
  ghost predicate PlaceOk(st: State, p: nat)
    requires p < |st.threads|
  {
    var pc := st.threads[p];
    && (Queued(pc) ==> st.served <= pc.n < |st.taken| && st.taken[pc.n] == p)
    && (pc.Waiting? ==> pc.ticket == pc.n % WORD32)
    && (Holds(pc) ==> pc.n == st.served)
    && (pc.Leaving? ==> pc.curr == st.curr)
    && (pc.TryRead? ==> pc.ticket == pc.curr)
  }

  /** Every place not served yet belongs to a queued thread. */
  ghost predicate OwnerOk(st: State, n: nat)
    requires n < |st.taken|
  {
    var p := st.taken[n];
    p < |st.threads| && Queued(st.threads[p]) && st.threads[p].n == n
  }

  ghost predicate Inv(st: State) {
    && st.served <= |st.taken| && |st.threads| < WORD32
    && st.ticket == |st.taken| % WORD32 && st.curr == st.served % WORD32
    && (forall p | 0 <= p < |st.threads| :: PlaceOk(st, p))
    && (forall n | st.served <= n < |st.taken| :: OwnerOk(st, n))
  }

  /** Different small numbers are different modulo 2^32. */
  lemma NoWrap(a: nat, b: nat)
    requires a <= b < a + WORD32 && a % WORD32 == b % WORD32
    ensures a == b
  {
    DivMod(a, WORD32);
    DivMod(b, WORD32);
    var d := b / WORD32 - a / WORD32;
    assert b - a == d * WORD32;
  }

  /** Fewer than 2^32 threads are queued at a time. */
  lemma QueueIsShort(st: State)
    requires Inv(st)
    ensures |st.taken| - st.served <= |st.threads|
  {
    var q := st.taken[st.served..];
    forall i | 0 <= i < |q| ensures q[i] < |st.threads| {
      assert OwnerOk(st, st.served + i);
    }
    forall i, j | 0 <= i < j < |q| ensures q[i] != q[j] {
      assert OwnerOk(st, st.served + i) && OwnerOk(st, st.served + j);
    }
    DistinctIsShort(q, |st.threads|);
  }

  lemma {:induction false} DistinctIsShort(q: seq<nat>, m: nat)
    requires (forall i | 0 <= i < |q| :: q[i] < m) && forall i, j | 0 <= i < j < |q| :: q[i] != q[j]
    ensures |q| <= m
  {
    assert |q| > 0 ==> q[0] < m;
    if m > 0 && m - 1 in q {
      var i :| 0 <= i < |q| && q[i] == m - 1;
      var r := q[..i] + q[i + 1..];
      forall k | 0 <= k < |r| ensures r[k] < m - 1 { assert r[k] == q[if k < i then k else k + 1]; }
      DistinctIsShort(r, m - 1);
    } else if m > 0 {
      forall k | 0 <= k < |q| ensures q[k] < m - 1 { assert q[k] in q; }
      DistinctIsShort(q, m - 1);
    }
  }

  /** A waiting thread gets in exactly when its place is the next one. */
  lemma EntersInTurn(st: State, p: nat)
    requires Inv(st) && p < |st.threads| && st.threads[p].Waiting?
    ensures Enabled(st, p, Go) <==> st.threads[p].n == st.served
  {
    assert PlaceOk(st, p);
    QueueIsShort(st);
    if Enabled(st, p, Go) { NoWrap(st.served, st.threads[p].n); }
  }

  /** The compare-and-swap of trylock succeeds only on a free lock, even if the
      word went through other values since it was read. */
  lemma TryLockNeedsFree(st: State, p: nat)
    requires Inv(st) && p < |st.threads| && st.threads[p].TryRead?
    requires (st.ticket, st.curr) == (st.threads[p].ticket, st.threads[p].curr)
    ensures st.served == |st.taken|
  {
    assert PlaceOk(st, p);
    QueueIsShort(st);
    NoWrap(st.served, |st.taken|);
  }

  lemma NextOfModulus(n: nat)
    ensures (n % WORD32 + 1) % WORD32 == (n + 1) % WORD32
  {
  }

  lemma NextKeepsInv(st: State, p: nat, a: Action)
    requires Inv(st) && Enabled(st, p, a)
    ensures Inv(Next(st, p, a))
  {
    var st' := Next(st, p, a);
    assert PlaceOk(st, p);
    NextOfModulus(|st.taken|);
    NextOfModulus(st.served);
    if st.threads[p].Waiting? { EntersInTurn(st, p); }
    if st.threads[p].TryRead? && (st.ticket, st.curr) == (st.threads[p].ticket, st.threads[p].curr) { TryLockNeedsFree(st, p); }
    forall q | 0 <= q < |st'.threads| ensures PlaceOk(st', q) {
      assert PlaceOk(st, q);
    }
    forall n | st'.served <= n < |st'.taken| ensures OwnerOk(st', n) {
      if n < |st.taken| { assert OwnerOk(st, n); }
    }
  }

  // ---- runs ----------------------------------------------------------------

  type Run = seq<(nat, Action)>

  ghost predicate IsRun(st: State, run: Run)
    decreases |run|
  {
    |run| > 0 ==> Enabled(st, run[0].0, run[0].1) && IsRun(Next(st, run[0].0, run[0].1), run[1..])
  }

  function EndOf(st: State, run: Run): State
    requires IsRun(st, run)
    decreases |run|
  {
    if run == [] then st else EndOf(Next(st, run[0].0, run[0].1), run[1..])
  }

  /** After ticket_init. */
  predicate Initial(st: State) {
    && st.ticket == 0 && st.curr == 0 && st.taken == [] && st.served == 0 && |st.threads| < WORD32
    && forall p | 0 <= p < |st.threads| :: st.threads[p].Outside?
  }

  lemma {:induction false} RunKeepsInv(st: State, run: Run)
    requires Inv(st) && IsRun(st, run)
    ensures Inv(EndOf(st, run))
    decreases |run|
  {
    if run != [] {
      NextKeepsInv(st, run[0].0, run[0].1);
      RunKeepsInv(Next(st, run[0].0, run[0].1), run[1..]);
    }
  }

  lemma InitialIsOk(st: State)
    requires Initial(st)
    ensures Inv(st)
  {
    forall p | 0 <= p < |st.threads| ensures PlaceOk(st, p) {}
  }

  /** Mutual exclusion, after any run, across any number of wrap-arounds. */
  lemma AtMostOneHolder(st: State, run: Run, p: nat, q: nat)
    requires Initial(st) && IsRun(st, run)
    requires p < |EndOf(st, run).threads| && q < |EndOf(st, run).threads|
    requires Holds(EndOf(st, run).threads[p]) && Holds(EndOf(st, run).threads[q])
    ensures p == q
  {
    InitialIsOk(st);
    RunKeepsInv(st, run);
    assert PlaceOk(EndOf(st, run), p) && PlaceOk(EndOf(st, run), q);
  }

  /** Blocking requesters are served in the order of their tickets: while a
      thread holds the lock or may enter, no queued thread drew its place before
      it. */
  lemma ServedInOrder(st: State, run: Run, p: nat, q: nat)
    requires Initial(st) && IsRun(st, run)
    requires p < |EndOf(st, run).threads| && q < |EndOf(st, run).threads|
    requires Queued(EndOf(st, run).threads[p]) && Queued(EndOf(st, run).threads[q])
    requires Holds(EndOf(st, run).threads[p]) || Enabled(EndOf(st, run), p, Go)
    ensures EndOf(st, run).threads[p].n <= EndOf(st, run).threads[q].n
  {
    var end := EndOf(st, run);
    InitialIsOk(st);
    RunKeepsInv(st, run);
    assert PlaceOk(end, p) && PlaceOk(end, q);
    if end.threads[p].Waiting? { EntersInTurn(end, p); }
  }

  /** While threads are queued, the first of them holds the lock or may enter. */
  lemma FirstInLineCanGo(st: State, run: Run)
    requires Initial(st) && IsRun(st, run) && EndOf(st, run).served < |EndOf(st, run).taken|
    ensures var end := EndOf(st, run);
            var p := end.taken[end.served];
            p < |end.threads| && (Holds(end.threads[p]) || Enabled(end, p, Go))
  {
    var end := EndOf(st, run);
    InitialIsOk(st);
    RunKeepsInv(st, run);
    assert OwnerOk(end, end.served);
    var p := end.taken[end.served];
    if end.threads[p].Waiting? { EntersInTurn(end, p); }
  }

  // ---- one call ------------------------------------------------------------

  /** Thread p takes no turn in the run. */
  predicate Rests(run: Run, p: nat) {
    forall i | 0 <= i < |run| :: run[i].0 != p
  }

  /** What the others do leaves a thread where it is; while it holds the lock,
      they do not change who is served. */
  lemma {:induction false} OthersLeave(st: State, run: Run, p: nat)
    requires Inv(st) && IsRun(st, run) && p < |st.threads| && Rests(run, p)
    ensures var end := EndOf(st, run);
            && Inv(end) && |end.threads| == |st.threads| && end.threads[p] == st.threads[p]
            && st.served <= end.served && |st.taken| <= |end.taken|
            && (Holds(st.threads[p]) ==> end.served == st.served)
    decreases |run|
  {
    if run != [] {
      var (q, a) := run[0];
      assert PlaceOk(st, p) && PlaceOk(st, q);
      NextKeepsInv(st, q, a);
      OthersLeave(Next(st, q, a), run[1..], p);
    }
  }

  /** A call of lock takes the next place; the thread's own next turn, whatever
      the others do before it, is to enter, when all before it have left. */
  lemma LockEnters(st: State, p: nat, run: Run)
    requires Inv(st) && Enabled(st, p, Lock) && IsRun(Next(st, p, Lock), run) && Rests(run, p)
    requires Enabled(EndOf(Next(st, p, Lock), run), p, Go)
    ensures var end := Next(EndOf(Next(st, p, Lock), run), p, Go);
            p < |end.threads| && end.threads[p] == Inside(|st.taken|) && end.served == |st.taken|
  {
    NextKeepsInv(st, p, Lock);
    OthersLeave(Next(st, p, Lock), run, p);
    EntersInTurn(EndOf(Next(st, p, Lock), run), p);
  }

  /** A call of trylock enters at once, or it does not enter: it does exactly if
      the lock is free when it looks and nobody has taken a place before it
      does. */
  lemma TryLockEnters(st: State, p: nat, run: Run)
    requires Inv(st) && Enabled(st, p, TryLock) && IsRun(Next(st, p, TryLock), run) && Rests(run, p)
    requires st.served == |st.taken|
    ensures var mid := EndOf(Next(st, p, TryLock), run);
            && Enabled(mid, p, Go)
            && var end := Next(mid, p, Go);
               (end.threads[p].Inside? || end.threads[p].Outside?)
               && (|mid.taken| < |st.taken| + WORD32 ==> (end.threads[p].Inside? <==> |mid.taken| == |st.taken|))
  {
    var mid := EndOf(Next(st, p, TryLock), run);
    NextKeepsInv(st, p, TryLock);
    OthersLeave(Next(st, p, TryLock), run, p);
    if (mid.ticket, mid.curr) == (st.ticket, st.curr) && |mid.taken| < |st.taken| + WORD32 {
      NoWrap(|st.taken|, |mid.taken|);
    }
  }

  /** On a lock that is not free trylock fails without taking a place. */
  lemma TryLockFails(st: State, p: nat)
    requires Inv(st) && Enabled(st, p, TryLock) && st.served < |st.taken|
    ensures Next(st, p, TryLock) == st
  {
    QueueIsShort(st);
    if st.ticket == st.curr { NoWrap(st.served, |st.taken|); }
    assert st.threads[p := Outside] == st.threads;
  }

  /** An unlock, whatever the others do between its two accesses, leaves the
      thread outside and the next place to be served. */
  lemma UnlockLeaves(st: State, p: nat, run: Run)
    requires Inv(st) && Enabled(st, p, Unlock) && IsRun(Next(st, p, Unlock), run) && Rests(run, p)
    ensures var mid := EndOf(Next(st, p, Unlock), run);
            && Enabled(mid, p, Go)
            && var end := Next(mid, p, Go);
               end.threads[p].Outside? && end.served == st.served + 1 && end.taken == mid.taken
  {
    assert PlaceOk(st, p);
    NextKeepsInv(st, p, Unlock);
    OthersLeave(Next(st, p, Unlock), run, p);
  }
}
