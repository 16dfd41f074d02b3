/** The per-core counters of insertions and deletions, 64-bit words that wrap
    around. */
module Counters {
  import opened CuckooIndex
  import opened Sums

  /** a and b are the same 64-bit word. */
  ghost predicate Congruent(a: int, b: int) {
    exists q: int :: Apart(a, b, q)
  }

  predicate Apart(a: int, b: int, q: int) {
    a == b + q * WORD
  }

  lemma CongruentWords(a: nat, b: nat)
    ensures Congruent(a, b) <==> a % WORD == b % WORD
  {
    var d := a / WORD - b / WORD;
    assert a == a / WORD * WORD + a % WORD && b == b / WORD * WORD + b % WORD;
    if a % WORD == b % WORD {
      assert Apart(a, b, d);
    } else if q: int :| Apart(a, b, q) {
      CloseWords(a % WORD, b % WORD, q - d);
    }
  }

  lemma CloseWords(x: Word, y: Word, q: int)
    requires Apart(x, y, q)
    ensures x == y
  {
  }

  /** inserts minus deletes, in 64-bit words, is the number of entries. */
  ghost predicate Counts(inserts: seq<nat>, deletes: seq<nat>, n: nat) {
    Congruent(Sum(inserts), Sum(deletes) + n)
  }

  lemma ResetCounts(inserts: seq<nat>, deletes: seq<nat>)
    requires inserts == deletes
    ensures Counts(inserts, deletes, 0)
  {
    assert Apart(Sum(inserts), Sum(deletes) + 0, 0);
  }

  /** A fetch_add of 1 on one counter. */
  function Bump(counters: seq<nat>, c: nat): seq<nat>
    requires c < |counters|
  {
    counters[c := if counters[c] + 1 < WORD then counters[c] + 1 else 0]
  }

  lemma BumpSum(counters: seq<nat>, c: nat)
    requires c < |counters| && counters[c] < WORD
    ensures Congruent(Sum(Bump(counters, c)), Sum(counters) + 1)
  {
    var x := counters[c];
    SumUpdate(counters, c, if x + 1 < WORD then x + 1 else 0);
    assert Apart(Sum(Bump(counters, c)), Sum(counters) + 1, if x + 1 < WORD then 0 else -1);
  }

  /** Counting one insertion or one deletion, whichever thread does it. */
  lemma BumpCounts(inserts: seq<nat>, deletes: seq<nat>, n: nat, c: nat)
    requires Counts(inserts, deletes, n) && c < |inserts| == |deletes| && inserts[c] < WORD && deletes[c] < WORD
    ensures Counts(Bump(inserts, c), deletes, n + 1)
    ensures n > 0 ==> Counts(inserts, Bump(deletes, c), n - 1)
  {
    var (i, d, i', d') := (Sum(inserts), Sum(deletes), Sum(Bump(inserts, c)), Sum(Bump(deletes, c)));
    var q: int :| Apart(i, d + n, q);
    BumpSum(inserts, c);
    BumpSum(deletes, c);
    var p: int :| Apart(i', i + 1, p);
    var r: int :| Apart(d', d + 1, r);
    assert Apart(i', d + (n + 1), p + q);
    assert Apart(i, d' + (n - 1), q - r);
  }

  /** Subtraction of 64-bit words. */
  function Minus(a: Word, b: Word): Word {
    if a >= b then a - b else a + WORD - b
  }

  /** What cuckoo_size computes from counters that agree with n entries. */
  lemma CountsDiffer(inserts: seq<nat>, deletes: seq<nat>, n: nat)
    requires Counts(inserts, deletes, n)
    ensures Minus(Sum(inserts) % WORD, Sum(deletes) % WORD) == n % WORD
  {
    var (a, b) := (Sum(inserts), Sum(deletes));
    var q: int :| Apart(a, b + n, q);
    var (x, y) := (a % WORD, b % WORD);
    var m := Minus(x, y);
    assert Apart(m, n, q - a / WORD + b / WORD + (if x >= y then 0 else 1)) by {
      assert a == a / WORD * WORD + x && b == b / WORD * WORD + y;
    }
    CongruentWords(m, n);
  }

  lemma AddMod(a: nat, b: nat)
    ensures (a % WORD + b) % WORD == (a + b) % WORD
  {
  }

  /** A sum taken in 64-bit words. */
  method SumWrapped(counters: seq<nat>) returns (sum: Word)
    ensures sum == Sum(counters) % WORD
  {
    sum := 0;
    for i := 0 to |counters|
      invariant sum == Sum(counters[..i]) % WORD
    {
      SumPrefix(counters, i);
      AddMod(Sum(counters[..i]), counters[i]);
      sum := (sum + counters[i]) % WORD;
    }
    assert counters[..|counters|] == counters;
  }
}
