/** Division and multiplication of naturals, one small step at a time. */
module Arith {

  lemma {:induction false} MulMono(a: nat, b: nat, m: nat)
    requires a <= b
    ensures a * m <= b * m
  {
    if a < b {
      MulMono(a, b - 1, m);
      assert b * m == (b - 1) * m + m;
    }
  }

  lemma MulGap(a: nat, b: nat, m: nat)
    requires a < b
    ensures a * m + m <= b * m
  {
    MulMono(a + 1, b, m);
    assert (a + 1) * m == a * m + m;
  }

  lemma DivMod(n: nat, m: nat)
    requires m > 0
    ensures n == n / m * m + n % m && n % m < m
  {
  }

  lemma DivUnique(n: nat, m: nat, d: nat, r: nat)
    requires n == d * m + r && r < m
    ensures n / m == d && n % m == r
  {
    var e := n / m;
    DivMod(n, m);
    if e < d { MulGap(e, d, m); }
    if d < e { MulGap(d, e, m); }
  }

  lemma DivMono(a: nat, b: nat, m: nat)
    requires m > 0 && a <= b
    ensures a / m <= b / m
  {
    DivMod(a, m);
    DivMod(b, m);
    if b / m < a / m { MulGap(b / m, a / m, m); }
  }

  lemma DivLess(n: nat, m: nat)
    requires m > 0
    ensures n / m <= n
  {
    DivMod(n, m);
    MulMono(1, m, n / m);
  }
}
