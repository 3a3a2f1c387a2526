/** Products of variables, kept behind a name so that proofs use only the laws they need. */
module Products {

  function Mul(a: int, b: int): int {
    a * b
  }

  lemma MulAdds(a: int, b: int, k: int)
    ensures Mul(a + b, k) == Mul(a, k) + Mul(b, k) && Mul(k, a + b) == Mul(k, a) + Mul(k, b)
  {
  }

  lemma MulAssociates(a: int, b: int, k: int)
    ensures Mul(Mul(a, b), k) == Mul(a, Mul(b, k))
  {
  }

  lemma MulGrows(a: int, b: int, k: int)
    requires a < b && k >= 0
    ensures Mul(a, k) + k <= Mul(b, k)
  {
    assert (b - a - 1) * k >= 0;
    assert (b - a - 1) * k == b * k - a * k - k;
  }

  lemma MulZero(k: int)
    ensures Mul(0, k) == 0 && Mul(1, k) == k && Mul(k, 0) == 0 && Mul(256, k) == 256 * k && Mul(k, 256) == 256 * k
  {
  }

  lemma MulDivides(b: int, k: int)
    requires k >= 1
    ensures b == Mul(b / k, k) + b % k && 0 <= b % k < k
    ensures b >= 0 ==> b / k >= 0
  {
  }

  /** A number written with a remainder below m is written so in one way. */
  lemma DigitsAreUnique(x: int, y: int, x': int, y': int, m: int)
    requires 0 <= y < m && 0 <= y' < m && Mul(x, m) + y == Mul(x', m) + y'
    ensures x == x' && y == y'
  {
    hide Mul;
    if x < x' { MulGrows(x, x', m); }
    if x' < x { MulGrows(x', x, m); }
  }

  lemma DigitsOrder(x: int, y: int, n: int, m: int)
    requires 0 <= y < m
    ensures Mul(n, m) <= Mul(x, m) + y <= Mul(n, m) + m - 1 <==> x == n
  {
    hide Mul;
    if x < n { MulGrows(x, n, m); }
    if n < x { MulGrows(n, x, m); }
  }

  lemma MulNonNegative(a: int, b: int)
    requires a >= 0 && b >= 0
    ensures Mul(a, b) >= 0
  {
  }

  /** Whole parts of two lengths fit the length of both. */
  lemma QuotientsAdd(a: int, b: int, k: int)
    requires k >= 1
    ensures a / k + b / k <= (a + b) / k
  {
    MulDivides(a, k);
    MulDivides(b, k);
    MulDivides(a + b, k);
    MulAdds(a / k, b / k, k);
    hide Mul;
    var sum, all := a / k + b / k, (a + b) / k;
    if all < sum { MulGrows(all, sum, k); }
  }

  lemma QuotientIsPositive(d: int, k: int)
    requires k >= 1
    ensures d >= k <==> d / k >= 1
    ensures 0 <= d ==> 0 <= d / k
  {
    MulDivides(d, k);
    MulZero(k);
    hide Mul;
    if d / k < 1 { MulGrows(d / k, 1, k); }
    if d / k < 0 { MulGrows(d / k, 0, k); }
    if d / k > 1 { MulGrows(1, d / k, k); }
  }

  lemma QuotientOfMultiple(m: int, k: int)
    requires k >= 1
    ensures Mul(m, k) / k == m
  {
    MulDivides(Mul(m, k), k);
    DigitsAreUnique(m, 0, Mul(m, k) / k, Mul(m, k) % k, k);
  }
}
