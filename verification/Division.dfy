/** Facts about / and % that the solver is better told than left to find. */
module Division {

  lemma TimesAtLeast(d: int, m: int)
    requires m > 0
    ensures d >= 1 ==> d * m >= m
    ensures d <= -1 ==> d * m <= -m
  {
  }

  /** Quotient and remainder are the only way to split n. */
  lemma Split(n: int, m: int, q: int, r: int)
    requires 0 <= r < m && n == q * m + r
    ensures n / m == q && n % m == r
  {
    TimesAtLeast(n / m - q, m);
    assert (n / m - q) * m == r - n % m;
  }

  lemma TwiceTimes(x: int, y: int)
    ensures 2 * x * y == 2 * (x * y)
  {
  }

  lemma HalfOfSum(d: nat, x: nat)
    ensures (d + 2 * x) / 2 == d / 2 + x
  {
  }

  lemma HalfThenDivide(n: nat, m: nat)
    requires m > 0
    ensures n / 2 / m == n / (2 * m) && n % (2 * m) == n % 2 + 2 * (n / 2 % m)
  {
    var q, r := n / 2 / m, n / 2 % m;
    assert n / 2 == q * m + r;
    assert q * (2 * m) == 2 * (q * m);
    Split(n, 2 * m, q, 2 * r + n % 2);
  }

  lemma SmallModulus(n: nat, m: nat)
    requires n < m
    ensures n % m == n
  {
  }
}
