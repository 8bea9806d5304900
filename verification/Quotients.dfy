/** What a rounded-down quotient is, by its two bounds, and how quotients compare. */
module Quotients {

  /** `x` is how often `d` goes into `n`. */
  ghost predicate IsQuotient(x: int, n: int, d: int) {
    x * d <= n < (x + 1) * d
  }

  lemma OneMore(q: int, d: int)
    ensures (q + 1) * d == q * d + d
  {
  }

  lemma Times(a: int, b: int, d: int)
    requires a <= b && 0 <= d
    ensures a * d <= b * d
  {
  }

  lemma {:induction false} QuotientIs(n: nat, d: nat)
    requires 0 < d
    ensures IsQuotient(n / d, n, d) && 0 <= n / d
  {
    var q, r := n / d, n % d;
    assert n == q * d + r && r < d;
    OneMore(q, d);
  }

  /** The bounds leave one number only. */
  lemma {:induction false} OnlyQuotient(x: int, y: int, n: int, d: int)
    requires 0 < d && IsQuotient(x, n, d) && IsQuotient(y, n, d)
    ensures x == y
  {
    if x < y { Times(x + 1, y, d); }
    if y < x { Times(y + 1, x, d); }
  }

  lemma {:induction false} AtLeast(n: nat, d: nat, x: int)
    requires 0 < d
    ensures n / d >= x <==> n >= x * d
  {
    QuotientIs(n, d);
    if n / d >= x { Times(x, n / d, d); } else { Times(n / d + 1, x, d); }
  }

  /** A larger number over a smaller one gives no less. */
  lemma {:induction false} QuotientGrows(x: int, n: int, d: int, y: int, m: int, c: int)
    requires 0 <= n <= m && 0 < c <= d && IsQuotient(x, n, d) && IsQuotient(y, m, c)
    ensures x <= y
  {
    if x > y {
      NotNegative(y, m, c);
      Times(y + 1, x, d);
      TimesRight(y + 1, c, d);
    }
  }

  lemma TimesRight(a: int, c: int, d: int)
    requires 0 <= a && c <= d
    ensures a * c <= a * d
  {
  }

  lemma {:induction false} NotNegative(y: int, m: int, c: int)
    requires 0 <= m && 0 < c && IsQuotient(y, m, c)
    ensures 0 <= y
  {
    if y + 1 <= 0 { Times(y + 1, 0, c); }
  }

  lemma {:induction false} QuotientWithin(x: int, n: int, t: nat, d: nat)
    requires 0 <= n && 0 < d && t <= d && IsQuotient(x, n * t, d)
    ensures 0 <= x <= n && (t == d ==> x == n)
  {
    TimesRight(n, t, d);
    TimesRight(n, 0, t);
    NotNegative(x, n * t, d);
    if x > n { Times(n + 1, x, d); OneMore(n, d); }
    if t == d && x < n { Times(x + 1, n, d); }
  }
}
