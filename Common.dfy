/** Helpers shared by the rest of the model: an optional value, JavaScript's
    truthiness test on an optional string, and exact integer versions of
    `Math.round` and `Math.ceil` applied to a quotient. */
module Common {

  datatype Option<T> = None | Some(value: T) {
    function GetOr(default: T): T {
      if Some? then value else default
    }
  }

  function Min(a: int, b: int): int { if a <= b then a else b }

  function Max(a: int, b: int): int { if a >= b then a else b }

  /** `!!s` for a request or form field that may be missing: it is
      truthy exactly when it is present and not the empty string. */
  predicate Present(s: Option<string>) {
    s.Some? && s.value != ""
  }

  /** `Math.round(n / d)` for a positive divisor: the integer nearest to
      n/d, a half rounded up (towards +infinity), as JavaScript does. */
  function RoundDiv(n: int, d: int): (r: int)
    requires d > 0
    ensures d * (2 * r - 1) <= 2 * n < d * (2 * r + 1)
    ensures n >= 0 ==> r >= 0
  {
    (2 * n + d) / (2 * d)
  }

  /** `Math.ceil(n / d)` for a positive divisor. */
  function CeilDiv(n: int, d: int): (r: int)
    requires d > 0
    ensures d * (r - 1) < n <= d * r
  {
    -((-n) / d)
  }

  /** Rounding a quotient that lies between two integers stays between them. */
  lemma RoundDivBetween(n: int, d: int, lo: int, hi: int)
    requires d > 0 && lo * d <= n <= hi * d
    ensures lo <= RoundDiv(n, d) <= hi
  {
    RoundDivAtMost(n, d, hi);
    RoundDivAtLeast(n, d, lo);
  }

  lemma RoundDivAtMost(n: int, d: int, hi: int)
    requires d > 0 && n <= hi * d
    ensures RoundDiv(n, d) <= hi
  {
    var r := RoundDiv(n, d);
    assert d * (2 * hi + 1) == 2 * (hi * d) + d;
    MulCancelLess(d, 2 * r - 1, 2 * hi + 1);
  }

  lemma RoundDivAtLeast(n: int, d: int, lo: int)
    requires d > 0 && lo * d <= n
    ensures lo <= RoundDiv(n, d)
  {
    var r := RoundDiv(n, d);
    assert d * (2 * lo - 1) == 2 * (lo * d) - d;
    MulCancelLess(d, 2 * lo - 1, 2 * r + 1);
  }

  /** The nearest-integer property determines the rounded value. */
  lemma RoundDivUnique(n: int, d: int, r: int)
    requires d > 0 && d * (2 * r - 1) <= 2 * n < d * (2 * r + 1)
    ensures RoundDiv(n, d) == r
  {
    var q := RoundDiv(n, d);
    MulCancelLess(d, 2 * q - 1, 2 * r + 1);
    MulCancelLess(d, 2 * r - 1, 2 * q + 1);
  }

  /** A positive factor can be cancelled from a strict inequality. */
  lemma MulCancelLess(d: int, a: int, b: int)
    requires d > 0 && d * a < d * b
    ensures a < b
  {
    assert d * (b - a) == d * b - d * a;
    PositiveFactor(d, b - a);
  }

  lemma PositiveFactor(d: int, x: int)
    requires d > 0 && d * x > 0
    ensures x > 0
  {
  }
}
