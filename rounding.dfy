/** Decimal rounding as the host platform's round($x, 2) does it, on exact reals. */
module Rounding {
  function Abs(x: real): real {
    if x < 0.0 then -x else x
  }

  /** x is a whole number of hundredths. */
  predicate IsCents(x: real) {
    (x * 100.0).Floor as real == x * 100.0
  }

  /** Rounds to the nearest hundredth; a value exactly half-way goes away from zero. */
  function Round2(x: real): (r: real)
    ensures IsCents(r)
    ensures x >= 0.0 ==> -0.005 < r - x <= 0.005
    ensures x < 0.0 ==> -0.005 <= r - x < 0.005
    ensures Abs(r - x) <= 0.005
  {
    if x >= 0.0 then
      var n := (x * 100.0 + 0.5).Floor;
      assert (n as real / 100.0) * 100.0 == n as real;
      n as real / 100.0
    else
      var n := (-x * 100.0 + 0.5).Floor;
      assert (-(n as real / 100.0)) * 100.0 == (-n) as real;
      -(n as real / 100.0)
  }

  /** Two whole-hundredth values closer than one hundredth are equal. */
  lemma CentsApart(a: real, b: real)
    requires IsCents(a) && IsCents(b)
    requires Abs(a - b) < 0.01
    ensures a == b
  {
    var n, m := (a * 100.0).Floor, (b * 100.0).Floor;
    assert n as real == a * 100.0 && m as real == b * 100.0;
    assert -1 < n - m < 1;
  }

  /** The sum of two whole-hundredth values is one. */
  lemma CentsSum(a: real, b: real)
    requires IsCents(a) && IsCents(b)
    ensures IsCents(a + b)
  {
    var n, m := (a * 100.0).Floor, (b * 100.0).Floor;
    assert (a + b) * 100.0 == (n + m) as real;
  }

  /** Rounding a value less than half a hundredth away from a whole hundredth gives that hundredth. */
  lemma Round2Near(c: real, d: real)
    requires IsCents(c)
    requires Abs(d) < 0.005
    ensures Round2(c + d) == c
  {
    CentsApart(Round2(c + d), c);
  }

  /** A whole-hundredth value is its own rounding; in particular rounding twice is rounding once. */
  lemma Round2OfCents(c: real)
    requires IsCents(c)
    ensures Round2(c) == c
  {
    Round2Near(c, 0.0);
  }

  /** Adding a non-negative whole-hundredth amount to a non-negative value commutes with rounding. */
  lemma Round2Shift(y: real, k: real)
    requires y >= 0.0 && k >= 0.0 && IsCents(k)
    ensures Round2(y + k) == Round2(y) + k
  {
    CentsSum(Round2(y), k);
    CentsApart(Round2(y + k), Round2(y) + k);
  }
}
