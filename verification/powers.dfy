/** Exact real powers, standing for Math.pow on the arguments the core passes to it. */
module Powers {

  function Pow(x: real, n: nat): real
    decreases n
  {
    if n == 0 then 1.0 else x * Pow(x, n - 1)
  }

  /** A positive base keeps every power positive. */
  lemma {:induction false} PowPositive(x: real, n: nat)
    requires x > 0.0
    ensures Pow(x, n) > 0.0
    decreases n
  {
    if n > 0 {
      PowPositive(x, n - 1);
      assert x * Pow(x, n - 1) > 0.0;
    }
  }

  /** Math.pow with an integer exponent, for a positive base. */
  function PowInt(x: real, n: int): real
    requires x > 0.0
  {
    if n >= 0 then Pow(x, n) else PowPositive(x, -n); 1.0 / Pow(x, -n)
  }

  /** A base above one raised to a positive power stays above one. */
  lemma {:induction false} PowAboveOne(x: real, n: nat)
    requires x > 1.0 && n >= 1
    ensures Pow(x, n) > 1.0
    decreases n
  {
    if n > 1 {
      PowAboveOne(x, n - 1);
      assert x * Pow(x, n - 1) > 1.0 * Pow(x, n - 1);
    }
  }

  /** Math.pow(x, n) equals 1 only for n == 0 when x > 1: the amortization
      denominator vanishes exactly at a zero tenure. */
  lemma PowIntIsOneOnlyAtZero(x: real, n: int)
    requires x > 1.0
    ensures PowInt(x, n) == 1.0 <==> n == 0
  {
    if n > 0 {
      PowAboveOne(x, n);
    } else if n < 0 {
      PowAboveOne(x, -n);
      var p := Pow(x, -n);
      assert 1.0 / p < 1.0 by {
        assert p > 1.0;
        assert (1.0 / p) * p == 1.0;
      }
    }
  }
}
