/** The equated-monthly-instalment (EMI) formula shared by the loan variants and
    LoanDetails, with the facts that justify it: paying the EMI every month clears the
    loan after exactly the tenure, and the instalments never total less than the principal. */
module Amortization {
  import opened Powers

  /** 1 + x + ... + x^(n-1), in Horner form. */
  function Geometric(x: real, n: nat): real
    decreases n
  {
    if n == 0 then 0.0 else 1.0 + x * Geometric(x, n - 1)
  }

  /** With a non-negative ratio the sum of at least one term is at least its first term. */
  lemma {:induction false} GeometricAtLeastOne(x: real, n: nat)
    requires x >= 0.0 && n >= 1
    ensures Geometric(x, n) >= 1.0
    decreases n
  {
    if n > 1 {
      GeometricAtLeastOne(x, n - 1);
      assert x * Geometric(x, n - 1) >= 0.0;
    }
  }

  lemma {:induction false} GeometricClosedForm(x: real, n: nat)
    ensures (x - 1.0) * Geometric(x, n) == Pow(x, n) - 1.0
    decreases n
  {
    if n > 0 {
      GeometricClosedForm(x, n - 1);
      ClosedFormStep(x, n);
    }
  }

  /** One step of GeometricClosedForm: the closed form carries over from n - 1 to n. */
  lemma ClosedFormStep(x: real, n: nat)
    requires n > 0 && (x - 1.0) * Geometric(x, n - 1) == Pow(x, n - 1) - 1.0
    ensures (x - 1.0) * Geometric(x, n) == Pow(x, n) - 1.0
  {
    Distribute(x, Geometric(x, n), Geometric(x, n - 1), Pow(x, n), Pow(x, n - 1));
  }

  /** The algebra of one step of GeometricClosedForm. */
  lemma Distribute(x: real, g: real, g1: real, pw: real, p1: real)
    requires (x - 1.0) * g1 == p1 - 1.0
    requires g == 1.0 + x * g1 && pw == x * p1
    ensures (x - 1.0) * g == pw - 1.0
  {
    calc {
      (x - 1.0) * g;
      (x - 1.0) * (1.0 + x * g1);
      (x - 1.0) + x * ((x - 1.0) * g1);
      (x - 1.0) + x * (p1 - 1.0);
      pw - 1.0;
    }
  }

  lemma {:induction false} PowAtLeastOne(x: real, n: nat)
    requires x >= 1.0
    ensures Pow(x, n) >= 1.0
    decreases n
  {
    if n > 0 {
      PowAtLeastOne(x, n - 1);
      assert x * Pow(x, n - 1) >= 1.0 * Pow(x, n - 1);
    }
  }

  /** Each of the n terms is at most x^n. */
  lemma {:induction false} GeometricBound(x: real, n: nat)
    requires x >= 1.0
    ensures Geometric(x, n) <= (n as real) * Pow(x, n)
    decreases n
  {
    if n > 0 {
      GeometricBound(x, n - 1);
      PowAtLeastOne(x, n);
      var g1, p1, k := Geometric(x, n - 1), Pow(x, n - 1), (n - 1) as real;
      assert Geometric(x, n) == 1.0 + x * g1;
      assert Pow(x, n) == x * p1;
      BoundStep(x, g1, p1, k);
    }
  }

  /** The algebra of one step of GeometricBound. */
  lemma BoundStep(x: real, g1: real, p1: real, k: real)
    requires x >= 1.0 && g1 <= k * p1 && x * p1 >= 1.0
    ensures 1.0 + x * g1 <= (k + 1.0) * (x * p1)
  {
    assert x * g1 <= x * (k * p1);
    assert x * (k * p1) == k * (x * p1);
  }

  /** p * r * x / (x - 1): the EMI formula once (1+r)^n has been computed as x. */
  function Instalment(p: real, r: real, x: real): (e: real)
    requires x != 1.0
    ensures e * (x - 1.0) == p * r * x
  {
    p * r * x / (x - 1.0)
  }

  /** The instalment that clears principal p in n months at monthly rate r > 0:
      p * r * (1+r)^n / ((1+r)^n - 1). The denominator is never zero. */
  function Annuity(p: real, r: real, n: nat): (e: real)
    requires r > 0.0 && n >= 1
    ensures e * (Pow(1.0 + r, n) - 1.0) == p * r * Pow(1.0 + r, n)
  {
    PowAboveOne(1.0 + r, n);
    Instalment(p, r, Pow(1.0 + r, n))
  }

  /** The same instalment written as p * (1+r)^n / (1 + (1+r) + ... + (1+r)^(n-1)). */
  lemma AnnuityAsGeometric(p: real, r: real, n: nat)
    requires r > 0.0 && n >= 1
    ensures Annuity(p, r, n) * Geometric(1.0 + r, n) == p * Pow(1.0 + r, n)
  {
    SolvesAsGeometric(p, r, n, Annuity(p, r, n));
  }

  /** Any e solving the EMI equation for n months also solves its geometric form. */
  lemma SolvesAsGeometric(p: real, r: real, n: nat, e: real)
    requires r > 0.0
    requires e * (Pow(1.0 + r, n) - 1.0) == p * r * Pow(1.0 + r, n)
    ensures e * Geometric(1.0 + r, n) == p * Pow(1.0 + r, n)
  {
    GeometricClosedForm(1.0 + r, n);
    CancelRate(p, r, e, Pow(1.0 + r, n), Geometric(1.0 + r, n));
  }

  /** e * (x - 1) == p * r * x and x - 1 == r * g give e * g == p * x. */
  lemma CancelRate(p: real, r: real, e: real, x: real, g: real)
    requires r > 0.0
    requires e * (x - 1.0) == p * r * x && (1.0 + r - 1.0) * g == x - 1.0
    ensures e * g == p * x
  {
    assert r * g == x - 1.0;
    assert (e * g) * r == (p * x) * r;
  }

  /** What is still owed after k instalments of e: a month's interest is added, then e is paid. */
  function Owed(p: real, r: real, e: real, k: nat): real
    decreases k
  {
    if k == 0 then p else Owed(p, r, e, k - 1) * (1.0 + r) - e
  }

  lemma {:induction false} OwedClosedForm(p: real, r: real, e: real, k: nat)
    ensures Owed(p, r, e, k) == p * Pow(1.0 + r, k) - e * Geometric(1.0 + r, k)
    decreases k
  {
    if k > 0 {
      OwedClosedForm(p, r, e, k - 1);
      OwedUnfold(p, r, e, k);
    }
  }

  /** One month of OwedClosedForm: the closed form carries over from k - 1 to k. */
  lemma OwedUnfold(p: real, r: real, e: real, k: nat)
    requires k > 0
    requires Owed(p, r, e, k - 1) == p * Pow(1.0 + r, k - 1) - e * Geometric(1.0 + r, k - 1)
    ensures Owed(p, r, e, k) == p * Pow(1.0 + r, k) - e * Geometric(1.0 + r, k)
  {
    var x := 1.0 + r;
    OwedStep(p, e, x, Owed(p, r, e, k - 1), Owed(p, r, e, k),
             Geometric(x, k), Geometric(x, k - 1), Pow(x, k), Pow(x, k - 1));
  }

  /** The algebra of one step of OwedClosedForm. */
  lemma OwedStep(p: real, e: real, x: real, o1: real, o: real, g: real, g1: real, pw: real, p1: real)
    requires o1 == p * p1 - e * g1
    requires o == o1 * x - e
    requires g == 1.0 + x * g1 && pw == x * p1
    ensures o == p * pw - e * g
  {
    calc {
      o;
      (p * p1 - e * g1) * x - e;
      p * (x * p1) - e * (1.0 + x * g1);
    }
  }

  /** Paying the annuity every month leaves nothing owed after exactly n months. */
  lemma AnnuityClearsLoan(p: real, r: real, n: nat)
    requires r > 0.0 && n >= 1
    ensures Owed(p, r, Annuity(p, r, n), n) == 0.0
  {
    OwedClosedForm(p, r, Annuity(p, r, n), n);
    AnnuityAsGeometric(p, r, n);
  }

  /** Over the whole tenure the instalments repay at least the principal, so the interest
      charged is never negative. */
  lemma AnnuityCoversPrincipal(p: real, r: real, n: nat)
    requires r > 0.0 && n >= 1 && p >= 0.0
    ensures Annuity(p, r, n) * (n as real) >= p
  {
    SolutionCoversPrincipal(p, r, n, Annuity(p, r, n));
  }

  /** Any e solving the EMI equation for n >= 1 months, on a non-negative principal, is at
      least p / n. */
  lemma SolutionCoversPrincipal(p: real, r: real, n: nat, e: real)
    requires r > 0.0 && n >= 1 && p >= 0.0
    requires e * (Pow(1.0 + r, n) - 1.0) == p * r * Pow(1.0 + r, n)
    ensures e * (n as real) >= p
  {
    SolvesAsGeometric(p, r, n, e);
    GeometricBound(1.0 + r, n);
    GeometricAtLeastOne(1.0 + r, n);
    PowAboveOne(1.0 + r, n);
    CoverStep(p, e, Geometric(1.0 + r, n), Pow(1.0 + r, n), n as real);
  }

  /** The algebra of AnnuityCoversPrincipal: e * g == p * x with 1 <= g <= n * x gives
      e * n >= p. */
  lemma CoverStep(p: real, e: real, g: real, x: real, n: real)
    requires p >= 0.0 && x > 1.0 && 1.0 <= g <= n * x
    requires e * g == p * x
    ensures e * n >= p
  {
    assert e >= 0.0 by {
      assert p * x >= 0.0;
      assert e == (p * x) / g;
    }
    assert p * x <= (e * n) * x by {
      assert e * g <= e * (n * x);
    }
  }

  /** A one-month loan is repaid in one instalment of principal plus a month's interest. */
  lemma SingleMonthAnnuity(p: real, r: real)
    requires r > 0.0
    ensures Annuity(p, r, 1) == p * (1.0 + r)
  {
    assert Pow(1.0 + r, 1) == 1.0 + r;
  }

  /** At a zero rate, n equal instalments of p / n clear the loan. */
  lemma ZeroRateClearsLoan(p: real, n: nat)
    requires n >= 1
    ensures Owed(p, 0.0, p / (n as real), n) == 0.0
  {
    OwedClosedForm(p, 0.0, p / (n as real), n);
    GeometricClosedForm(1.0, n);
    GeometricOfOne(n);
  }

  lemma {:induction false} GeometricOfOne(n: nat)
    ensures Geometric(1.0, n) == n as real && Pow(1.0, n) == 1.0
    decreases n
  {
    if n > 0 {
      GeometricOfOne(n - 1);
    }
  }
}
