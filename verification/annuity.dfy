/**
 The arithmetic of a fixed-rate annuity loan, over exact `real` numbers:
 the monthly rate and payment count derived from the user's inputs, the
 level payment given by the annuity formula, and the balance recurrence
 the schedule walks month by month, with its closed forms.
 */
module Annuity {

  /** `x` raised to a whole power; stands for `Math.pow(x, n)` with integer `n`. */
  function Pow(x: real, n: nat): real
  {
    if n == 0 then 1.0 else x * Pow(x, n - 1)
  }

  /** The annual percentage rate turned into a monthly fraction. */
  function MonthlyRate(interestRate: real): (r: real)
    ensures r * 1200.0 == interestRate
    ensures r > 0.0 <==> interestRate > 0.0
  {
    interestRate / 100.0 / 12.0
  }

  /** One payment per month of the term. */
  function NumberOfPayments(loanTerm: nat): (n: nat)
    ensures n % 12 == 0 && n / 12 == loanTerm
  {
    loanTerm * 12
  }

  /** The calculator's payment formula divides by (1+r)^n - 1; this says that divisor is not zero. */
  predicate PaymentDefined(r: real, n: nat)
  {
    Pow(1.0 + r, n) != 1.0
  }

  /** The level payment: loanAmount * (r * (1+r)^n) / ((1+r)^n - 1). */
  function LevelPayment(loanAmount: real, r: real, n: nat): (pay: real)
    requires PaymentDefined(r, n)
  {
    loanAmount * (r * Pow(1.0 + r, n)) / (Pow(1.0 + r, n) - 1.0)
  }

  /** A month's interest: the balance it is charged on times the monthly rate. */
  function Interest(balance: real, r: real): real
  {
    balance * r
  }

  /** What `count` payments of `pay` add up to. */
  function PaidIn(count: nat, pay: real): real
  {
    (count as real) * pay
  }

  /**
   The value the running balance variable holds after `k` months of paying
   `pay`: each month it loses the payment less that month's interest. It is
   never clamped and never reset here; the schedule does that to its stored copy.
   */
  function Running(loanAmount: real, r: real, pay: real, k: nat): real
  {
    if k == 0 then loanAmount
    else
      var prev := Running(loanAmount, r, pay, k - 1);
      prev - (pay - Interest(prev, r))
  }

  /** A payment that only covers the interest on the loan leaves the running balance at the loan, month after month. */
  lemma {:induction false} InterestOnlyPayment(loanAmount: real, r: real, k: nat)
    ensures Running(loanAmount, r, Interest(loanAmount, r), k) == loanAmount
  {
    if k > 0 {
      InterestOnlyPayment(loanAmount, r, k - 1);
    }
  }

  /** 1 + x + ... + x^(k-1): what `k` payments of 1 grow to at factor `x`. */
  function GeometricSum(x: real, k: nat): real
  {
    if k == 0 then 0.0 else x * GeometricSum(x, k - 1) + 1.0
  }

  /** Powers of a factor of at least 1 are at least 1. */
  lemma {:induction false} PowAtLeastOne(x: real, k: nat)
    requires x >= 1.0
    ensures Pow(x, k) >= 1.0
  {
    if k > 0 {
      PowAtLeastOne(x, k - 1);
      assert x * Pow(x, k - 1) >= 1.0 * Pow(x, k - 1);
    }
  }

  /** A positive power of a factor above 1 is above 1. */
  lemma {:induction false} PowAboveOne(x: real, k: nat)
    requires x > 1.0 && k >= 1
    ensures Pow(x, k) > 1.0
  {
    PowAtLeastOne(x, k - 1);
    assert x * Pow(x, k - 1) > 1.0 * Pow(x, k - 1);
  }

  /** Every power of 1 is 1. */
  lemma {:induction false} PowOfOne(k: nat)
    ensures Pow(1.0, k) == 1.0
  {
    if k > 0 {
      PowOfOne(k - 1);
    }
  }

  /** For a factor of at least 1, a higher power is never smaller. */
  lemma {:induction false} PowMonotone(x: real, j: nat, k: nat)
    requires x >= 1.0 && j <= k
    ensures Pow(x, j) <= Pow(x, k)
  {
    if j < k {
      PowMonotone(x, j, k - 1);
      PowAtLeastOne(x, k - 1);
      assert x * Pow(x, k - 1) >= 1.0 * Pow(x, k - 1);
    }
  }

  /** For a non-negative rate the formula is defined exactly when the rate is positive and the term non-empty. */
  lemma PaymentDefinedIff(r: real, n: nat)
    requires r >= 0.0
    ensures PaymentDefined(r, n) <==> r > 0.0 && n >= 1
  {
    if r == 0.0 {
      PowOfOne(n);
    } else if n >= 1 {
      PowAboveOne(1.0 + r, n);
    }
  }

  /**
   r * (1 + x + ... + x^(k-1)) == x^k - 1 where x = 1 + r. The sum and the
   power are passed as named values `g` and `xk` pinned by the requires: the
   solver handles products of plain values far more cheaply than products of
   function applications, so the arithmetic lemmas here are all stated that way.
   */
  lemma {:induction false} RateTimesGeometricSum(r: real, k: nat, g: real, xk: real)
    requires g == GeometricSum(1.0 + r, k) && xk == Pow(1.0 + r, k)
    ensures r * g == xk - 1.0
  {
    if k > 0 {
      var g0, xk0 := GeometricSum(1.0 + r, k - 1), Pow(1.0 + r, k - 1);
      RateTimesGeometricSum(r, k - 1, g0, xk0);
      GeometricStepAlgebra(r, g0, xk0, g, xk);
    }
  }

  /** One more term of the geometric sum keeps r * sum == x^k - 1. */
  lemma GeometricStepAlgebra(r: real, g: real, xk: real, g': real, xk': real)
    requires r * g == xk - 1.0
    requires g' == (1.0 + r) * g + 1.0 && xk' == (1.0 + r) * xk
    ensures r * g' == xk' - 1.0
  {
  }

  /**
   After `k` months the balance `b` is the loan grown by compound interest,
   loanAmount * (1+r)^k, less the payments grown likewise, pay * (1 + ... + (1+r)^(k-1)).
   That is, Running(loanAmount, r, pay, k) == loanAmount * Pow(1+r, k) - pay * GeometricSum(1+r, k),
   with the three values named (see RateTimesGeometricSum).
   */
  lemma {:induction false} RunningClosedForm(loanAmount: real, r: real, pay: real, k: nat, b: real, xk: real, g: real)
    requires b == Running(loanAmount, r, pay, k)
    requires xk == Pow(1.0 + r, k) && g == GeometricSum(1.0 + r, k)
    ensures b == loanAmount * xk - pay * g
  {
    if k > 0 {
      var prev, xk0, g0 := Running(loanAmount, r, pay, k - 1), Pow(1.0 + r, k - 1), GeometricSum(1.0 + r, k - 1);
      RunningClosedForm(loanAmount, r, pay, k - 1, prev, xk0, g0);
      StepAlgebra(loanAmount, r, pay, xk0, g0, prev, xk, g, b);
    }
  }

  /** One month of the recurrence applied to the closed form gives the closed form one month on. */
  lemma StepAlgebra(a: real, r: real, pay: real, xk: real, g: real, prev: real,
                    xk': real, g': real, next: real)
    requires prev == a * xk - pay * g
    requires xk' == (1.0 + r) * xk && g' == (1.0 + r) * g + 1.0
    requires next == prev - (pay - Interest(prev, r))
    ensures next == a * xk' - pay * g'
  {
  }

  /** `pay` solves the annuity equation pay * ((1+r)^n - 1) == loanAmount * r * (1+r)^n. */
  predicate IsLevelPayment(loanAmount: real, r: real, n: nat, pay: real)
  {
    pay * (Pow(1.0 + r, n) - 1.0) == loanAmount * (r * Pow(1.0 + r, n))
  }

  /** The annuity equation, stated for a named value of (1+r)^n. */
  lemma LevelAt(loanAmount: real, r: real, n: nat, pay: real, xn: real)
    requires IsLevelPayment(loanAmount, r, n, pay) && xn == Pow(1.0 + r, n)
    ensures pay * (xn - 1.0) == loanAmount * (r * xn)
  {
  }

  /** The formula's value is the one and only solution of the annuity equation. */
  lemma LevelPaymentSolves(loanAmount: real, r: real, n: nat, pay: real)
    requires PaymentDefined(r, n)
    ensures IsLevelPayment(loanAmount, r, n, pay) <==> pay == LevelPayment(loanAmount, r, n)
  {
    var xn, level := Pow(1.0 + r, n), LevelPayment(loanAmount, r, n);
    DivCancel(loanAmount * (r * xn), xn - 1.0);
    assert IsLevelPayment(loanAmount, r, n, level);
    if IsLevelPayment(loanAmount, r, n, pay) {
      LevelAt(loanAmount, r, n, pay, xn);
      LevelAt(loanAmount, r, n, level, xn);
      CancelFactor(pay, level, xn - 1.0);
    }
  }

  /** Any solution of the annuity equation clears the balance at `n`, and no other payment does. */
  lemma SolutionPaysOffIff(loanAmount: real, r: real, n: nat, pay: real, level: real)
    requires PaymentDefined(r, n) && IsLevelPayment(loanAmount, r, n, level)
    ensures Running(loanAmount, r, pay, n) == 0.0 <==> pay == level
  {
    var b, xn, g := Running(loanAmount, r, pay, n), Pow(1.0 + r, n), GeometricSum(1.0 + r, n);
    RunningClosedForm(loanAmount, r, pay, n, b, xn, g);
    RateTimesGeometricSum(r, n, g, xn);
    LevelAt(loanAmount, r, n, level, xn);
    PayoffAlgebra(loanAmount, r, xn, g, pay, level, b);
  }

  /** The level payment is the only payment that leaves a zero balance after exactly `n` months. */
  lemma PaysOffIff(loanAmount: real, r: real, n: nat, pay: real)
    requires PaymentDefined(r, n)
    ensures Running(loanAmount, r, pay, n) == 0.0 <==> pay == LevelPayment(loanAmount, r, n)
  {
    var level := LevelPayment(loanAmount, r, n);
    LevelPaymentSolves(loanAmount, r, n, level);
    SolutionPaysOffIff(loanAmount, r, n, pay, level);
  }

  /** The level payment pays the loan off exactly: the running balance after `n` months is zero. */
  lemma LevelPaymentAmortizes(loanAmount: real, r: real, n: nat)
    requires PaymentDefined(r, n)
    ensures Running(loanAmount, r, LevelPayment(loanAmount, r, n), n) == 0.0
  {
    PaysOffIff(loanAmount, r, n, LevelPayment(loanAmount, r, n));
  }

  /**
   Under the level payment the balance `b` after `k` months is the loan scaled
   by ((1+r)^n - (1+r)^k) / ((1+r)^n - 1), here multiplied out, with the balance
   and the powers named (see RateTimesGeometricSum).
   */
  lemma LevelBalanceClosedForm(loanAmount: real, r: real, n: nat, pay: real, k: nat, b: real, xn: real, xk: real)
    requires IsLevelPayment(loanAmount, r, n, pay)
    requires b == Running(loanAmount, r, pay, k) && xn == Pow(1.0 + r, n) && xk == Pow(1.0 + r, k)
    ensures b * (xn - 1.0) == loanAmount * (xn - xk)
  {
    var g := GeometricSum(1.0 + r, k);
    RunningClosedForm(loanAmount, r, pay, k, b, xk, g);
    RateTimesGeometricSum(r, k, g, xk);
    LevelAt(loanAmount, r, n, pay, xn);
    BalanceAlgebra(loanAmount, r, xn, xk, g, pay, b);
  }

  /**
   With a positive rate and a non-negative loan, the level-payment balance
   stays within [0, loanAmount] for every month of the term and never rises.
   */
  lemma LevelBalanceBounds(loanAmount: real, r: real, n: nat, pay: real, k: nat)
    requires r > 0.0 && loanAmount >= 0.0 && 1 <= k <= n
    requires IsLevelPayment(loanAmount, r, n, pay)
    ensures 0.0 <= Running(loanAmount, r, pay, k) <= loanAmount
    ensures Running(loanAmount, r, pay, k) <= Running(loanAmount, r, pay, k - 1)
  {
    var b, b1 := Running(loanAmount, r, pay, k), Running(loanAmount, r, pay, k - 1);
    var xn, xk, xk1 := Pow(1.0 + r, n), Pow(1.0 + r, k), Pow(1.0 + r, k - 1);
    PowFacts(r, n, k, xn, xk, xk1);
    LevelBalanceClosedForm(loanAmount, r, n, pay, k, b, xn, xk);
    LevelBalanceClosedForm(loanAmount, r, n, pay, k - 1, b1, xn, xk1);
    BoundsAlgebra(loanAmount, xn, xk, xk1, b, b1);
  }

  /** The order of the powers a positive rate gives over months 0 < k <= n. */
  lemma PowFacts(r: real, n: nat, k: nat, xn: real, xk: real, xk1: real)
    requires r > 0.0 && 1 <= k <= n
    requires xn == Pow(1.0 + r, n) && xk == Pow(1.0 + r, k) && xk1 == Pow(1.0 + r, k - 1)
    ensures xn > 1.0 && 1.0 <= xk <= xn && xk1 <= xk
  {
    PowAboveOne(1.0 + r, n);
    PowAtLeastOne(1.0 + r, k);
    PowMonotone(1.0 + r, k - 1, k);
    PowMonotone(1.0 + r, k, n);
  }

  /** The closed form at `n` vanishes exactly for the payment solving the annuity equation. */
  lemma PayoffAlgebra(a: real, r: real, xn: real, g: real, pay: real, level: real, b: real)
    requires xn != 1.0 && r * g == xn - 1.0
    requires level * (xn - 1.0) == a * (r * xn)
    requires b == a * xn - pay * g
    ensures b == 0.0 <==> pay == level
  {
    var d := xn - 1.0;
    assert r != 0.0 && g != 0.0;
    calc {
      (a * xn - level * g) * d;
      a * xn * d - (level * d) * g;
      a * xn * d - a * xn * (r * g);
      0.0;
    }
    CancelFactor(a * xn - level * g, 0.0, d);
    if a * xn - pay * g == 0.0 {
      assert pay * g == level * g;
      CancelFactor(pay, level, g);
    }
  }

  /** The closed-form balance, multiplied out against the formula's denominator. */
  lemma BalanceAlgebra(a: real, r: real, xn: real, xk: real, g: real, pay: real, b: real)
    requires b == a * xk - pay * g
    requires r * g == xk - 1.0
    requires pay * (xn - 1.0) == a * (r * xn)
    ensures b * (xn - 1.0) == a * (xn - xk)
  {
  }

  /** Order facts behind the balance bounds, over plain reals. */
  lemma BoundsAlgebra(a: real, xn: real, xk: real, xk1: real, b: real, b1: real)
    requires xn > 1.0 && a >= 0.0 && 1.0 <= xk <= xn && xk1 <= xk
    requires b * (xn - 1.0) == a * (xn - xk) && b1 * (xn - 1.0) == a * (xn - xk1)
    ensures 0.0 <= b <= a && b <= b1
  {
    ScaledBetween(a, xn - 1.0, xn - xk, b);
    ScaledMonotone(a, xn - 1.0, xn - xk, xn - xk1, b, b1);
  }

  /** If b * d == a * t with 0 <= t <= d, then b lies between 0 and a. */
  lemma ScaledBetween(a: real, d: real, t: real, b: real)
    requires d > 0.0 && a >= 0.0 && 0.0 <= t <= d && b * d == a * t
    ensures 0.0 <= b <= a
  {
    ScaleMonotone(a, 0.0, t);
    ScaleMonotone(a, t, d);
    ScaledOrder(0.0, b, d);
    ScaledOrder(b, a, d);
  }

  /** Scaling by a common positive d preserves the order of a * t and a * t1. */
  lemma ScaledMonotone(a: real, d: real, t: real, t1: real, b: real, b1: real)
    requires d > 0.0 && a >= 0.0 && t <= t1 && b * d == a * t && b1 * d == a * t1
    ensures b <= b1
  {
  }

  /** Multiplying by a non-negative factor preserves order. */
  lemma ScaleMonotone(a: real, t: real, t': real)
    requires a >= 0.0 && t <= t'
    ensures a * t <= a * t'
  {
  }

  /** A common positive factor can be cancelled from an inequality. */
  lemma ScaledOrder(b: real, b': real, d: real)
    requires d > 0.0 && b * d <= b' * d
    ensures b <= b'
  {
  }

  /** Dividing by a non-zero value and multiplying back gives the original value. */
  lemma DivCancel(a: real, d: real)
    requires d != 0.0
    ensures (a / d) * d == a
  {
  }

  /** A common non-zero factor can be cancelled from an equation. */
  lemma CancelFactor(a: real, b: real, c: real)
    requires c != 0.0 && a * c == b * c
    ensures a == b
  {
  }
}
