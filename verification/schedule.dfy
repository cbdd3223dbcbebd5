/**
 The month-by-month amortization schedule: the records the generator pushes
 for months 0..n, with the running balance it threads between iterations.
 The payment is a parameter here; the calculator supplies the level payment.
 */
module Amortization {
  import opened Annuity

  /** One row of the schedule. */
  datatype Record = Record(
    month: nat,
    remainingBalance: real,
    interestPaid: real,
    principalPaid: real,
    totalInterestPaid: real,
    totalPrincipalPaid: real,
    monthlyPayment: real)

  /** The generator's state after an iteration: the records so far and the running balance variable. */
  datatype Walk = Walk(data: seq<Record>, balance: real)

  function Max(a: real, b: real): (m: real)
    ensures m >= a && m >= b && (m == a || m == b)
  {
    if a >= b then a else b
  }

  /** Records are indexed by their month, with no gaps. */
  predicate Contiguous(data: seq<Record>)
  {
    forall i :: 0 <= i < |data| ==> data[i].month == i
  }

  /**
   The state after the loop body has run for months 0..m of an `n`-month
   loan: month 0 pushes the initial record; every later month charges interest
   on the running balance, takes the rest of the payment off it, zeroes it in
   the final month, and pushes a record holding the balance clamped at zero
   and the totals carried over from the previous record.
   */
  function Generate(loanAmount: real, r: real, pay: real, n: nat, m: nat): (w: Walk)
    requires m <= n
    ensures |w.data| == m + 1 && Contiguous(w.data)
    decreases m
  {
    if m == 0 then
      Walk([Record(0, loanAmount, 0.0, 0.0, 0.0, 0.0, pay)], loanAmount)
    else
      var before := Generate(loanAmount, r, pay, n, m - 1);
      var interest := Interest(before.balance, r);
      var principal := pay - interest;
      var after := before.balance - principal;
      var balance := if m == n then 0.0 else after;
      var prev := before.data[m - 1];
      var rec := Record(m, Max(0.0, balance), interest, principal,
                        prev.totalInterestPaid + interest,
                        prev.totalPrincipalPaid + principal, pay);
      Walk(before.data + [rec], balance)
  }

  /** The full schedule of an `n`-month loan: records for months 0..n. */
  function Schedule(loanAmount: real, r: real, pay: real, n: nat): (s: seq<Record>)
    ensures |s| == n + 1
  {
    Generate(loanAmount, r, pay, n, n).data
  }

  /** Later iterations only append: the records of months 0..j never change afterwards. */
  lemma {:induction false} GeneratePrefix(loanAmount: real, r: real, pay: real, n: nat, j: nat, m: nat)
    requires j <= m <= n
    ensures Generate(loanAmount, r, pay, n, m).data[..j + 1] == Generate(loanAmount, r, pay, n, j).data
  {
    if j < m {
      GeneratePrefix(loanAmount, r, pay, n, j, m - 1);
      var before := Generate(loanAmount, r, pay, n, m - 1).data;
      assert Generate(loanAmount, r, pay, n, m).data[..j + 1] == before[..j + 1];
    } else {
      assert Generate(loanAmount, r, pay, n, m).data[..j + 1] == Generate(loanAmount, r, pay, n, m).data;
    }
  }

  /**
   The running balance variable follows the pure recurrence, except that the
   final month of a non-empty loan resets it to zero.
   */
  lemma {:induction false} GenerateBalance(loanAmount: real, r: real, pay: real, n: nat, m: nat)
    requires m <= n
    ensures Generate(loanAmount, r, pay, n, m).balance
            == if 0 < m == n then 0.0 else Running(loanAmount, r, pay, m)
  {
    if m > 0 {
      GenerateBalance(loanAmount, r, pay, n, m - 1);
    }
  }

  /** The record of month `i` in the full schedule is the one pushed at iteration `i`. */
  lemma ScheduleAt(loanAmount: real, r: real, pay: real, n: nat, i: nat)
    requires i <= n
    ensures Schedule(loanAmount, r, pay, n)[i] == Generate(loanAmount, r, pay, n, i).data[i]
  {
    GeneratePrefix(loanAmount, r, pay, n, i, n);
    assert Schedule(loanAmount, r, pay, n)[i] == Schedule(loanAmount, r, pay, n)[..i + 1][i];
  }

  /** n + 1 records, record `i` is month `i`, and every record carries the payment. */
  lemma ScheduleShape(loanAmount: real, r: real, pay: real, n: nat)
    ensures |Schedule(loanAmount, r, pay, n)| == n + 1
    ensures Contiguous(Schedule(loanAmount, r, pay, n))
    ensures forall i :: 0 <= i <= n ==> Schedule(loanAmount, r, pay, n)[i].monthlyPayment == pay
  {
    forall i | 0 <= i <= n
      ensures Schedule(loanAmount, r, pay, n)[i].monthlyPayment == pay
    {
      ScheduleAt(loanAmount, r, pay, n, i);
    }
  }

  /** Month 0 is the state before any payment: the whole loan outstanding, nothing paid. */
  lemma InitialRecord(loanAmount: real, r: real, pay: real, n: nat)
    ensures Schedule(loanAmount, r, pay, n)[0]
            == Record(0, loanAmount, 0.0, 0.0, 0.0, 0.0, pay)
  {
    ScheduleAt(loanAmount, r, pay, n, 0);
  }

  /**
   Month `i` >= 1: interest is charged on the unclamped running balance left
   by month i-1, the principal portion is the rest of the payment, the totals
   extend the previous record's totals, and the stored balance is the running
   balance clamped at zero, or zero in the final month.
   */
  lemma MonthRecord(loanAmount: real, r: real, pay: real, n: nat, i: nat)
    requires 1 <= i <= n
    ensures var s := Schedule(loanAmount, r, pay, n);
      && s[i].interestPaid == Interest(Running(loanAmount, r, pay, i - 1), r)
      && s[i].principalPaid == pay - s[i].interestPaid
      && s[i].interestPaid + s[i].principalPaid == s[i].monthlyPayment
      && s[i].totalInterestPaid == s[i - 1].totalInterestPaid + s[i].interestPaid
      && s[i].totalPrincipalPaid == s[i - 1].totalPrincipalPaid + s[i].principalPaid
      && s[i].remainingBalance == (if i == n then 0.0 else Max(0.0, Running(loanAmount, r, pay, i)))
  {
    var s := Schedule(loanAmount, r, pay, n);
    var before := Generate(loanAmount, r, pay, n, i - 1);
    ScheduleAt(loanAmount, r, pay, n, i);
    ScheduleAt(loanAmount, r, pay, n, i - 1);
    GeneratePrefix(loanAmount, r, pay, n, i - 1, i);
    assert Generate(loanAmount, r, pay, n, i).data[..i][i - 1] == before.data[i - 1];
    assert s[i - 1] == before.data[i - 1];
    GenerateBalance(loanAmount, r, pay, n, i - 1);
    assert before.balance == Running(loanAmount, r, pay, i - 1);
    LastPushed(loanAmount, r, pay, n, i);
  }

  /** The record pushed at iteration `m`, in terms of the state the iteration started from. */
  lemma LastPushed(loanAmount: real, r: real, pay: real, n: nat, m: nat)
    requires 1 <= m <= n
    ensures var before := Generate(loanAmount, r, pay, n, m - 1);
      var rec := Generate(loanAmount, r, pay, n, m).data[m];
      && rec.interestPaid == Interest(before.balance, r)
      && rec.principalPaid == pay - rec.interestPaid
      && rec.totalInterestPaid == before.data[m - 1].totalInterestPaid + rec.interestPaid
      && rec.totalPrincipalPaid == before.data[m - 1].totalPrincipalPaid + rec.principalPaid
      && rec.remainingBalance == Max(0.0, Generate(loanAmount, r, pay, n, m).balance)
      && rec.monthlyPayment == pay
  {
  }

  /** Every stored balance after month 0 is non-negative, and the last one is exactly zero. */
  lemma BalancesNonNegative(loanAmount: real, r: real, pay: real, n: nat)
    ensures forall i :: 1 <= i <= n ==> Schedule(loanAmount, r, pay, n)[i].remainingBalance >= 0.0
    ensures n >= 1 ==> Schedule(loanAmount, r, pay, n)[n].remainingBalance == 0.0
    ensures loanAmount >= 0.0 ==>
              forall i :: 0 <= i <= n ==> Schedule(loanAmount, r, pay, n)[i].remainingBalance >= 0.0
  {
    ScheduleShape(loanAmount, r, pay, n);
    InitialRecord(loanAmount, r, pay, n);
    forall i | 1 <= i <= n
      ensures Schedule(loanAmount, r, pay, n)[i].remainingBalance >= 0.0
    {
      MonthRecord(loanAmount, r, pay, n, i);
    }
    if n >= 1 {
      MonthRecord(loanAmount, r, pay, n, n);
    }
  }

  /**
   Conservation: the principal paid so far plus the running balance is always
   the original loan, so the balance falls by exactly the principal portion.
   */
  lemma {:induction false} PrincipalConservation(loanAmount: real, r: real, pay: real, n: nat, m: nat)
    requires m <= n
    ensures Schedule(loanAmount, r, pay, n)[m].totalPrincipalPaid + Running(loanAmount, r, pay, m)
            == loanAmount
  {
    if m == 0 {
      InitialRecord(loanAmount, r, pay, n);
    } else {
      PrincipalConservation(loanAmount, r, pay, n, m - 1);
      MonthRecord(loanAmount, r, pay, n, m);
    }
  }

  /** Interest and principal paid so far add up to `m` payments. */
  lemma {:induction false} TotalsAddUp(loanAmount: real, r: real, pay: real, n: nat, m: nat)
    requires m <= n
    ensures Schedule(loanAmount, r, pay, n)[m].totalInterestPaid
            + Schedule(loanAmount, r, pay, n)[m].totalPrincipalPaid == PaidIn(m, pay)
  {
    if m == 0 {
      InitialRecord(loanAmount, r, pay, n);
    } else {
      TotalsAddUp(loanAmount, r, pay, n, m - 1);
      MonthRecord(loanAmount, r, pay, n, m);
      assert PaidIn(m, pay) == PaidIn(m - 1, pay) + pay;
    }
  }

  /**
   When the payment drives the running balance to exactly zero in month n,
   the schedule repays the whole loan and its total interest is n payments
   less the loan.
   */
  lemma PaidOffTotals(loanAmount: real, r: real, pay: real, n: nat)
    requires Running(loanAmount, r, pay, n) == 0.0
    ensures Schedule(loanAmount, r, pay, n)[n].totalPrincipalPaid == loanAmount
    ensures Schedule(loanAmount, r, pay, n)[n].totalInterestPaid == PaidIn(n, pay) - loanAmount
  {
    PrincipalConservation(loanAmount, r, pay, n, n);
    TotalsAddUp(loanAmount, r, pay, n, n);
  }

  /**
   Under the level payment of a positive rate, with a non-negative loan, the
   balance clamp never changes anything: every stored balance is the running
   balance itself, lies between 0 and the loan, and never rises; the final
   reset only confirms the zero the recurrence already reached.
   */
  lemma LevelBalances(loanAmount: real, r: real, n: nat, pay: real)
    requires r > 0.0 && loanAmount >= 0.0 && n >= 1
    requires IsLevelPayment(loanAmount, r, n, pay)
    ensures var s := Schedule(loanAmount, r, pay, n);
      && (forall i :: 0 <= i <= n ==>
            s[i].remainingBalance == Running(loanAmount, r, pay, i)
            && 0.0 <= s[i].remainingBalance <= loanAmount)
      && (forall i :: 1 <= i <= n ==> s[i].remainingBalance <= s[i - 1].remainingBalance)
  {
    var s := Schedule(loanAmount, r, pay, n);
    PaymentDefinedIff(r, n);
    LevelPaymentSolves(loanAmount, r, n, pay);
    LevelPaymentAmortizes(loanAmount, r, n);
    ScheduleShape(loanAmount, r, pay, n);
    InitialRecord(loanAmount, r, pay, n);
    forall i | 1 <= i <= n
      ensures s[i].remainingBalance == Running(loanAmount, r, pay, i)
      ensures 0.0 <= s[i].remainingBalance <= loanAmount
      ensures s[i].remainingBalance <= s[i - 1].remainingBalance
    {
      MonthRecord(loanAmount, r, pay, n, i);
      LevelBalanceBounds(loanAmount, r, n, pay, i);
      if i >= 2 {
        MonthRecord(loanAmount, r, pay, n, i - 1);
      }
    }
  }

  /**
   Under the level payment of a positive rate, with a non-negative loan, both
   portions of every payment are non-negative, so the totals never fall, and
   the whole loan is repaid with total interest equal to n payments less the loan.
   */
  lemma LevelPortions(loanAmount: real, r: real, n: nat, pay: real)
    requires r > 0.0 && loanAmount >= 0.0 && n >= 1
    requires IsLevelPayment(loanAmount, r, n, pay)
    ensures var s := Schedule(loanAmount, r, pay, n);
      && (forall i :: 1 <= i <= n ==>
            && s[i].interestPaid >= 0.0
            && s[i].principalPaid >= 0.0
            && s[i - 1].totalInterestPaid <= s[i].totalInterestPaid
            && s[i - 1].totalPrincipalPaid <= s[i].totalPrincipalPaid)
      && s[n].totalPrincipalPaid == loanAmount
      && s[n].totalInterestPaid == PaidIn(n, pay) - loanAmount
  {
    var s := Schedule(loanAmount, r, pay, n);
    PaymentDefinedIff(r, n);
    LevelPaymentSolves(loanAmount, r, n, pay);
    LevelPaymentAmortizes(loanAmount, r, n);
    forall i | 1 <= i <= n
      ensures s[i].interestPaid >= 0.0 && s[i].principalPaid >= 0.0
      ensures s[i - 1].totalInterestPaid <= s[i].totalInterestPaid
      ensures s[i - 1].totalPrincipalPaid <= s[i].totalPrincipalPaid
    {
      MonthRecord(loanAmount, r, pay, n, i);
      LevelBalanceBounds(loanAmount, r, n, pay, i);
      var prev := Running(loanAmount, r, pay, i - 1);
      if i >= 2 {
        LevelBalanceBounds(loanAmount, r, n, pay, i - 1);
      }
      assert prev >= 0.0;
      ScaleMonotone(prev, 0.0, r);
      assert s[i].principalPaid == prev - Running(loanAmount, r, pay, i);
    }
    PaidOffTotals(loanAmount, r, pay, n);
  }
}
