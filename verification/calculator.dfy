/**
 The calculator's computation as a whole: from the three inputs (loan amount,
 annual rate in percent, term in years) to the full monthly schedule, the
 yearly sample handed to the chart, and the summary figures.
 */
module Calculator {
  import opened Annuity
  import opened Amortization
  import opened Yearly

  /** The three user inputs. */
  datatype Loan = Loan(loanAmount: real, interestRate: real, loanTerm: nat)

  function Rate(loan: Loan): real
  {
    MonthlyRate(loan.interestRate)
  }

  function Payments(loan: Loan): nat
  {
    NumberOfPayments(loan.loanTerm)
  }

  /** The payment formula does not divide by zero for these inputs. */
  predicate Computable(loan: Loan)
  {
    PaymentDefined(Rate(loan), Payments(loan))
  }

  function Payment(loan: Loan): real
    requires Computable(loan)
  {
    LevelPayment(loan.loanAmount, Rate(loan), Payments(loan))
  }

  function FullSchedule(loan: Loan): seq<Record>
    requires Computable(loan)
  {
    Schedule(loan.loanAmount, Rate(loan), Payment(loan), Payments(loan))
  }

  /**
   The calculator's generator, step for step: the rate, payment count and level
   payment, the month loop, then the yearly filter.
   */
  method CalculateMortgage(loan: Loan) returns (data: seq<Record>, yearlyData: seq<Record>)
    requires Computable(loan)
    ensures data == FullSchedule(loan)
    ensures |data| == Payments(loan) + 1
    ensures data[0].remainingBalance == loan.loanAmount
    ensures data[Payments(loan)].remainingBalance == 0.0
    ensures yearlyData == YearlySample(data, Payments(loan))
    ensures |yearlyData| == loan.loanTerm + 1
  {
    var monthlyRate := MonthlyRate(loan.interestRate);
    var numberOfPayments := NumberOfPayments(loan.loanTerm);
    var monthlyPayment := LevelPayment(loan.loanAmount, monthlyRate, numberOfPayments);
    data := BuildSchedule(loan.loanAmount, monthlyRate, monthlyPayment, numberOfPayments);
    yearlyData := YearlySample(data, numberOfPayments);
    SampleOfSchedule(data, numberOfPayments);
  }

  /**
   The month loop: it pushes the initial record at month 0 and, for every
   later month, updates the running balance and pushes a record built from
   the previous one.
   */
  method BuildSchedule(loanAmount: real, monthlyRate: real, monthlyPayment: real, numberOfPayments: nat)
    returns (data: seq<Record>)
    requires numberOfPayments >= 1
    ensures data == Schedule(loanAmount, monthlyRate, monthlyPayment, numberOfPayments)
    ensures |data| == numberOfPayments + 1 && Contiguous(data)
    ensures data[0].remainingBalance == loanAmount
    ensures data[numberOfPayments].remainingBalance == 0.0
  {
    var remainingBalance := loanAmount;
    data := [];
    var month := 0;
    while month <= numberOfPayments
      invariant month <= numberOfPayments + 1
      invariant month == 0 ==> data == [] && remainingBalance == loanAmount
      invariant month > 0 ==>
        && data == Generate(loanAmount, monthlyRate, monthlyPayment, numberOfPayments, month - 1).data
        && remainingBalance
           == Generate(loanAmount, monthlyRate, monthlyPayment, numberOfPayments, month - 1).balance
    {
      if month == 0 {
        data := data + [Record(month, remainingBalance, 0.0, 0.0, 0.0, 0.0, monthlyPayment)];
        month := month + 1;
        continue;
      }
      var interestForMonth := Interest(remainingBalance, monthlyRate);
      var principalForMonth := monthlyPayment - interestForMonth;
      remainingBalance := remainingBalance - principalForMonth;
      if month == numberOfPayments {
        remainingBalance := 0.0;
      }
      var totalInterestPaid := data[month - 1].totalInterestPaid + interestForMonth;
      var totalPrincipalPaid := data[month - 1].totalPrincipalPaid + principalForMonth;
      data := data + [Record(month, Max(0.0, remainingBalance), interestForMonth, principalForMonth,
                             totalInterestPaid, totalPrincipalPaid, monthlyPayment)];
      month := month + 1;
    }
    InitialRecord(loanAmount, monthlyRate, monthlyPayment, numberOfPayments);
    BalancesNonNegative(loanAmount, monthlyRate, monthlyPayment, numberOfPayments);
  }

  /** For a non-negative rate, the payment is computable exactly when the rate is positive and the term at least a year. */
  lemma ComputableIff(loan: Loan)
    requires loan.interestRate >= 0.0
    ensures Computable(loan) <==> loan.interestRate > 0.0 && loan.loanTerm >= 1
  {
    PaymentDefinedIff(Rate(loan), Payments(loan));
  }

  /**
   The chart's data: one record per year of the term, record k being the
   schedule's month 12k, from month 0 to the final month.
   */
  lemma ChartData(loan: Loan)
    requires Computable(loan)
    ensures var data := FullSchedule(loan);
      var sample := YearlySample(data, Payments(loan));
      && |sample| == loan.loanTerm + 1
      && (forall k :: 0 <= k <= loan.loanTerm ==> sample[k] == data[12 * k] && sample[k].month == 12 * k)
      && sample[0].month == 0
      && sample[|sample| - 1].month == Payments(loan)
  {
    var data := FullSchedule(loan);
    ScheduleShape(loan.loanAmount, Rate(loan), Payment(loan), Payments(loan));
    SampleOfSchedule(data, Payments(loan));
  }

  /**
   The summary of a schedule whose payment clears the running balance in
   month n: the payment shown is that payment, the total interest is the final
   record's, and the total paid is the loan plus that interest, which is
   exactly n payments.
   */
  lemma SummaryOfPaidOffSchedule(loanAmount: real, r: real, pay: real, n: nat)
    requires n >= 1 && Running(loanAmount, r, pay, n) == 0.0
    ensures var data := Schedule(loanAmount, r, pay, n);
      var sm := Summarize(loanAmount, YearlySample(data, n));
      && sm.monthlyPayment == Some(pay)
      && sm.totalInterestPaid == data[n].totalInterestPaid
      && sm.totalPaid == loanAmount + data[n].totalInterestPaid
      && sm.totalPaid == PaidIn(n, pay)
  {
    var data := Schedule(loanAmount, r, pay, n);
    ScheduleShape(loanAmount, r, pay, n);
    SampleOfSchedule(data, n);
    PaidOffTotals(loanAmount, r, pay, n);
  }

  /** A computable payment needs at least one payment, so at least one year of term. */
  lemma PaymentTermPositive(loan: Loan)
    requires Computable(loan)
    ensures loan.loanTerm >= 1
  {
  }

  /** The summary the calculator shows for its inputs. */
  lemma SummaryFigures(loan: Loan)
    requires Computable(loan)
    ensures var data := FullSchedule(loan);
      var n := Payments(loan);
      var sm := Summarize(loan.loanAmount, YearlySample(data, n));
      && sm.monthlyPayment == Some(Payment(loan))
      && sm.totalPaid == loan.loanAmount + data[n].totalInterestPaid
      && sm.totalPaid == PaidIn(n, Payment(loan))
  {
    var n := Payments(loan);
    PaymentTermPositive(loan);
    LevelPaymentAmortizes(loan.loanAmount, Rate(loan), n);
    SummaryOfPaidOffSchedule(loan.loanAmount, Rate(loan), Payment(loan), n);
  }

  /**
   For a positive rate and a non-negative loan amount, the computed schedule
   never needs its clamp or its final reset, repays the whole loan, and never
   lets a total fall.
   */
  lemma PositiveRateSchedule(loan: Loan)
    requires loan.interestRate > 0.0 && loan.loanTerm >= 1 && loan.loanAmount >= 0.0
    ensures Computable(loan)
    ensures var data := FullSchedule(loan);
      var n := Payments(loan);
      && (forall i :: 0 <= i <= n ==>
            data[i].remainingBalance == Running(loan.loanAmount, Rate(loan), Payment(loan), i)
            && 0.0 <= data[i].remainingBalance <= loan.loanAmount)
      && (forall i :: 1 <= i <= n ==>
            && data[i].remainingBalance <= data[i - 1].remainingBalance
            && data[i].interestPaid >= 0.0
            && data[i].principalPaid >= 0.0
            && data[i - 1].totalInterestPaid <= data[i].totalInterestPaid
            && data[i - 1].totalPrincipalPaid <= data[i].totalPrincipalPaid)
      && data[n].totalPrincipalPaid == loan.loanAmount
  {
    ComputableIff(loan);
    var r := Rate(loan);
    var n := Payments(loan);
    LevelPaymentSolves(loan.loanAmount, r, n, Payment(loan));
    LevelBalances(loan.loanAmount, r, n, Payment(loan));
    LevelPortions(loan.loanAmount, r, n, Payment(loan));
  }
}
