# Mortgage amortization schedule, modelled in Dafny

The mortgage calculator takes three inputs: a loan amount, an annual
interest rate in percent and a term in years. From these it computes:

- a monthly rate;
- a payment count;
- the level monthly payment, using the annuity formula;
- one record per month, from 0 to N, holding the remaining balance, the
  interest and principal portions of that month's payment, and the
  running totals of each;
- a sample of those records at yearly intervals for the chart.

Three summary figures are then read back from that sample: total
interest, the monthly payment and the total amount paid.

The model uses exact `real` arithmetic throughout. It has four modules:

- `Annuity` (`annuity.dfy`): the rate and payment count, `Pow`, the level
  payment, and the month-to-month recurrence of the running balance
  variable (`Running`). That variable is never clamped. The module proves
  closed forms for it and shows that the level payment is the one payment
  that clears it in exactly N months.
- `Amortization` (`schedule.dfy`): the `Record` datatype and the loop as a
  recursive function `Generate`, which returns the records pushed so far
  together with the running balance. It also states what each record
  holds.
- `Yearly` (`yearly.dfy`): the yearly filter and the summary figures.
- `Calculator` (`calculator.dfy`): the generator as an imperative method
  that mirrors the loop, plus the end-to-end properties of the calculator.

## Model

| member | source | states |
|---|---|---|
| Annuity.MonthlyRate | mortgage-calculator.jsx:13 | the monthly rate is the annual percentage divided by 1200; it is positive exactly when the annual rate is |
| Annuity.NumberOfPayments | mortgage-calculator.jsx:14 | the payment count is a whole number of years of twelve months, `loanTerm` years |
| Annuity.PaymentDefinedIff | mortgage-calculator.jsx:17-18 | for a non-negative rate, the formula's denominator `(1+r)^N - 1` is non-zero exactly when the rate is positive and the term non-empty |
| Annuity.LevelPayment | mortgage-calculator.jsx:17-18 | the annuity formula `loanAmount * (r * (1+r)^N) / ((1+r)^N - 1)`, defined only where the divisor is non-zero; it carries no contract of its own, and `LevelPaymentSolves` proves its value is the one solution of the annuity equation |
| Annuity.LevelPaymentSolves | mortgage-calculator.jsx:17-18 | the formula's value is the one and only solution `pay` of `pay * ((1+r)^N - 1) == loanAmount * r * (1+r)^N` |
| Annuity.Running | mortgage-calculator.jsx:20-45 | the unclamped running balance after k months (start at the loan, each month subtract the payment less that month's interest); it carries no contract of its own, and its properties are `RunningClosedForm`, `InterestOnlyPayment`, `PaysOffIff` and `GenerateBalance` |
| Annuity.InterestOnlyPayment | mortgage-calculator.jsx:20-45 | a payment equal to the interest on the loan leaves the running balance at the loan amount in every month |
| Annuity.RunningClosedForm | mortgage-calculator.jsx:20-45 | after k months the running balance is `loanAmount * (1+r)^k - pay * (1 + (1+r) + ... + (1+r)^(k-1))` |
| Annuity.SolutionPaysOffIff | mortgage-calculator.jsx:17-45 | for any solution of the annuity equation, a payment leaves the running balance at exactly 0 after N months if and only if it equals that solution |
| Annuity.PaysOffIff | mortgage-calculator.jsx:17-45 | the running balance after N months is 0 if and only if the payment is the formula's level payment |
| Annuity.LevelPaymentAmortizes | mortgage-calculator.jsx:17-50 | under the level payment the recurrence itself reaches 0 in month N, so the final reset at lines 48-50 changes nothing in exact arithmetic |
| Annuity.LevelBalanceClosedForm | mortgage-calculator.jsx:17-45 | under the level payment the balance after k months times `(1+r)^N - 1` is `loanAmount * ((1+r)^N - (1+r)^k)` |
| Annuity.LevelBalanceBounds | mortgage-calculator.jsx:17-45 | for a positive rate and a non-negative loan, the level-payment running balance stays within `[0, loanAmount]` in months 1..N and never rises from one month to the next |
| Amortization.Max | mortgage-calculator.jsx:58 | the stored balance is at least 0 and at least the running balance, and is one of the two |
| Amortization.Generate | mortgage-calculator.jsx:20-65 | the loop after iterations 0..m, as the records pushed plus the running balance; its own contract states only that there are m + 1 records and record i is month i. The content of the records is in `InitialRecord` and `MonthRecord`, the running balance in `GenerateBalance`, and append-only growth in `GeneratePrefix` |
| Amortization.Schedule | mortgage-calculator.jsx:20-65 | the loop's full output; its own contract states that it has N + 1 records, and `ScheduleShape`, `InitialRecord`, `MonthRecord` and `BalancesNonNegative` state its contents |
| Amortization.GeneratePrefix | mortgage-calculator.jsx:21-64 | the loop only appends: the records of months 0..j are fixed once iteration j has run |
| Amortization.GenerateBalance | mortgage-calculator.jsx:20-50 | the running balance variable after iteration m follows the pure recurrence, except that it is 0 after the final iteration |
| Amortization.ScheduleShape | mortgage-calculator.jsx:14-63 | the schedule has N + 1 records, record i is month i, and every record carries the same monthly payment |
| Amortization.InitialRecord | mortgage-calculator.jsx:20-34 | the month-0 record holds the loan amount as its balance, zero for all four paid/total fields, and the payment |
| Amortization.MonthRecord | mortgage-calculator.jsx:39-63 | for month i >= 1: interest is the unclamped previous running balance times the rate, principal is the rest of the payment, the two add up to the payment, both totals extend the previous record's, and the stored balance is the clamped running balance, or 0 in month N |
| Amortization.BalancesNonNegative | mortgage-calculator.jsx:48-58 | every stored balance after month 0 is at least 0 (month 0 too when the loan is non-negative), and month N stores exactly 0 whatever the recurrence reached |
| Amortization.PrincipalConservation | mortgage-calculator.jsx:20-54 | at every month the principal paid so far plus the running balance is the original loan |
| Amortization.TotalsAddUp | mortgage-calculator.jsx:39-62 | at month m the interest and principal paid so far add up to m payments |
| Amortization.PaidOffTotals | mortgage-calculator.jsx:45-54 | when the payment clears the running balance in month N, the schedule's total principal is the loan and its total interest is N payments less the loan |
| Amortization.LevelBalances | mortgage-calculator.jsx:17-58 | under the level payment at a positive rate with a non-negative loan, every stored balance equals the unclamped running balance, lies in `[0, loanAmount]` and never rises, so neither the clamp nor the final reset changes anything |
| Amortization.LevelPortions | mortgage-calculator.jsx:17-62 | under the level payment at a positive rate with a non-negative loan, interest and principal portions are non-negative, both totals never fall, total principal ends at the loan amount and total interest at N payments less the loan |
| Yearly.Keep | mortgage-calculator.jsx:68 | the filter's predicate, a month that is a multiple of 12 or is the final month; it carries no contract of its own, and `SampleMembership` and `SampleOfSchedule` show that month 0 and month N are always kept |
| Yearly.YearlySample | mortgage-calculator.jsx:68 | the filter; its own contract states only that the sample is no longer than the data. Membership in both directions is `SampleMembership`, order is `SampleAppend` and `SampleIsFilterFromFront`, and the exact shape is `SampleOfSchedule` |
| Yearly.SampleMembership | mortgage-calculator.jsx:68 | a record is in the yearly sample exactly when it is in the data and its month is a multiple of 12 or is N |
| Yearly.SampleAppend | mortgage-calculator.jsx:68 | the filter keeps the input's order: filtering a concatenation gives the concatenation of the filtered parts |
| Yearly.SampleIsFilterFromFront | mortgage-calculator.jsx:68 | the sample equals the filter taken front to back, one record at a time, as an array filter visits its input |
| Yearly.SampleOfSchedule | mortgage-calculator.jsx:68 | on an N-month schedule the sample has `N/12 + 1` records when N is a multiple of 12 (one more otherwise), record k is month 12k, and it starts at month 0 and ends at month N |
| Yearly.Summarize | mortgage-calculator.jsx:114-116 | total paid is the loan plus total interest; total interest is the last sampled record's (0 with no data); the payment is the second sampled record's when there is one, undefined exactly when the sample has one record, and 0 with no data |
| Calculator.BuildSchedule | mortgage-calculator.jsx:20-65 | the month loop builds exactly the modelled schedule: N + 1 contiguous records from the loan amount to a final balance of 0 |
| Calculator.CalculateMortgage | mortgage-calculator.jsx:12-70 | the generator returns the full schedule and its yearly sample, which has `loanTerm + 1` records |
| Calculator.ComputableIff | mortgage-calculator.jsx:13-18 | for a non-negative annual rate, the payment is computable exactly when the rate is positive and the term at least one year |
| Calculator.ChartData | mortgage-calculator.jsx:14-68 | the chart gets one record per year boundary, record k being month 12k, from month 0 to month N |
| Calculator.SummaryOfPaidOffSchedule | mortgage-calculator.jsx:114-116 | for a payment that clears the balance in month N: the summary shows that payment, the final total interest, and a total paid of exactly N payments |
| Calculator.SummaryFigures | mortgage-calculator.jsx:114-116 | for the calculator's own inputs, the summary payment is the level payment and the total paid is N level payments |
| Calculator.PositiveRateSchedule | mortgage-calculator.jsx:12-65 | for a positive rate, a term of at least a year and a non-negative loan, the schedule never needs its clamp, never lets a balance rise or a total fall, and repays the whole loan |

## Left out

- React wiring is left out as UI plumbing: the state hooks, the effect that re-runs the generator when an input changes, and handing the sample to `setMortgageData` (lines 69-73). `CalculateMortgage` returns the sample instead.
- Currency and percentage formatting, the tooltip's year/month label, the chart and the input controls (lines 75-111 and 118 onward) are presentation and are left out. This includes the `min`/`max`/`step` attributes and the list of term options, which the code does not enforce.
- Floating-point rounding is not modelled. The model computes in exact reals, so it makes no claim about how close an IEEE-754 balance gets to 0 before the final reset.
- A zero rate or a zero term makes the formula at lines 17-18 divide by zero, and the source then produces NaN or Infinity. The model requires this away instead of inventing a branch: `CalculateMortgage` requires `Computable`, which is exactly "the denominator is non-zero", and `ComputableIff` shows what that means for non-negative rates.
- The ordering and bound properties (`LevelBalanceBounds`, `LevelBalances`, `LevelPortions`, `PositiveRateSchedule`) assume a positive rate and a non-negative loan amount. The per-record identities, conservation and totals hold for any real inputs.
- `loanTerm` and `month` are JavaScript numbers in the source. The model takes them as natural numbers, which covers every term the term selector offers.
- `YearlySample` is defined by peeling records off the back. `SampleIsFilterFromFront` proves that it equals the front-to-back filter the source calls.
- The summary payment is `mortgageData[1]?.monthlyPayment` (line 115). A one-record sample has no second record, so the payment is modelled as an option, with `None` standing for JavaScript's `undefined`. It states nothing about how `undefined` would later be displayed.
