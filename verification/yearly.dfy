/**
 The yearly sample drawn from the full schedule for charting, and the
 summary figures read back from that sample.
 */
module Yearly {
  import opened Amortization

  datatype Option<T> = None | Some(value: T)

  /** A record is kept when it falls on a year boundary or is the last month. */
  predicate Keep(month: nat, n: nat)
  {
    month % 12 == 0 || month == n
  }

  /** The order-preserving filter of `data` down to the kept records. */
  function YearlySample(data: seq<Record>, n: nat): (s: seq<Record>)
    ensures |s| <= |data|
  {
    if |data| == 0 then []
    else
      var init := YearlySample(data[..|data| - 1], n);
      if Keep(data[|data| - 1].month, n) then init + [data[|data| - 1]] else init
  }

  /** A record is in the sample exactly when it is in the data and kept. */
  lemma {:induction false} SampleMembership(data: seq<Record>, n: nat, x: Record)
    ensures x in YearlySample(data, n) <==> x in data && Keep(x.month, n)
  {
    if |data| > 0 {
      var init := data[..|data| - 1];
      SampleMembership(init, n, x);
      assert data == init + [data[|data| - 1]];
    }
  }

  /**
   The same filter written the way an array filter visits its input, front to
   back: the first record if kept, then the filter of the rest.
   */
  function FilterFromFront(data: seq<Record>, n: nat): seq<Record>
  {
    if |data| == 0 then []
    else (if Keep(data[0].month, n) then [data[0]] else []) + FilterFromFront(data[1..], n)
  }

  /** Filtering a concatenation filters each part and keeps them in order. */
  lemma {:induction false} SampleAppend(a: seq<Record>, b: seq<Record>, n: nat)
    ensures YearlySample(a + b, n) == YearlySample(a, n) + YearlySample(b, n)
  {
    if |b| > 0 {
      var b' := b[..|b| - 1];
      SampleAppend(a, b', n);
      assert (a + b)[..|a + b| - 1] == a + b';
      assert YearlySample(b, n) == YearlySample(b', n) + (if Keep(b[|b| - 1].month, n) then [b[|b| - 1]] else []);
    } else {
      assert a + b == a;
    }
  }

  /** Filtering from the back and from the front give the same sample. */
  lemma {:induction false} SampleIsFilterFromFront(data: seq<Record>, n: nat)
    ensures YearlySample(data, n) == FilterFromFront(data, n)
  {
    if |data| > 0 {
      SampleIsFilterFromFront(data[1..], n);
      SampleAppend([data[0]], data[1..], n);
      assert [data[0]] + data[1..] == data;
      assert [data[0]][..0] == [];
    }
  }

  /**
   On a contiguous schedule, before the last month (or through it, when the
   last month is itself a year boundary), the sample of the first m+1 records
   is every twelfth record.
   */
  lemma {:induction false} SamplePrefix(data: seq<Record>, n: nat, m: nat)
    requires |data| == n + 1 && Contiguous(data)
    requires m < n || (m == n && n % 12 == 0)
    ensures |YearlySample(data[..m + 1], n)| == m / 12 + 1
    ensures forall k :: 0 <= k <= m / 12 ==> YearlySample(data[..m + 1], n)[k] == data[12 * k]
  {
    var s := YearlySample(data[..m + 1], n);
    assert data[..m + 1][..m] == data[..m];
    assert data[..m + 1][m] == data[m];
    if m == 0 {
      assert s == [data[0]];
    } else {
      SamplePrefix(data, n, m - 1);
      var init := YearlySample(data[..m], n);
      if m % 12 == 0 {
        assert s == init + [data[m]];
        assert m / 12 == (m - 1) / 12 + 1;
      } else {
        assert s == init;
        assert m / 12 == (m - 1) / 12;
      }
    }
  }

  /**
   The sample of a contiguous n-month schedule: one record per year boundary,
   record k being month 12k, then the final month when it is not itself a
   boundary; it always starts with month 0 and ends with month n.
   */
  lemma SampleOfSchedule(data: seq<Record>, n: nat)
    requires |data| == n + 1 && Contiguous(data)
    ensures var s := YearlySample(data, n);
      && |s| == n / 12 + (if n % 12 == 0 then 1 else 2)
      && (forall k :: 0 <= k <= n / 12 ==> s[k] == data[12 * k])
      && s[0] == data[0]
      && s[|s| - 1] == data[n]
  {
    var s := YearlySample(data, n);
    assert data[..n + 1] == data;
    if n % 12 == 0 {
      SamplePrefix(data, n, n);
      assert s[n / 12] == data[12 * (n / 12)];
    } else {
      SamplePrefix(data, n, n - 1);
      assert data[..n] == data[..n - 1 + 1];
      assert s == YearlySample(data[..n], n) + [data[n]];
      assert (n - 1) / 12 == n / 12;
    }
  }

  /** The figures shown above the chart. */
  datatype Summary = Summary(totalInterestPaid: real, monthlyPayment: Option<real>, totalPaid: real)

  /**
   Total interest is the last sampled record's (0 before any data), the payment
   is read from the second sampled record (0 before any data, undefined when
   there is no second record), and the total paid adds the loan amount.
   */
  function Summarize(loanAmount: real, sample: seq<Record>): (sm: Summary)
    ensures sm.totalPaid - sm.totalInterestPaid == loanAmount
    ensures |sample| > 0 ==> sm.totalInterestPaid == sample[|sample| - 1].totalInterestPaid
    ensures |sample| == 0 ==> sm == Summary(0.0, Some(0.0), loanAmount)
    ensures sm.monthlyPayment.None? <==> |sample| == 1
    ensures |sample| > 1 ==> sm.monthlyPayment == Some(sample[1].monthlyPayment)
  {
    var totalInterest := if |sample| > 0 then sample[|sample| - 1].totalInterestPaid else 0.0;
    var payment := if |sample| == 0 then Some(0.0)
                   else if |sample| > 1 then Some(sample[1].monthlyPayment)
                   else None;
    Summary(totalInterest, payment, loanAmount + totalInterest)
  }
}
