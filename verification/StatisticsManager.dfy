/** The statistics engine (`StatisticsManager`): total, maximum and average of
    a list of expenses, with exact decimals and HALF_UP rounding to two places. */
module Statistics {
  import opened Wrappers
  import opened Decimal
  import opened Expenses

  const NullListError := "Expenses list cannot be null"

  /** The sum of the amounts in cents. */
  function SumCents(s: seq<Expense>): nat {
    if s == [] then 0 else s[0].amountCents + SumCents(s[1..])
  }

  /** The exact decimal sum of the amounts: `reduce(BigDecimal.ZERO, BigDecimal::add)`.
      Stored amounts are whole cents, so the sum is a whole number of cents. */
  function ExactSum(s: seq<Expense>): (x: real)
    ensures x * 100.0 == SumCents(s) as real
  {
    if s == [] then 0.0 else Amount(s[0]) + ExactSum(s[1..])
  }

  /** The largest amount in cents, 0 for an empty list:
      `mapToDouble(getAmount).max().orElse(0.0)`. */
  function MaxCents(s: seq<Expense>): (m: nat)
    ensures s == [] ==> m == 0
    ensures s != [] ==> exists e :: e in s && e.amountCents == m
    ensures forall e :: e in s ==> e.amountCents <= m
  {
    if s == [] then 0
    else
      var rest := MaxCents(s[1..]);
      assert forall e :: e in s <==> e == s[0] || e in s[1..];
      if s[0].amountCents >= rest then s[0].amountCents else rest
  }

  /** `calculateTotal`: raises on `null`; otherwise the exact sum rounded HALF_UP
      to two places, which is the sum of the cents. */
  function Total(expenses: Option<seq<Expense>>): (r: Result<nat, string>)
    ensures expenses.None? ==> r == Failure(NullListError)
    ensures expenses.Some? ==> r == Success(SumCents(expenses.value))
  {
    match expenses
    case None => Failure(NullListError)
    case Some(s) =>
      RoundWholeCents(SumCents(s));
      Success(RoundHalfUpCents(ExactSum(s)))
  }

  /** `calculateMax`: raises on `null`; 0.00 for an empty list; otherwise an
      amount of the list that no amount of the list exceeds. */
  function Max(expenses: Option<seq<Expense>>): (r: Result<nat, string>)
    ensures expenses.None? ==> r == Failure(NullListError)
    ensures expenses == Some([]) ==> r == Success(0)
    ensures expenses.Some? ==> r.Success?
    ensures expenses.Some? && expenses.value != [] ==>
      exists e :: e in expenses.value && e.amountCents == r.value
    ensures expenses.Some? ==> forall e :: e in expenses.value ==> e.amountCents <= r.value
  {
    match expenses
    case None => Failure(NullListError)
    case Some(s) => Success(MaxCents(s))
  }

  /** `calculateAverage`: raises on `null`; 0.00 for an empty list; otherwise the
      rounded total divided by the count, rounded HALF_UP to two places. */
  function Average(expenses: Option<seq<Expense>>): (r: Result<nat, string>)
    ensures expenses.None? ==> r == Failure(NullListError)
    ensures expenses == Some([]) ==> r == Success(0)
    ensures expenses.Some? && expenses.value != [] ==>
      var t, n := SumCents(expenses.value), |expenses.value|;
      r == Success((2 * t + n) / (2 * n))
  {
    match expenses
    case None => Failure(NullListError)
    case Some(s) =>
      if s == [] then Success(0)
      else
        var total := Total(expenses).value;
        AverageCents(total, |s|);
        Success(RoundHalfUpCents(CentsValue(total) / |s| as real))
  }

  /** A sum of `n` amounts, none above `m`, is at most `n * m`. */
  lemma {:induction false} SumAtMost(s: seq<Expense>, m: nat)
    requires forall e :: e in s ==> e.amountCents <= m
    ensures SumCents(s) <= |s| * m
  {
    if s != [] {
      assert s[0] in s;
      assert forall e :: e in s[1..] ==> e in s;
      SumAtMost(s[1..], m);
      assert |s| * m == (|s| - 1) * m + m;
    }
  }

  /** `a < b * q` bounds the quotient `a / b` below `q`. */
  lemma DivBelow(a: nat, b: nat, q: nat)
    requires b > 0 && a < b * q
    ensures a / b < q
  {
    var d := a / b;
    assert b * d <= a;
    MulCancelStrict(b, d, q);
  }

  /** A positive factor cancels from a strict inequality. */
  lemma MulCancelStrict(b: nat, d: nat, q: nat)
    requires b > 0 && b * d < b * q
    ensures d < q
  {
  }

  /** Rounding the mean of `n` amounts, none above `m` cents, stays at most `m`. */
  lemma RoundedMeanAtMost(t: nat, n: nat, m: nat)
    requires n > 0 && t <= n * m
    ensures (2 * t + n) / (2 * n) <= m
  {
    assert 2 * t + n < (2 * n) * (m + 1);
    DivBelow(2 * t + n, 2 * n, m + 1);
  }

  /** The average never exceeds the maximum. */
  lemma AverageAtMostMax(s: seq<Expense>)
    requires s != []
    ensures Average(Some(s)).value <= Max(Some(s)).value
  {
    SumAtMost(s, MaxCents(s));
    RoundedMeanAtMost(SumCents(s), |s|, MaxCents(s));
  }

  /** For one expense, total, maximum and average all equal its amount. */
  lemma SingleExpenseStatistics(e: Expense)
    ensures Total(Some([e])) == Success(e.amountCents)
    ensures Max(Some([e])) == Success(e.amountCents)
    ensures Average(Some([e])) == Success(e.amountCents)
  {
    assert [e][1..] == [];
    assert SumCents([e]) == e.amountCents;
    assert (2 * e.amountCents + 1) / 2 == e.amountCents;
  }

  /** Worked example: {100.00, 200.00} gives 300.00, 200.00 and 150.00. */
  lemma WholeAmountsExample(a: Expense, b: Expense)
    requires a.amountCents == 10000 && b.amountCents == 20000
    ensures Total(Some([a, b])) == Success(30000)
    ensures Max(Some([a, b])) == Success(20000)
    ensures Average(Some([a, b])) == Success(15000)
  {
    assert [a, b][1..] == [b] && [b][1..] == [];
    assert SumCents([b]) == 20000;
    assert SumCents([a, b]) == 30000;
    assert MaxCents([b]) == 20000;
  }

  /** Worked example: {1.23, 4.56, 7.89} gives 13.68, 7.89 and 4.56. */
  lemma ThreeAmountsExample(a: Expense, b: Expense, c: Expense)
    requires a.amountCents == 123 && b.amountCents == 456 && c.amountCents == 789
    ensures Total(Some([a, b, c])) == Success(1368)
    ensures Max(Some([a, b, c])) == Success(789)
    ensures Average(Some([a, b, c])) == Success(456)
  {
    assert [a, b, c][1..] == [b, c] && [b, c][1..] == [c] && [c][1..] == [];
    assert SumCents([c]) == 789;
    assert SumCents([b, c]) == 1245;
    assert SumCents([a, b, c]) == 1368;
    assert MaxCents([c]) == 789;
    assert MaxCents([b, c]) == 789;
  }

  /** Worked example: raw amounts 50.123 and 150.456 are stored as 50.12 and
      150.46, giving 200.58, 150.46 and 100.29. */
  lemma RoundedAmountsExample(a: Expense, b: Expense)
    requires a.amountCents == RoundHalfUpCents(50.123) && b.amountCents == RoundHalfUpCents(150.456)
    ensures Total(Some([a, b])) == Success(20058)
    ensures Max(Some([a, b])) == Success(15046)
    ensures Average(Some([a, b])) == Success(10029)
  {
    RoundingExamples();
    assert [a, b][1..] == [b] && [b][1..] == [];
    assert SumCents([b]) == 15046;
    assert SumCents([a, b]) == 20058;
    assert MaxCents([b]) == 15046;
  }
}
