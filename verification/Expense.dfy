/** One ledger entry: the validating, normalising constructor of `Expense` and
    its structural equality. */
module Expenses {
  import opened Wrappers
  import opened JavaText
  import opened Decimal

  const ExpenseIdError := "Expense ID cannot be null or empty"
  const UserIdError := "User ID cannot be null or empty"
  const CategoryError := "Category cannot be null or empty"
  const AmountError := "Amount must be positive"
  const DateError := "Date cannot be null"

  /** A constructed expense. The amount is kept in whole cents and the date as
      milliseconds since the epoch, a value the record alone holds. */
  datatype Expense = Expense(id: string, userId: string, category: string, amountCents: nat, date: int)

  /** The amount `getAmount` reports, as an exact decimal. */
  function Amount(e: Expense): (x: real)
    ensures x >= 0.0 && x * 100.0 == e.amountCents as real
  {
    CentsValue(e.amountCents)
  }

  /** What every constructed expense satisfies. */
  predicate WellFormed(e: Expense) {
    IsNormalField(e.id) && IsNormalField(e.userId) && IsNormalField(e.category)
  }

  /** The constructor `Expense(id, userId, category, amount, date)`: checks the
      fields in that order, failing on the first bad one; otherwise stores the
      trimmed strings, the amount rounded HALF_UP to cents, and the date's value. */
  function NewExpense(id: Option<string>, userId: Option<string>, category: Option<string>,
                      amount: real, date: Option<int>): (r: Result<Expense, string>)
    ensures r.Success? <==>
      !Missing(id) && !Missing(userId) && !Missing(category) && amount > 0.0 && date.Some?
    ensures Missing(id) ==> r == Failure(ExpenseIdError)
    ensures !Missing(id) && Missing(userId) ==> r == Failure(UserIdError)
    ensures !Missing(id) && !Missing(userId) && Missing(category) ==> r == Failure(CategoryError)
    ensures !Missing(id) && !Missing(userId) && !Missing(category) && amount <= 0.0 ==>
      r == Failure(AmountError)
    ensures !Missing(id) && !Missing(userId) && !Missing(category) && amount > 0.0 && date.None? ==>
      r == Failure(DateError)
    ensures r.Success? ==>
      && WellFormed(r.value)
      && r.value.id == Trim(id.value)
      && r.value.userId == Trim(userId.value)
      && r.value.category == Trim(category.value)
      && r.value.amountCents as real - 0.5 <= amount * 100.0 < r.value.amountCents as real + 0.5
      && r.value.date == date.value
  {
    if Missing(id) then Failure(ExpenseIdError)
    else if Missing(userId) then Failure(UserIdError)
    else if Missing(category) then Failure(CategoryError)
    else if amount <= 0.0 then Failure(AmountError)
    else if date.None? then Failure(DateError)
    else
      TrimIdempotent(id.value);
      TrimIdempotent(userId.value);
      TrimIdempotent(category.value);
      Success(Expense(Trim(id.value), Trim(userId.value), Trim(category.value),
                      RoundHalfUpCents(amount), date.value))
  }

  /** `Expense.equals`: the argument is a non-null expense agreeing on all five fields. */
  function Equals(e: Expense, o: Option<Expense>): (r: bool)
    ensures r <==> o == Some(e)
  {
    && o.Some?
    && o.value.amountCents == e.amountCents
    && o.value.id == e.id
    && o.value.userId == e.userId
    && o.value.category == e.category
    && o.value.date == e.date
  }

  /** Equality is reflexive, symmetric and transitive, and never holds for `null`. */
  lemma EqualsIsEquivalence(a: Expense, b: Expense, c: Expense)
    ensures Equals(a, Some(a))
    ensures Equals(a, Some(b)) ==> Equals(b, Some(a))
    ensures Equals(a, Some(b)) && Equals(b, Some(c)) ==> Equals(a, Some(c))
    ensures !Equals(a, None)
  {
  }

  /** Positivity is checked before rounding: a raw amount below half a cent is
      accepted and stored as 0.00. */
  lemma TinyAmountStoredAsZero(id: string, userId: string, category: string, amount: real, date: int)
    requires !IsBlank(id) && !IsBlank(userId) && !IsBlank(category)
    requires 0.0 < amount < 0.005
    ensures NewExpense(Some(id), Some(userId), Some(category), amount, Some(date)).Success?
    ensures NewExpense(Some(id), Some(userId), Some(category), amount, Some(date)).value.amountCents == 0
  {
  }
}
