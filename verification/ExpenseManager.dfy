/** The ledger: an insertion-ordered list of expenses with owner-scoped
    queries (`ExpenseManager`), the filters those queries apply, and the stable
    sort by amount. */
module Ledger {
  import opened Wrappers
  import opened JavaText
  import opened Expenses

  const NullExpenseError := "Expense cannot be null"

  /** A condition a stream filter tests on one expense. */
  datatype Criterion =
    | HasId(id: string)                 // `getId().equals(id)`
    | OwnedBy(userId: string)           // `getUserId().equals(userId)`
    | CategoryLike(category: string)    // `getCategory().equalsIgnoreCase(category)`
    | DatedWithin(start: int, end: int) // `!getDate().before(start) && !getDate().after(end)`
    | Costs(cents: nat)                 // the amount is exactly this many cents
    | Not(c: Criterion)

  predicate Matches(e: Expense, c: Criterion) {
    match c
    case HasId(id) => e.id == id
    case OwnedBy(u) => e.userId == u
    case CategoryLike(cat) => EqualsIgnoreCase(e.category, cat)
    case DatedWithin(start, end) => start <= e.date && e.date <= end
    case Costs(cents) => e.amountCents == cents
    case Not(c') => !Matches(e, c')
  }

  /** `r` can be obtained from `s` by deleting elements: same elements, same order. */
  predicate IsSubsequence<T(==)>(r: seq<T>, s: seq<T>)
    decreases |s|
  {
    r == [] || (s != [] && ((r[0] == s[0] && IsSubsequence(r[1..], s[1..])) || IsSubsequence(r, s[1..])))
  }

  /** A stream `filter(...).collect(toList())`: the expenses of `s` meeting `c`,
      in their order in `s`. */
  function Select(s: seq<Expense>, c: Criterion): (r: seq<Expense>)
    ensures |r| <= |s|
    ensures forall i :: 0 <= i < |r| ==> Matches(r[i], c)
  {
    if s == [] then []
    else if Matches(s[0], c) then [s[0]] + Select(s[1..], c)
    else Select(s[1..], c)
  }

  /** A filter keeps exactly the elements that meet the condition. */
  lemma {:induction false} SelectMembers(s: seq<Expense>, c: Criterion)
    ensures forall e :: e in Select(s, c) <==> e in s && Matches(e, c)
  {
    if s != [] {
      SelectMembers(s[1..], c);
      assert forall e :: e in s <==> e == s[0] || e in s[1..];
    }
  }

  /** A filter keeps each element that meets the condition as often as the
      input holds it, and no other. */
  lemma {:induction false} SelectCounts(s: seq<Expense>, c: Criterion)
    ensures forall e :: multiset(Select(s, c))[e] == if Matches(e, c) then multiset(s)[e] else 0
  {
    if s != [] {
      SelectCounts(s[1..], c);
      assert s == [s[0]] + s[1..];
    }
  }

  /** A filter keeps the order of its input. */
  lemma {:induction false} SelectIsSubsequence(s: seq<Expense>, c: Criterion)
    ensures IsSubsequence(Select(s, c), s)
  {
    if s != [] {
      SelectIsSubsequence(s[1..], c);
      var rest := Select(s[1..], c);
      if Matches(s[0], c) {
        assert ([s[0]] + rest)[0] == s[0];
        assert ([s[0]] + rest)[1..] == rest;
      }
    }
  }

  /** Filtering a concatenation filters each part. */
  lemma {:induction false} SelectAppend(a: seq<Expense>, b: seq<Expense>, c: Criterion)
    ensures Select(a + b, c) == Select(a, c) + Select(b, c)
  {
    if a == [] {
      assert a + b == b;
    } else {
      assert (a + b)[0] == a[0];
      assert (a + b)[1..] == a[1..] + b;
      SelectAppend(a[1..], b, c);
      if Matches(a[0], c) {
        assert Select(a + b, c) == [a[0]] + Select(a[1..] + b, c);
      } else {
        assert Select(a + b, c) == Select(a[1..] + b, c);
      }
    }
  }

  /** A filter drops something exactly when some element fails the condition. */
  lemma {:induction false} SelectKeepsAllIff(s: seq<Expense>, c: Criterion)
    ensures |Select(s, c)| <= |s|
    ensures |Select(s, c)| == |s| <==> forall e :: e in s ==> Matches(e, c)
    ensures (forall e :: e in s ==> Matches(e, c)) ==> Select(s, c) == s
  {
    if s != [] {
      SelectKeepsAllIff(s[1..], c);
      assert forall e :: e in s <==> e == s[0] || e in s[1..];
      if Matches(s[0], c) {
        assert Select(s, c) == [s[0]] + Select(s[1..], c);
      } else {
        assert Select(s, c) == Select(s[1..], c);
        assert s[0] in s;
      }
    }
  }

  /** A filter that no element meets returns nothing. */
  lemma {:induction false} NothingSelected(s: seq<Expense>, c: Criterion)
    requires forall e :: e in s ==> !Matches(e, c)
    ensures Select(s, c) == []
  {
    if s != [] {
      assert s[0] in s;
      assert forall e :: e in s[1..] ==> e in s;
      NothingSelected(s[1..], c);
    }
  }

  /** Amounts never decrease along `s`. */
  predicate SortedByAmount(s: seq<Expense>) {
    forall i, j :: 0 <= i < j < |s| ==> s[i].amountCents <= s[j].amountCents
  }

  /** Places `x` before the first element of `s` whose amount is at least its own. */
  function InsertByAmount(x: Expense, s: seq<Expense>): (r: seq<Expense>)
    ensures multiset(r) == multiset(s) + multiset{x}
  {
    if s == [] || x.amountCents <= s[0].amountCents then [x] + s
    else
      assert s == [s[0]] + s[1..];
      [s[0]] + InsertByAmount(x, s[1..])
  }

  /** Inserting into a sorted sequence keeps it sorted. */
  lemma {:induction false} InsertByAmountKeepsSorted(x: Expense, s: seq<Expense>)
    requires SortedByAmount(s)
    ensures SortedByAmount(InsertByAmount(x, s))
  {
    if s != [] && x.amountCents > s[0].amountCents {
      var rest := InsertByAmount(x, s[1..]);
      InsertByAmountKeepsSorted(x, s[1..]);
      var r := [s[0]] + rest;
      assert s == [s[0]] + s[1..];
      forall j | 1 <= j < |r| ensures s[0].amountCents <= r[j].amountCents {
        assert r[j] == rest[j - 1];
        assert r[j] in multiset(rest);
        assert r[j] in multiset(s[1..]) || r[j] == x;
      }
    }
  }

  /** `List.sort(Comparator.comparingDouble(Expense::getAmount))`: a stable sort
      by amount, here as insertion sort. */
  function SortByAmount(s: seq<Expense>): (r: seq<Expense>)
    ensures SortedByAmount(r)
    ensures multiset(r) == multiset(s)
  {
    if s == [] then []
    else
      assert s == [s[0]] + s[1..];
      InsertByAmountKeepsSorted(s[0], SortByAmount(s[1..]));
      InsertByAmount(s[0], SortByAmount(s[1..]))
  }

  /** Filtering a single element keeps it or drops it. */
  lemma SelectSingleton(y: Expense, c: Criterion)
    ensures Select([y], c) == if Matches(y, c) then [y] else []
  {
    assert [y][1..] == [];
  }

  /** A sorted sequence stays sorted without its first element. */
  lemma SortedTail(s: seq<Expense>)
    requires s != [] && SortedByAmount(s)
    ensures SortedByAmount(s[1..])
  {
  }

  /** Of two pieces of which one is empty, either may come first. */
  lemma SwapPastEmpty(a: seq<Expense>, b: seq<Expense>, t: seq<Expense>)
    requires a == [] || b == []
    ensures a + (b + t) == b + (a + t)
  {
  }

  /** Inserting keeps the relative order of equal amounts, `x` coming first. */
  lemma {:induction false} InsertByAmountIsStable(x: Expense, s: seq<Expense>, cents: nat)
    requires SortedByAmount(s)
    ensures Select(InsertByAmount(x, s), Costs(cents)) == Select([x], Costs(cents)) + Select(s, Costs(cents))
  {
    var c := Costs(cents);
    if s == [] || x.amountCents <= s[0].amountCents {
      SelectAppend([x], s, c);
    } else {
      var rest := InsertByAmount(x, s[1..]);
      assert InsertByAmount(x, s) == [s[0]] + rest;
      SortedTail(s);
      InsertByAmountIsStable(x, s[1..], cents);
      SelectAppend([s[0]], rest, c);
      assert s == [s[0]] + s[1..];
      SelectAppend([s[0]], s[1..], c);
      SelectSingleton(s[0], c);
      SelectSingleton(x, c);
      SwapPastEmpty(Select([s[0]], c), Select([x], c), Select(s[1..], c));
    }
  }

  /** The sort is stable: for every amount, the expenses carrying it appear in
      the result in the order they had in the input. */
  lemma {:induction false} SortByAmountIsStable(s: seq<Expense>, cents: nat)
    ensures Select(SortByAmount(s), Costs(cents)) == Select(s, Costs(cents))
  {
    if s != [] {
      SortByAmountIsStable(s[1..], cents);
      InsertByAmountIsStable(s[0], SortByAmount(s[1..]), cents);
      SelectAppend([s[0]], s[1..], Costs(cents));
      assert [s[0]] + s[1..] == s;
    }
  }

  /** A record is only stored once constructed, so its id and owner are trimmed:
      an untrimmed owner or id matches no stored record. */
  lemma {:induction false} UntrimmedKeyMatchesNothing(s: seq<Expense>, key: string)
    ensures (forall e :: e in s ==> WellFormed(e)) && Trim(key) != key ==>
      Select(s, OwnedBy(key)) == [] && Select(s, Not(HasId(key))) == s
  {
    if !(forall e :: e in s ==> WellFormed(e)) || Trim(key) == key {
      return;
    }
    SelectKeepsAllIff(s, Not(HasId(key)));
    forall e | e in s ensures e.userId != key && e.id != key {
      assert WellFormed(e);
    }
    NothingSelected(s, OwnedBy(key));
  }

  /** The date filter, stated on dates: it keeps, in order and with their
      counts, exactly the records dated from `start` to `end`, both included. */
  lemma SelectWithin(s: seq<Expense>, start: int, end: int)
    ensures IsSubsequence(Select(s, DatedWithin(start, end)), s)
    ensures forall e :: e in Select(s, DatedWithin(start, end)) <==> e in s && start <= e.date <= end
    ensures forall e :: multiset(Select(s, DatedWithin(start, end)))[e] ==
              (if start <= e.date <= end then multiset(s)[e] else 0)
    ensures end < start ==> Select(s, DatedWithin(start, end)) == []
  {
    SelectIsSubsequence(s, DatedWithin(start, end));
    SelectMembers(s, DatedWithin(start, end));
    SelectCounts(s, DatedWithin(start, end));
    if end < start {
      NothingSelected(s, DatedWithin(start, end));
    }
  }

  class ExpenseManager {
    /** The `expenses` ArrayList, in insertion order. */
    var expenses: seq<Expense>

    /** Every stored record went through the `Expense` constructor. */
    ghost predicate Valid()
      reads this
    {
      forall e :: e in expenses ==> WellFormed(e)
    }

    constructor ()
      ensures Valid() && expenses == []
    {
      expenses := [];
    }

    /** `addExpense`: raises on `null`, otherwise appends. `err` is the message of
        the exception raised. */
    method AddExpense(expense: Option<Expense>) returns (err: Option<string>)
      requires Valid()
      requires expense.Some? ==> WellFormed(expense.value)
      modifies this
      ensures Valid()
      ensures expense.None? ==> err == Some(NullExpenseError) && expenses == old(expenses)
      ensures expense.Some? ==> err == None && expenses == old(expenses) + [expense.value]
    {
      if expense.None? {
        return Some(NullExpenseError);
      }
      assert forall e :: e in expenses + [expense.value] ==> e in expenses || e == expense.value;
      expenses := expenses + [expense.value];
      err := None;
    }

    /** `removeExpense`: a `null` or blank id removes nothing; otherwise every
        record whose id equals the argument exactly (untrimmed) is removed, the
        others keeping their order, and the answer says whether any was. */
    method RemoveExpense(expenseId: Option<string>) returns (removed: bool)
      requires Valid()
      modifies this
      ensures Valid()
      ensures Missing(expenseId) ==> !removed && expenses == old(expenses)
      ensures !Missing(expenseId) ==> expenses == Select(old(expenses), Not(HasId(expenseId.value)))
      ensures removed <==> !Missing(expenseId) && exists e :: e in old(expenses) && e.id == expenseId.value
      ensures removed <==> |expenses| < |old(expenses)|
      ensures expenseId.Some? && Trim(expenseId.value) != expenseId.value ==>
        !removed && expenses == old(expenses)
    {
      if Missing(expenseId) {
        return false;
      }
      UntrimmedKeyMatchesNothing(expenses, expenseId.value);
      var kept := Select(expenses, Not(HasId(expenseId.value)));
      SelectKeepsAllIff(expenses, Not(HasId(expenseId.value)));
      SelectMembers(expenses, Not(HasId(expenseId.value)));
      removed := |kept| < |expenses|;
      expenses := kept;
    }

    /** `getExpensesByUser`: nothing for a `null` or blank owner, otherwise the
        stored records of exactly that owner, in insertion order. */
    function ExpensesByUser(userId: Option<string>): (r: seq<Expense>)
      reads this
      ensures Missing(userId) ==> r == []
      ensures IsSubsequence(r, expenses)
      ensures forall e :: e in r <==> !Missing(userId) && e in expenses && e.userId == userId.value
      ensures !Missing(userId) ==>
        forall e :: multiset(r)[e] == if e.userId == userId.value then multiset(expenses)[e] else 0
      ensures Valid() && userId.Some? && Trim(userId.value) != userId.value ==> r == []
    {
      if Missing(userId) then []
      else
        UntrimmedKeyMatchesNothing(expenses, userId.value);
        SelectIsSubsequence(expenses, OwnedBy(userId.value));
        SelectMembers(expenses, OwnedBy(userId.value));
        SelectCounts(expenses, OwnedBy(userId.value));
        Select(expenses, OwnedBy(userId.value))
    }

    /** `filterByCategory`: nothing if either argument is `null`, otherwise the
        owner's records whose category equals the argument ignoring case. */
    function FilterByCategory(userId: Option<string>, category: Option<string>): (r: seq<Expense>)
      reads this
      ensures userId.None? || category.None? ==> r == []
      ensures IsSubsequence(r, ExpensesByUser(userId))
      ensures forall e :: e in r <==>
        category.Some? && e in ExpensesByUser(userId) && EqualsIgnoreCase(e.category, category.value)
      ensures userId.Some? && category.Some? ==>
        forall e :: multiset(r)[e] ==
          if EqualsIgnoreCase(e.category, category.value) then multiset(ExpensesByUser(userId))[e] else 0
    {
      if userId.None? || category.None? then []
      else
        SelectIsSubsequence(ExpensesByUser(userId), CategoryLike(category.value));
        SelectCounts(ExpensesByUser(userId), CategoryLike(category.value));
        SelectMembers(ExpensesByUser(userId), CategoryLike(category.value));
        Select(ExpensesByUser(userId), CategoryLike(category.value))
    }

    /** `filterByDateRange`: nothing if any argument is `null`, otherwise the
        owner's records dated from `start` to `end`, both included. */
    function FilterByDateRange(userId: Option<string>, start: Option<int>, end: Option<int>): (r: seq<Expense>)
      reads this
      ensures userId.None? || start.None? || end.None? ==> r == []
      ensures start.Some? && end.Some? && end.value < start.value ==> r == []
      ensures IsSubsequence(r, ExpensesByUser(userId))
      ensures forall e :: e in r <==>
        start.Some? && end.Some? && e in ExpensesByUser(userId) && start.value <= e.date <= end.value
      ensures userId.Some? && start.Some? && end.Some? ==>
        forall e :: multiset(r)[e] ==
          if start.value <= e.date <= end.value then multiset(ExpensesByUser(userId))[e] else 0
    {
      if userId.None? || start.None? || end.None? then []
      else
        SelectWithin(ExpensesByUser(userId), start.value, end.value);
        Select(ExpensesByUser(userId), DatedWithin(start.value, end.value))
    }

    /** `sortExpensesByAmount`: nothing for a `null` owner, otherwise the owner's
        records in ascending amount, records of equal amount keeping their
        insertion order. */
    function SortExpensesByAmount(userId: Option<string>): (r: seq<Expense>)
      reads this
      ensures userId.None? ==> r == []
      ensures SortedByAmount(r)
      ensures multiset(r) == multiset(ExpensesByUser(userId))
      ensures forall cents: nat :: Select(r, Costs(cents)) == Select(ExpensesByUser(userId), Costs(cents))
    {
      if userId.None? then []
      else
        var r := SortByAmount(ExpensesByUser(userId));
        forall cents: nat ensures Select(r, Costs(cents)) == Select(ExpensesByUser(userId), Costs(cents)) {
          SortByAmountIsStable(ExpensesByUser(userId), cents);
        }
        r
    }
  }

  /** A record added to the ledger is the last of its owner's records. */
  lemma AddedExpenseIsLastOfOwner(s: seq<Expense>, e: Expense)
    ensures Select(s + [e], OwnedBy(e.userId)) == Select(s, OwnedBy(e.userId)) + [e]
  {
    SelectAppend(s, [e], OwnedBy(e.userId));
  }

  /** Removing by an id leaves no record with that id among any owner's records. */
  lemma RemovedIdLeavesOwnerView(s: seq<Expense>, id: string, owner: string)
    ensures forall e :: e in Select(Select(s, Not(HasId(id))), OwnedBy(owner)) ==> e.id != id
  {
    var kept := Select(s, Not(HasId(id)));
    SelectMembers(s, Not(HasId(id)));
    SelectMembers(kept, OwnedBy(owner));
    forall e | e in Select(kept, OwnedBy(owner)) ensures e.id != id {
      assert e in kept && Matches(e, Not(HasId(id)));
      assert !Matches(e, HasId(id));
    }
  }

  /** Amounts 30.00, 10.00 and 20.00 of one owner come back as 10.00, 20.00, 30.00. */
  lemma SortExample(a: Expense, b: Expense, c: Expense)
    requires a.amountCents == 3000 && b.amountCents == 1000 && c.amountCents == 2000
    ensures SortByAmount([a, b, c]) == [b, c, a]
  {
    assert [a, b, c][1..] == [b, c] && [b, c][1..] == [c] && [c][1..] == [];
    assert SortByAmount([c]) == [c];
    assert SortByAmount([b, c]) == [b, c];
    assert InsertByAmount(a, [c]) == [c, a];
  }

  /** A record's id removes it: after adding then removing it, its owner's view
      no longer holds it, and removing again reports nothing removed. */
  method RemoveAfterAddScenario(e: Expense)
    requires WellFormed(e)
  {
    var ledger := new ExpenseManager();
    var err := ledger.AddExpense(Some(e));
    assert err == None && e in ledger.ExpensesByUser(Some(e.userId));
    var removed := ledger.RemoveExpense(Some(e.id));
    assert removed;
    assert ledger.expenses == [];
    assert ledger.ExpensesByUser(Some(e.userId)) == [];
    removed := ledger.RemoveExpense(Some(e.id));
    assert !removed;
    err := ledger.AddExpense(None);
    assert err == Some(NullExpenseError);
  }
}
