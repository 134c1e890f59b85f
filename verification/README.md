# Expense ledger — a Dafny model

This project models the in-memory core of a small Java expense tracker (package
`org.example`). It has five parts:

- **Expense record** (`Expense.java`, module `Expenses`). The constructor checks
  the id, owner (`userId`), category, amount and date in that order. It fails
  with the message of the first bad field. Otherwise it stores the trimmed
  strings, the amount rounded HALF_UP to cents, and the date's value.
  Equality is structural over the five fields.
- **Ledger** (`ExpenseManager.java`, module `Ledger`). The class
  `ExpenseManager` holds the insertion-ordered `expenses` list as a `seq`.
  `AddExpense` and `RemoveExpense` update it. Four read-only queries are
  functions of it:
  - `ExpensesByUser`: records of an exact owner;
  - `FilterByCategory`: owner plus case-insensitive category;
  - `FilterByDateRange`: owner plus an inclusive date range;
  - `SortExpensesByAmount`: owner's records, stably sorted by amount.

  Every stream `filter` is one function, `Select`, over a `Criterion`. The
  in-place `List.sort` is the stable insertion sort `SortByAmount`.
- **Statistics engine** (`StatisticsManager.java`, module `Statistics`). Total,
  maximum and average of a list. They use the exact decimal sum and HALF_UP
  rounding to two places. The model proves the total equals the sum of the
  cents. It proves the average equals `(2T + n) / (2n)` cents.
- **User record** (`User.java`, module `Users`). A validated `(id, name)` pair,
  stored trimmed, with structural equality.
- **User registry** (`UserManager.java`, module `Registry`). The class
  `UserManager` holds the `users` map, keyed by the untrimmed id passed to
  `addUser`. Adding a key that is already present is silently ignored.

Helper modules:

- `Wrappers`: Java `null` becomes `Option`. A thrown
  `IllegalArgumentException` becomes `Result.Failure(message)` for functions.
  For methods it becomes the out-parameter `err := Some(message)`. Every
  message is the code's own string.
- `JavaText`: `String.trim`, blankness, and `equalsIgnoreCase`.
- `Decimal`: HALF_UP rounding to cents.

Amounts are stored as whole cents (`nat`). A raw constructor argument is an
exact `real`. Timestamps are integers (milliseconds).

Two client methods replay test scenarios with assertions:

- `Registry.RegistryScenario` replays the `UserManagerTest` scenarios: adding,
  a duplicate key, an unknown key, and `null` or blank input.
- `Ledger.RemoveAfterAddScenario` replays the add-then-remove scenario of
  `ExpenseManagerTest`.

## Model

| member | source | states |
|---|---|---|
| `JavaText.Trim` | src/main/java/org/example/Expense.java:20-22 | `trim` removes only characters at most U+0020, from both ends. The result neither starts nor ends with one. It is empty exactly when the input is blank. |
| `JavaText.TrimOfIsUnique` | src/main/java/org/example/Expense.java:20-22 | The reference definition of trimming admits one result per string. |
| `JavaText.TrimIdempotent` | src/main/java/org/example/Expense.java:20-22 | A trimmed string is a fixed point of `trim`. |
| `JavaText.TrimOfPlain` | src/main/java/org/example/User.java:16-17 | A string with non-blank first and last characters is unchanged by `trim` and is not blank. |
| `JavaText.Missing` | src/main/java/org/example/Expense.java:14-16 | The check `s == null \|\| s.trim().isEmpty()` holds exactly when the argument is `null` or trims to the empty string. |
| `JavaText.EqualsIgnoreCase` | src/main/java/org/example/ExpenseManager.java:37 | Matching ignoring case holds exactly when the case-folded strings are equal. |
| `JavaText.EqualsIgnoreCaseIsEquivalence` | src/main/java/org/example/ExpenseManager.java:37 | Matching ignoring case is reflexive, symmetric and transitive. |
| `JavaText.IgnoreCaseExamples` | src/test/java/org/example/ExpenseManagerTest.java:196-209 | "FoOd" matches "Food", "FOOD" and "food", and does not match "Foods". |
| `Decimal.RoundHalfUpCents` | src/main/java/org/example/Expense.java:23 | The result is the nearest cent to a non-negative amount, and a tie goes up. |
| `Decimal.RoundHalfUpIsUnique` | src/main/java/org/example/StatisticsManager.java:17 | Exactly one number of cents meets the HALF_UP condition. |
| `Decimal.RoundWholeCents` | src/main/java/org/example/StatisticsManager.java:14-17 | Rounding an amount that already has two places leaves it unchanged. |
| `Decimal.RoundingExamples` | src/test/java/org/example/ExpenseTest.java:59-67 | 100.123 rounds to 100.12, 99.999 to 100.00, 0.125 to 0.13, 50.123 to 50.12 and 150.456 to 150.46. |
| `Decimal.DivIsFloor` | src/main/java/org/example/StatisticsManager.java:39 | For non-negative operands, integer division is the floor of exact division. |
| `Decimal.AverageCents` | src/main/java/org/example/StatisticsManager.java:37-39 | Dividing T cents by n, then rounding HALF_UP to two places, gives `(2T + n) / (2n)` cents. |
| `Expenses.NewExpense` | src/main/java/org/example/Expense.java:13-25 | Construction succeeds exactly when every field is valid. Otherwise the first bad field's message is reported, checked in the order id, owner, category, amount, date. On success: the strings are trimmed, non-empty and fixed points of `trim`; the amount is the HALF_UP cent of the raw amount; the date is the given value. |
| `Expenses.Amount` | src/main/java/org/example/Expense.java:39-41 | `getAmount` is non-negative and equals the stored cents divided by 100. |
| `Expenses.Equals` | src/main/java/org/example/Expense.java:47-57 | `equals` holds exactly when the argument is non-null and equal in all five fields. |
| `Expenses.EqualsIsEquivalence` | src/test/java/org/example/ExpenseTest.java:69-85 | Expense equality is reflexive, symmetric and transitive, and is false against `null`. |
| `Expenses.TinyAmountStoredAsZero` | src/main/java/org/example/Expense.java:17-23 | Positivity is checked before rounding. So a raw amount below half a cent is accepted and stored as 0.00. |
| `Ledger.Select` | src/main/java/org/example/ExpenseManager.java:27-29 | A stream `filter(...).collect(toList())` is never longer than its input, and every element it returns meets the condition. |
| `Ledger.SelectMembers` | src/main/java/org/example/ExpenseManager.java:27-29 | A stream filter keeps exactly the elements that meet its condition. |
| `Ledger.SelectCounts` | src/main/java/org/example/ExpenseManager.java:27-29 | A filter keeps each matching element as many times as the input holds it, and no other element. |
| `Ledger.SelectIsSubsequence` | src/main/java/org/example/ExpenseManager.java:27-29 | A filter keeps the input order: its result is a subsequence of the input. |
| `Ledger.SelectAppend` | src/main/java/org/example/ExpenseManager.java:13 | Filtering a concatenation is concatenating the filtered parts. |
| `Ledger.SelectKeepsAllIff` | src/main/java/org/example/ExpenseManager.java:20 | A filter drops an element exactly when some element fails its condition. If all pass, it returns the input. |
| `Ledger.SelectWithin` | src/main/java/org/example/ExpenseManager.java:45-48 | The date filter keeps, in order and each as often as stored, exactly the records dated from start to end, both included. It keeps none when end < start. |
| `Ledger.NothingSelected` | src/main/java/org/example/ExpenseManager.java:45-48 | A filter that no element meets returns an empty list. |
| `Ledger.InsertByAmount` | src/main/java/org/example/ExpenseManager.java:56 | Insertion adds exactly the one element; the result is a permutation of the input plus it. |
| `Ledger.InsertByAmountKeepsSorted` | src/main/java/org/example/ExpenseManager.java:56 | Inserting into a list sorted by amount keeps it sorted. |
| `Ledger.SortByAmount` | src/main/java/org/example/ExpenseManager.java:56 | The sort's result is in ascending amount order and is a permutation of its input. |
| `Ledger.InsertByAmountIsStable` | src/main/java/org/example/ExpenseManager.java:56 | Insertion puts the new element before the existing elements of equal amount and keeps their order. |
| `Ledger.SortByAmountIsStable` | src/main/java/org/example/ExpenseManager.java:56 | For every amount, the records with that amount keep their input order after the sort. |
| `Ledger.UntrimmedKeyMatchesNothing` | src/main/java/org/example/ExpenseManager.java:16-30 | If every record is well-formed, its id and owner are trimmed. So an untrimmed argument selects no owner's records and removes no record. |
| `Ledger.SortExample` | src/test/java/org/example/ExpenseManagerTest.java:178-194 | Amounts 30.00, 10.00, 20.00 sort to 10.00, 20.00, 30.00. |
| `Ledger.ExpenseManager.constructor` | src/main/java/org/example/ExpenseManager.java:7 | A new ledger is empty. |
| `Ledger.ExpenseManager.AddExpense` | src/main/java/org/example/ExpenseManager.java:9-14 | `null` raises "Expense cannot be null" and changes nothing. Otherwise the list becomes the old list plus the record. |
| `Ledger.ExpenseManager.RemoveExpense` | src/main/java/org/example/ExpenseManager.java:16-21 | A `null` or blank id returns false and changes nothing. Otherwise every record with exactly that id is removed, and the others keep their order. The result is true exactly when some record had the id, which is exactly when the list shrank. An untrimmed id removes nothing, because stored ids are trimmed. |
| `Ledger.ExpenseManager.ExpensesByUser` | src/main/java/org/example/ExpenseManager.java:23-30 | A `null` or blank owner gives an empty list. Otherwise: exactly the stored records of that owner, each as often as stored, in insertion order. In a valid ledger an untrimmed owner gives an empty list. |
| `Ledger.ExpenseManager.FilterByCategory` | src/main/java/org/example/ExpenseManager.java:32-39 | A `null` argument gives an empty list. Otherwise: exactly the owner's records whose category matches ignoring case, each as often as stored, in order. |
| `Ledger.ExpenseManager.FilterByDateRange` | src/main/java/org/example/ExpenseManager.java:41-49 | A `null` argument gives an empty list. Otherwise: exactly the owner's records with start ≤ date ≤ end, each as often as stored, in order. The list is empty when end < start. |
| `Ledger.ExpenseManager.SortExpensesByAmount` | src/main/java/org/example/ExpenseManager.java:51-58 | A `null` owner gives an empty list. Otherwise: a permutation of the owner's records in ascending amount, with equal amounts in insertion order. |
| `Ledger.AddedExpenseIsLastOfOwner` | src/main/java/org/example/ExpenseManager.java:9-14 | After an append, the owner's records are the old ones followed by the new record. |
| `Ledger.RemovedIdLeavesOwnerView` | src/test/java/org/example/ExpenseManagerTest.java:39-51 | After removal by id, no record of any owner has that id. |
| `Statistics.ExactSum` | src/main/java/org/example/StatisticsManager.java:14-16 | The exact decimal sum of stored amounts is the sum of their cents, divided by 100. |
| `Statistics.MaxCents` | src/main/java/org/example/StatisticsManager.java:24-27 | The maximum is 0 for an empty list. Otherwise it is one of the amounts and no amount exceeds it. |
| `Statistics.Total` | src/main/java/org/example/StatisticsManager.java:10-18 | `null` raises "Expenses list cannot be null". Otherwise the rounded exact sum equals the sum of the cents, which is 0.00 for an empty list. |
| `Statistics.Max` | src/main/java/org/example/StatisticsManager.java:20-28 | `null` raises. An empty list gives 0.00. Otherwise the result is an amount of the list that no amount exceeds. |
| `Statistics.Average` | src/main/java/org/example/StatisticsManager.java:30-40 | `null` raises. An empty list gives 0.00. Otherwise the result is `(2T + n) / (2n)` cents, for total T cents over n records. |
| `Statistics.SumAtMost` | src/main/java/org/example/StatisticsManager.java:14-16 | A sum of n amounts, none above m, is at most n·m. |
| `Statistics.RoundedMeanAtMost` | src/main/java/org/example/StatisticsManager.java:39 | The rounded mean of amounts bounded by m is at most m. |
| `Statistics.AverageAtMostMax` | src/main/java/org/example/StatisticsManager.java:37-39 | The average never exceeds the maximum. |
| `Statistics.SingleExpenseStatistics` | src/test/java/org/example/StatisticsManagerTest.java:43-51 | For one record, total, maximum and average all equal its amount. |
| `Statistics.WholeAmountsExample` | src/test/java/org/example/StatisticsManagerTest.java:76-82 | {100.00, 200.00} gives 300.00, 200.00 and 150.00. |
| `Statistics.ThreeAmountsExample` | src/test/java/org/example/StatisticsManagerTest.java:83-90 | {1.23, 4.56, 7.89} gives 13.68, 7.89 and 4.56. |
| `Statistics.RoundedAmountsExample` | src/test/java/org/example/StatisticsManagerTest.java:53-62 | Raw 50.123 and 150.456 give 200.58, 150.46 and 100.29. |
| `Users.NewUser` | src/main/java/org/example/User.java:9-18 | Construction succeeds exactly when id and name are both non-null and non-blank. The id is checked first, so (null, null) reports the id message. On success both fields are the trimmed inputs. |
| `Users.Equals` | src/main/java/org/example/User.java:28-35 | `equals` holds exactly when the argument is non-null with the same id and name. |
| `Users.EqualsIsEquivalence` | src/test/java/org/example/UserTest.java:22-39 | User equality is reflexive, symmetric and transitive, and is false against `null`. |
| `Registry.InsertKeepsBuiltFromKeys` | src/main/java/org/example/UserManager.java:22 | Storing a user built from a fresh key keeps the invariant that each stored id is its trimmed key. |
| `Registry.UserManager.constructor` | src/main/java/org/example/UserManager.java:9-11 | A new registry is empty. |
| `Registry.UserManager.AddUser` | src/main/java/org/example/UserManager.java:13-23 | A `null` argument raises "User ID and name cannot be null" and changes nothing. A key already present is a silent no-op, even with a blank name. For a new key: a failing `User` constructor raises its message and changes nothing; otherwise exactly that key is added, mapped to the trimmed user. After any non-raising call the key exists. |
| `Registry.UserManager.UserExists` | src/main/java/org/example/UserManager.java:29-31 | A `null` key never exists. In a valid registry an existing key is not blank, and it maps to a user whose id is the trimmed key. |
| `Registry.UserManager.GetUser` | src/main/java/org/example/UserManager.java:25-31 | `getUser` is non-null exactly when `userExists` holds. A stored user's id is the trimmed key, and its fields are non-empty and trimmed. |

## Left out

- `Main.java`: the console menu, prompts, input parsing with
  `Double.parseDouble` and `SimpleDateFormat`, and `printf` output. This is
  console I/O and is not part of this model.
- `ExportManager.java`: table rendering to the console. It is output
  formatting only and is not part of this model.
- `hashCode` and `toString` of `Expense` and `User`. Only equality is modelled.
- Binary floating point. A raw amount is an exact `real`, and HALF_UP
  rounding is exact. So the model leaves out these double effects:
  - how decimals such as 1.005 are represented;
  - NaN and +Infinity, which pass `amount <= 0` in the code (-Infinity is
    rejected there);
  - `Double.compare` of -0.0;
  - the `BigDecimal.valueOf(double)` and `doubleValue()` conversions.
- `Math.round` returns a `long`. It saturates at `Long.MAX_VALUE` once the
  amount times 100 reaches 2^63 (Expense.java:23). The model stores exact,
  unbounded cents.
- A `null` element inside the list passed to `calculateTotal`,
  `calculateMax` or `calculateAverage` raises a `NullPointerException`
  (StatisticsManager.java:15, 25, 37). A `seq<Expense>` cannot hold `null`,
  so that case is not modelled.
- `java.util.Date` objects. Timestamps are integers, so there is no aliasing.
  The defensive copies in the constructor and in `getDate`
  (Expense.java:24, 43-45) reduce to value semantics. The stored date is the
  value passed in, and no later change can reach it.
- Plain getters (`getId`, `getUserId`, `getCategory`, `getName`). They are the
  datatype's fields.
- Equality against an object of another class, and the `this == o`
  shortcut. The typed model has no such argument, and value equality makes the
  shortcut redundant.
- `equalsIgnoreCase`: full Unicode case mapping. Only ASCII letters are
  folded.
- `List.sort`: the in-place update of the fresh list (TimSort). The model
  keeps only the result, a stable sort by amount computed by insertion sort.
- `Ledger.ExpenseManager.AddExpense`: it requires a present record to be
  well-formed. In Java every `Expense` object has passed its constructor; the
  model's datatype can also be built directly.

## Behaviour worth noting

- `removeExpense` uses `removeIf` (ExpenseManager.java:20). It removes every
  record with the id, not only the first.
- Positivity is checked before rounding (Expense.java:17, 23). So a raw
  amount below 0.005 is accepted and stored as 0.00.
  `Expenses.TinyAmountStoredAsZero` states this case.
