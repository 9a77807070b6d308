# Expense tracker store, in Dafny

A model of the expense store of a small command-line finance tool (`index.js`). The
tool keeps a list of expense records `{id, date, description, amount}` in a JSON file.
At start-up it loads the list and sets the id counter `nextId` one past the largest
id. It then runs one command:

- `add` appends a record dated today and takes its id from the counter;
- `delete <id>` splices out the first record with that id;
- `list` shows the records;
- `summary [month]` sums the amounts of all records, or of those dated in one month.

Modules:

- `Wrappers`: the `Option` type.
- `JsText`: `parseInt(text, 10)`, which reads the month argument and the id argument. Also the `YYYY-MM-DD` dates: how `add` writes them and which calendar month `summary` reads from them.
- `Expenses`: the record type and the pure list computations. These are the counter after a load (`Math.max` over the ids), the `findIndex` lookup and the one-element `splice`.
- `Reports`: `list` and `summary` as functions of what reading the file gave. In the source, both commands re-read the file rather than using the loaded list. A missing file gives "no records", a file that cannot be parsed gives a read error, and parsed records are listed or summed.
- `Store`: the class `ExpenseStore`. Its fields `records` and `nextId` are the module-level `expenses` and `nextId` of the source. It has the load as its constructor and `add` and `delete` as methods that change it in place. `Valid()` is the invariant that every stored id is below `nextId`.

`summary` filters on the calendar month written in the stored date (`JsText.MonthOf`), not on the time-zone-dependent month the source computes (see "## Findings").

Amounts are whole cents (`int`), so every sum is exact. The date of `add`, the file's contents and the command-line arguments are parameters.

## Model

| member | source | states |
|---|---|---|
| `JsText.ParseInt` | index.js:114 | `parseInt(text, 10)` skips leading white space and reads an optional sign and a run of digits. It is `None` (NaN) exactly when no digit follows the sign. Without a minus sign the value is non-negative. |
| `JsText.ParseIntOfDigits` | index.js:80 | A run of digits followed by a non-digit or by the end parses to the value of the run. The rest of the text is ignored. |
| `JsText.ParseIntWhite` | index.js:114 | After leading white space and no sign, a run of digits followed by a non-digit or by the end parses to the run's value. |
| `JsText.ParseIntSigned` | index.js:114 | After leading white space and a `+` or `-` sign, a run of digits followed by a non-digit or by the end parses to the run's value, negated after a minus sign. |
| `JsText.ParseIntShowNat` | index.js:114 | Every natural number written in decimal parses back to itself. |
| `JsText.FormatDate` | index.js:36-37 | The date part of `toISOString()` is ten characters, with dashes at positions 4 and 7. The model accepts any day 01..31 in any month, including days such as February 30 that `toISOString` never writes. |
| `JsText.MonthOf` | index.js:121 | The month of a stored date is in 1..12 and exists only for a `YYYY-MM-DD` string. |
| `JsText.MonthOfFormatDate` | index.js:36-37 | A date written by `add` has exactly the month it was written with. |
| `JsText.MonthOfIsFormatted` | index.js:121 | Every date that has a month is one that `FormatDate` writes for that month, with a day 01..31 in any month. |
| `JsText.LocalMonthOf` | index.js:121 | The month `new Date(date).getMonth() + 1` gives in a given time zone. It is absent exactly when the stored date has no month, and otherwise lies in 1..12. |
| `JsText.LocalMonthOfFirstDay` | index.js:121 | West of UTC, the source's month of the first day of any month differs from that date's stored month. |
| `JsText.LocalMonthOfMayFirst` | index.js:121 | The date `2024-05-01` has month 5, but the source counts it in month 4 at UTC-5. |
| `Expenses.MaxId` | index.js:17 | `Math.max` over the ids of a non-empty list is one of the ids, and no id exceeds it. |
| `Expenses.NextIdAfterLoad` | index.js:16-18 | After a load the counter is above every id. It is 1 for an empty list, and otherwise it is one more than an id of the list. |
| `Expenses.FindIndex` | index.js:81 | The lookup gives -1 exactly when no record has the id. Otherwise it gives a position with that id, and no earlier position has it. |
| `Expenses.RemoveAt` | index.js:88 | `splice(k, 1)` shortens the list by one. Records before `k` stay where they were, and records after `k` move down by one, in order. |
| `Expenses.RemoveAtKeepsIds` | index.js:88 | Removing a record keeps the ids below any bound they were below. Distinct ids stay distinct and increasing ids stay increasing. With distinct ids, the removed id is no longer present. |
| `Expenses.AppendAtBoundKeepsIds` | index.js:39-45 | Appending a record whose id is the counter leaves all ids below the counter plus one. That id was not in use before, and distinct or increasing ids stay so. |
| `Reports.List` | index.js:65-70 | Over parsed records, `list` gives "no expenses" exactly when there are no records. Otherwise it gives the records unchanged and in stored order. |
| `Reports.ListCommand` | index.js:56-73 | A read error comes exactly from a file that cannot be parsed. "No expenses" comes exactly from a missing file or an empty list. A listing is the parsed records unchanged. |
| `Reports.TotalOfPrefix` | index.js:131 | The `reduce` step: the total of a non-empty list is the total of all but the last record plus the last amount. So the first-to-last order of the source gives the same sum as the model's definition. |
| `Reports.TotalAppend` | index.js:131 | The sum of the amounts of two lists put together is the sum of their sums. |
| `Reports.InMonth` | index.js:120-123 | The filter never lengthens the list, and every record it keeps is dated in the month. |
| `Reports.InMonthMembership` | index.js:120-123 | A record passes the filter if and only if it is in the list and dated in the month. |
| `Reports.InMonthAppend` | index.js:120-123 | Filtering two lists put together is the same as filtering each and putting the results together, so the stored order is kept. |
| `Reports.InMonthKeepsAll` | index.js:120-123 | A list whose records are all dated in the month passes the filter unchanged. |
| `Reports.Undated` | index.js:121 | No record set aside as undated has a month. |
| `Reports.UndatedMembership` | index.js:121 | A record is set aside as undated if and only if it is in the list and its date has no month. |
| `Reports.MonthTotalsPartition` | index.js:111-131 | The twelve monthly totals plus the total of the undated records equal the unfiltered total. So every amount is counted under exactly one month or none. |
| `Reports.Summary` | index.js:106-131 | An empty list gives "no records" before the argument is looked at. A given argument that does not parse to 1..12 gives "invalid month". Without a month, the result is the sum and count of all records. With a month, a filter that keeps nothing gives "no records for the month". Otherwise the result is the sum and count of the records kept. A reported total always has a positive count. |
| `Reports.EmptyMonthArgument` | index.js:111-113 | The truthiness test `if (month)`: an empty month argument counts as no argument, and the summary is then taken over every record. |
| `Reports.SummaryCommand` | index.js:97-109 | A read error comes exactly from a file that cannot be parsed (the `catch` at lines 134-136). "No records" comes exactly from a missing file or an empty list. Parsed records get what `Summary` gives. |
| `Reports.SummaryOfDecimalMonth` | index.js:113-123 | A month argument written in decimal selects that month's records. |
| `Store.ExpenseStore.Load` | index.js:8-23 | A parsed file gives its records, with the counter one past the largest id or 1. A missing or unparsable file gives an empty list and a counter of 1. The invariant holds afterwards. |
| `Store.ExpenseStore.Add` | index.js:35-45 | The new record takes the old counter as its id and is appended after the unchanged earlier records. The counter grows by exactly one. The id was not in use. Distinct or increasing ids stay so, and the invariant is kept. |
| `Store.ExpenseStore.Delete` | index.js:79-88 | An id no record has reports not-found and changes nothing. Otherwise the first record with the id is returned and spliced out, and the others keep their order. The counter never changes, so the id is not handed out again. With distinct ids, the id is gone afterwards. |
| `Store.ExpenseStore.DeleteByText` | index.js:79-88 | An id argument that `parseInt` reads as NaN matches no record and changes nothing. For a parsed id, not-found comes exactly when no record has that id, and then nothing changes. Otherwise the first record with that id is returned and spliced out. The counter never changes. |

## Left out

- Argument parsing, help text and the version, which the `commander` library provides. The model takes the command's parameters directly.
- Reading and writing the file (`existsSync`, `readFileSync`, `writeFileSync`) and `JSON.parse`/`JSON.stringify`. The load and the two read-only commands take what the read produced (`NoFile`, `Unparsable` or `Parsed(records)`), and saving is outside the model. Because of this, the model has no round trip through the file.
- Store.ExpenseStore.Load, Reports.ListCommand, Reports.SummaryCommand: a file that exists but cannot be read (a directory named `expenses.json`, for one) makes `readFileSync` throw at start-up (index.js:13). That call is outside the `try`, so the process ends before any command runs. The model has no such outcome and treats an unreadable file as `Unparsable`. The load then gives an empty store, and `list` and `summary` give their read error.
- A file that parses to something other than an array of records, and ids that are not numbers. The model's records always have integer ids.
- Store.ExpenseStore.Load: distinct ids are not guaranteed, because the source does not check the file for duplicate ids. The model carries distinctness as a separate property that `Add` and `Delete` keep.
- `list` and `summary` re-read the file. The model does not relate that second read to the store that `add` or `delete` changed in the same run; each command is given its own read.
- The wall clock: `add` takes its date string as a parameter. `FormatDate` states what `toISOString` would write for a given calendar day.
- Floating point: `parseFloat` of the amount, the floating `+` of `reduce`, and `toFixed(2)`. Amounts are integer cents, so an amount text that is not a number (NaN) is not modelled.
- JsText.LocalMonthOf: the source's `Date` also parses other date texts, such as `2024-05`, `2024-05-01T10:00:00Z` or (in V8) `2024-5-1`. Those give a month in the source, but `MonthOf` and `LocalMonthOf` give none, so such a record falls in no month. Only a hand-edited file can hold such a date, because `add` always writes `YYYY-MM-DD`.
- Expenses.NextIdAfterLoad, Store.ExpenseStore.Load, Store.ExpenseStore.Add, Store.ExpenseStore.DeleteByText: ids and the counter are JavaScript numbers, exact only up to 2^53. From a file holding the id 9007199254740992, `Math.max(...) + 1` rounds back to that id, and the next `add` reuses it. Likewise, `parseInt("9007199254740993")` matches that id. The model's ids are unbounded integers, so its claims that the counter exceeds every id and that `add` hands out an unused id hold only for ids below 2^53.
- JsText.MonthOf, JsText.LocalMonthOf: the source's `Date` parser rolls a day past the end of its month into the next month. For example, `2024-02-30` becomes March 1, so the source gives month 3. The model reads only the `MM` field, for days 01..31, so both functions give month 2 for that date.
- Store.ExpenseStore.Load, Expenses.NextIdAfterLoad: `Math.max(...ids)` at index.js:17 passes every id as a separate call argument. JavaScript engines cap the number of such arguments; in V8 the cap depends on the stack size and is of the order of 10^5. A file with more records than that makes the call throw a `RangeError` inside the `try`, and the `catch` at index.js:19-22 empties the list and leaves the counter at 1. The next `add` then saves a file holding only its own record, and every earlier record is lost. The model's load keeps every parsed record, whatever the list's length.
- All console output, including the message texts and `console.table`.
- The message kinds are kept (no records, read error, invalid month, no records for the month, total, not found). Their Spanish texts are not.

## Findings

| source | as written | input that shows it | evidently intended | confidence | as-written member | corrected member |
|---|---|---|---|---|---|---|
| index.js:121 | The month of a record is `new Date(date).getMonth() + 1`. A `YYYY-MM-DD` string is read as midnight UTC, but the month is taken in local time. | The date `2024-05-01` on a machine at UTC-5 is counted in April. So `summary 5` misses it and `summary 4` includes it. | The calendar month written in the stored date (`MM`), which is the month `add` wrote. | high; not executed | `JsText.LocalMonthOfFirstDay` | `JsText.MonthOfFormatDate` |
