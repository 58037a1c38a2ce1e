# Home finance tracker — a Dafny model

The tracker has two parts. An Express server keeps income and expense transactions in one SQLite table. A React client lists them, adds, edits and deletes them, and shows a summary and a chart of this month's expenses. This project models the parts of both that decide what data is kept and shown. It uses pure functions over immutable values:

- `types.dfy` (`Types`): the transaction, summary and form records, the income/expense direction, and the order of the stored date text.
- `store.dfy` (`Store`): the `transactions` table.
  - Ids come from AUTOINCREMENT: a counter that never reuses an id, and fails with `SQLITE_FULL` once it passes the largest row id.
  - The NOT NULL constraint on `amount` and the CHECK constraint on `type` are enforced, in that order, but only when a row is actually written.
  - It covers INSERT, UPDATE … WHERE id, DELETE … WHERE id, `ORDER BY date DESC`, and the summary's `SUM(CASE …)` aggregate. That aggregate is NULL on an empty table, and NULL becomes 0.
- `server.dfy` (`Server`): the five route handlers as the first registration of each route defines them. This covers:
  - the required-field guard, with JavaScript falsiness;
  - the status codes and response bodies;
  - a run of requests against one table.
- `chart.dfy` (`ExpenseChart`): the group-by-category reduce, the descending sort, the "nothing to draw" case and `formatCategory`. It also has the reduce exactly as written, which looks categories up on a plain object (see Findings).
- `list.dfy` (`TransactionList`): client-side pagination (`slice`), the spinner / empty message / table choice, the row signs, and what the edit and delete buttons hand up.
- `form.dfy` (`TransactionForm`): the initial values and their fallbacks, `handleChange`, `String.prototype.trim`, the submit guard with its reset, the disabled state of the submit button, and the category options.
- `app.dfy` (`App`): `fetchData` and its loading flag, the add and delete flows, the edit dialog's click / save / cancel, the current-month filter that feeds the chart, and the consistency between the list and the summary.

How the model treats inputs and outside systems:

- Every network call, database engine error and clock reading is a parameter:
  - a write's success is a `bool`;
  - a refetch's result is a `FetchOutcome`;
  - the insert time is a `Date`.
- Amounts are exact `real`s.
- Dates are kept as (year, month, day, second of day), compared field by field. This is the order of their `YYYY-MM-DD HH:MM:SS` text.

Three behaviours of the code that differ from what its interface suggests, and that the model follows:

- A PUT for an id that does not exist does not fail. The UPDATE changes no row, the follow-up SELECT finds nothing, and `res.json(undefined)` answers 200 with an empty body (`server/server.js:64-72`). An invalid `type` on such a PUT also answers 200, because SQLite checks the constraint only on rows it writes.
- A null amount passes the required-field guard, which tests only `amount === undefined` (`server/server.js:40`, `61`). `parseFloat(null)` is NaN, which SQLite binds as NULL, so a POST fails the `amount REAL NOT NULL` constraint (`server/server.js:22`) with 500, and so does a PUT of an existing id; a PUT of a missing id answers 200 with an empty body. An amount text that `parseFloat` cannot read behaves the same way.
- The edit dialog closes as soon as the update request succeeds. `fetchData` catches its own errors, so a failed refetch after a good update still reaches the lines that close the dialog (`client/src/App.tsx:112-128`, `client/src/App.tsx:152-156`).

## Model

| member | source | states |
|---|---|---|
| Types.NotAfterTotal | server/server.js:31 | the date order used by `ORDER BY date` is total and antisymmetric |
| Types.NotAfterTransitive | server/server.js:31 | the date order is transitive |
| Store.EmptyValid | server/server.js:19-26 | the newly created table (no rows, AUTOINCREMENT counter at 1) satisfies the table invariant: ids below the counter, positive and unique |
| Store.CheckType | server/server.js:23 | the CHECK constraint admits exactly "income" and "expense", and an admitted text is the stored text of the direction it gives |
| Store.Insert | server/server.js:43-47 | fails with Full once the counter passes the largest row id, then with NotNullViolated when the amount is NULL, then with CheckViolated exactly when the type text is not admitted; a success appends one row carrying the counter's id, the given fields and the insert time, advances the counter, keeps the invariant and never reuses an id |
| Store.Find | server/server.js:48 | `SELECT … WHERE id = ?` finds a row exactly when one has that id, and the row found has that id |
| Store.FindAppendFresh | server/server.js:48-50 | reading back the id of a freshly appended row returns that row |
| Store.ReplaceFields | server/server.js:65 | the row with the id gets the new description, amount, type and category and keeps its id and date; every other row is unchanged |
| Store.Update | server/server.js:64-68 | a missing id changes nothing and succeeds, whatever the amount and type; on an existing id a NULL amount fails NOT NULL, then the CHECK decides, and a success replaces that row's fields and leaves the counter alone |
| Store.ReplaceFieldsKeepsValid | server/server.js:65 | an UPDATE keeps the table invariant |
| Store.CountId | server/server.js:81 | the number of rows a DELETE removes is 0 exactly when no row has the id |
| Store.Remove | server/server.js:79 | DELETE … WHERE id removes exactly the rows with that id and keeps all others with their multiplicity |
| Store.CountIdUnique | server/server.js:79-81 | with unique ids, `this.changes` of a DELETE is at most 1, and is 1 exactly when the id exists |
| Store.RemoveAbsent | server/server.js:79 | deleting a missing id leaves the rows as they are |
| Store.RemoveKeepsUnique | server/server.js:79 | deleting keeps the ids unique |
| Store.RemoveKeepsValid | server/server.js:79 | deleting keeps the table invariant and the counter, so a deleted id is not handed out again |
| Store.InsertByDate | server/server.js:31 | the insertion step of the date sort is a permutation of its input plus the new row |
| Store.InsertByDateSorted | server/server.js:31 | inserting into a newest-first list keeps it newest-first |
| Store.SortByDateDesc | server/server.js:31 | `ORDER BY date DESC` returns a permutation of the rows, newest first |
| Store.Aggregate | server/server.js:88-100 | the summary's totals are the sums (`TotalOf`) of the income and of the expense amounts, the balance is their difference, and an empty table gives zeros, because SUM's NULL becomes 0 |
| Store.TotalOfAppend | server/server.js:89-90 | `TotalOf`, the SUM of one type's amounts, over the rows plus one is the old total plus that row's share |
| Store.TotalOfInsertByDate | server/server.js:89-90 | the sort's insertion step does not change either total |
| Store.TotalOfSorted | server/server.js:89-90 | the totals do not depend on row order |
| Store.TotalOfRemove | server/server.js:89-90 | deleting an existing id lowers each total by exactly that row's share |
| Server.HandleList | server/server.js:30-35 | GET /api/transactions answers 200 with every row once, newest first |
| Server.HandleCreate | server/server.js:38-54 | `HasRequiredFields` false (a falsy description, type or category, or an absent amount) gives 400 "Missing required fields" and no change; a full counter gives 500; a null amount passes the guard and gives 500 from NOT NULL with no change; a bad type gives 500 and no change; otherwise 201 with a row that has the next id, the given fields and the insert time, which the table now holds |
| Server.HandleUpdate | server/server.js:57-75 | `HasRequiredFields` false gives 400; a missing id gives 200 with no body and no change, even with a null amount; on an existing id a null amount gives 500 from NOT NULL and a bad type 500 from the CHECK, both with no change; a non-null amount and admitted type give 200 with that row's fields replaced and nothing else changed, and the body is the row now stored under that id |
| Server.HandleDelete | server/server.js:78-83 | answers 200 with `deleted` equal to 1 when the id existed and 0 when not; that row alone is gone and the invariant holds |
| Server.HandleSummary | server/server.js:86-103 | GET /api/summary answers 200 with the income and expense totals and their difference, and zeros on an empty table |
| Server.Handle | server/server.js:29-103 | any one request keeps the invariant, and advances the counter by one exactly when it answers 201, with the counter's old value as the new row's id |
| Server.Serve | server/server.js:29-103 | handling a run of requests gives one response per request |
| Server.ServeIssuesFreshIds | server/server.js:20 | over any run from a valid table, the ids that creates hand out strictly increase and are all at least the starting counter: no id is handed out twice, not even after a delete |
| Server.CreateThenList | server/server.js:38-54 | after a successful create, the list holds the created row exactly once |
| Server.CreateThenSummary | server/server.js:86-103 | after a successful create, the summary's total for the row's type grows by its amount and the other total stays |
| Server.DeleteThenSummary | server/server.js:78-103 | after deleting an existing row, each total drops by exactly that row's share |
| Server.ListedRowsGiveSameSummary | server/server.js:31 | aggregating the rows in the order the list sends them gives the summary the server sends |
| Server.SummaryExample | server/server.js:88-100 | an income of 100 and an expense of 40 give totals 100 and 40 and a balance of 60 |
| Server.ListOrderExample | server/server.js:31 | a later row is listed before an earlier one |
| Server.SortTwoExample | server/server.js:31 | sorting an older and a newer row puts the newer first |
| Server.ValidationExamples | server/server.js:40-68 | `HasRequiredFields` accepts an amount of 0 and a null amount; an empty description or an absent amount gives 400; a null amount gives 500 from NOT NULL on create and 200 with no body on an update of a missing id; a type outside the CHECK gives 500 and leaves the table empty |
| ExpenseChart.Abs | client/src/components/ExpenseChart.tsx:17 | `Math.abs` gives the magnitude: not negative, and the value or its negation |
| ExpenseChart.Expenses | client/src/components/ExpenseChart.tsx:13 | keeps exactly the expense rows: each expense row as many times as the input holds it, no income row |
| ExpenseChart.ExpenseSumNonNegative | client/src/components/ExpenseChart.tsx:17 | a category's summed magnitudes are never negative |
| ExpenseChart.AddToFacts | client/src/components/ExpenseChart.tsx:14-17 | one `acc[category] += v` adds the category to the names, keeps names distinct, and adds `v` to that category only |
| ExpenseChart.CategoryTotalsFacts | client/src/components/ExpenseChart.tsx:12-20 | the reduce (`CategoryTotals`) yields one entry per expense category, none twice, each holding the sum of that category's expense magnitudes |
| ExpenseChart.OnlyExpensesCount | client/src/components/ExpenseChart.tsx:13 | income rows do not affect the grouped totals |
| ExpenseChart.InsertByAmount | client/src/components/ExpenseChart.tsx:29 | the sort's insertion step is a permutation of its input plus the new bar |
| ExpenseChart.InsertByAmountSorted | client/src/components/ExpenseChart.tsx:29 | inserting into a largest-first list keeps it largest-first |
| ExpenseChart.InsertByAmountDistinct | client/src/components/ExpenseChart.tsx:29 | inserting a new name keeps the names distinct |
| ExpenseChart.SortByAmount | client/src/components/ExpenseChart.tsx:29 | the sort returns a permutation of the bars, largest amount first, with the same names |
| ExpenseChart.ChartData | client/src/components/ExpenseChart.tsx:12-29 | the chart has one bar per category that has an expense, no category twice; each bar is that category's summed expense magnitude, never negative; bars are largest first |
| ExpenseChart.AmountOfPermutation | client/src/components/ExpenseChart.tsx:23-29 | reordering distinct-named bars keeps each category's amount |
| ExpenseChart.Render | client/src/components/ExpenseChart.tsx:39-41 | the chart is not drawn exactly when no category has an expense; otherwise it draws the chart data |
| ExpenseChart.RenderNothingIffNoExpense | client/src/components/ExpenseChart.tsx:39-41 | the chart is not drawn exactly when the rows contain no expense |
| ExpenseChart.ChartExample | client/src/components/ExpenseChart.tsx:12-29 | expenses of 20 and 5 on groceries and 10 on dining, with an income on groceries, give groceries 25 then dining 10 |
| ExpenseChart.Upper | client/src/components/ExpenseChart.tsx:35 | upper-casing never turns a letter into a dash |
| ExpenseChart.Split | client/src/components/ExpenseChart.tsx:34 | splitting on '-' gives at least one piece |
| ExpenseChart.CapitalizeAll | client/src/components/ExpenseChart.tsx:35 | capitalizing each piece keeps the number of pieces |
| ExpenseChart.SplitFacts | client/src/components/ExpenseChart.tsx:34 | splitting gives one more piece than there are dashes, no piece holds a dash, and joining with '-' gives the text back |
| ExpenseChart.Scan | client/src/components/ExpenseChart.tsx:32-37 | the one-pass reading of the label is character by character the label rule: a dash becomes a space, a letter after the start or a dash is upper-cased, and any other character is kept |
| ExpenseChart.ScanIsJoin | client/src/components/ExpenseChart.tsx:32-37 | the one-pass reading equals split, capitalize and join |
| ExpenseChart.FormatCategoryPointwise | client/src/components/ExpenseChart.tsx:32-37 | `formatCategory` (`FormatCategory`) keeps the length, puts a space for every dash and leaves no dash, and upper-cases the first character and every character after a dash |
| ExpenseChart.FormatTwoWords | client/src/components/ExpenseChart.tsx:32-37 | two dash-free words joined by a dash are labelled as the two words, each with its first character upper-cased, joined by a space |
| ExpenseChart.FormatCategoryExample | client/src/components/ExpenseChart.tsx:32-37 | "eating-out" is labelled "Eating Out" |
| ExpenseChart.AddOwnLift | client/src/components/ExpenseChart.tsx:14-17 | for a name that is not an inherited method, the step on a plain object is the step of the corrected reduce |
| ExpenseChart.EntriesAsWrittenLift | client/src/components/ExpenseChart.tsx:12-20 | when no expense category is an inherited method or `__proto__`, the reduce as written gives the corrected totals |
| ExpenseChart.AsWrittenAgreesOnOrdinaryNames | client/src/components/ExpenseChart.tsx:12-26 | for such categories the chart as written (`ChartDataAsWritten`) equals the corrected chart |
| ExpenseChart.InheritedNameBreaksChart | client/src/components/ExpenseChart.tsx:14-25 | one expense in category "toString" makes the chart as written (`ChartDataAsWritten`) throw, while the corrected chart draws one bar of 5 |
| ExpenseChart.ProtoNameVanishes | client/src/components/ExpenseChart.tsx:14-23 | one expense in category "__proto__" gives the chart as written no bars at all, while the corrected chart is drawn |
| TransactionList.InitialIsOffered | client/src/components/TransactionList.tsx:15-16 | the list starts on page 0 with 5 rows, a size the control offers, and every offered size is positive |
| TransactionList.ChangePage | client/src/components/TransactionList.tsx:18-20 | a page change moves to the chosen page and keeps the page size |
| TransactionList.ChangeRowsPerPage | client/src/components/TransactionList.tsx:22-25 | a new page size goes back to page 0 |
| TransactionList.ResizeShowsFirstRows | client/src/components/TransactionList.tsx:22-25 | after a page-size change the table shows the first `size` rows of the list |
| TransactionList.Slice | client/src/components/TransactionList.tsx:60 | `slice` with both bounds clamped to the length: empty when the start is at or past the end, otherwise the elements from the start up to the clamped end |
| TransactionList.PageRows | client/src/components/TransactionList.tsx:59-60 | a page holds at most `size` rows: the rows at positions page·size onward in list order, and none when that position is past the end |
| TransactionList.PageCountBounds | client/src/components/TransactionList.tsx:103-104 | ⌈n / size⌉ pages cover all n rows, and the last counted page starts before the end |
| TransactionList.PagesStep | client/src/components/TransactionList.tsx:59-60 | the next page continues the prefix the earlier pages make, up to the end of the list |
| TransactionList.PagesArePrefix | client/src/components/TransactionList.tsx:59-60 | the first k pages together are the first k·size rows |
| TransactionList.AllPagesGiveTheList | client/src/components/TransactionList.tsx:59-60 | the counted pages together give the whole list, each row once and in order |
| TransactionList.PageNonEmptyIff | client/src/components/TransactionList.tsx:59-60 | a page has rows exactly when its number is below the page count |
| TransactionList.PagesDisjoint | client/src/components/TransactionList.tsx:60 | no position of the list is shown on two different pages |
| TransactionList.Sign | client/src/components/TransactionList.tsx:74 | an amount is prefixed '+' exactly for income and '-' otherwise |
| TransactionList.RowOf | client/src/components/TransactionList.tsx:62-94 | a row shows its transaction's sign and amount, its edit button hands up the transaction, and its delete button hands up the id |
| TransactionList.RowsOf | client/src/components/TransactionList.tsx:59-96 | one rendered row per transaction of the page, in order |
| TransactionList.Render | client/src/components/TransactionList.tsx:27-44 | a spinner exactly while loading with no rows; the empty message exactly when not loading with no rows; otherwise the table with the full count and exactly the current page's rows, each formatted, even while loading |
| TransactionList.ClickForwardsRow | client/src/components/TransactionList.tsx:77-93 | the buttons of the k-th row shown hand up the transaction at position page·size + k, and its id |
| TransactionList.PastTheEndShowsEmptyTable | client/src/components/TransactionList.tsx:44-60 | a page past the end of a non-empty list shows the table with no rows |
| TransactionForm.CategoriesFacts | client/src/components/TransactionForm.tsx:5-18 | there are 12 category options with distinct values, and the default "other" is one of them |
| TransactionForm.OrElse | client/src/components/TransactionForm.tsx:30-33 | JavaScript's or-fallback on a string gives one of its two arguments, and gives the empty string only when both are empty |
| TransactionForm.Initial | client/src/components/TransactionForm.tsx:29-34 | without initial values the form is blank ('', '', expense, 'other'); with them it takes the description, amount and type, and takes the category unless it is empty, when 'other' is used |
| TransactionForm.InitialCategoryNonEmpty | client/src/components/TransactionForm.tsx:33 | the form never starts with an empty category |
| TransactionForm.HandleChange | client/src/components/TransactionForm.tsx:36-42 | a change event sets the named field to the new value and leaves the other three fields as they were |
| TransactionForm.ChangesCommuteOrOverwrite | client/src/components/TransactionForm.tsx:36-42 | changes to different fields give the same form in either order, and of two changes to the same field the later one wins |
| TransactionForm.TrimStart | client/src/components/TransactionForm.tsx:46 | strips a prefix made only of white space, leaving a suffix that does not start with white space |
| TransactionForm.TrimEnd | client/src/components/TransactionForm.tsx:46 | strips a suffix made only of white space, leaving a prefix that does not end with white space |
| TransactionForm.TrimIsInfix | client/src/components/TransactionForm.tsx:46 | `trim` gives a contiguous piece of the text; only white space lies around it, and it neither starts nor ends with white space |
| TransactionForm.TrimEmptyIff | client/src/components/TransactionForm.tsx:46 | `trim` (`Trim`) gives the empty string exactly when the text has no character other than white space |
| TransactionForm.CanSubmitIff | client/src/components/TransactionForm.tsx:46 | the guard (`CanSubmit`) holds exactly when the description has a character other than white space and the amount text is not empty |
| TransactionForm.HandleSubmit | client/src/components/TransactionForm.tsx:44-55 | a submit is accepted exactly when the description has a non-white-space character and an amount is typed; an accepted submit hands the current data over once and resets the form to blank; a rejected submit hands nothing over and keeps the form |
| TransactionForm.BlankIsRejected | client/src/components/TransactionForm.tsx:48-53 | the blank form, and so the form right after any submit that was accepted, is rejected |
| TransactionForm.SubmitDisabled | client/src/components/TransactionForm.tsx:127 | the submit button is disabled exactly when the description is all white space, the amount is empty, or a save is in progress |
| TransactionForm.ButtonAgreesWithGuard | client/src/components/TransactionForm.tsx:127 | an enabled button always leads to an accepted submit of the current data; a disabled button, when no save is in progress, means the guard rejects |
| App.FetchData | client/src/App.tsx:112-128 | loading is false afterwards in every case; the transactions and summary are replaced only when both requests answered, and are kept otherwise; the dialog state is untouched |
| App.FetchKeepsLastGoodData | client/src/App.tsx:112-128 | after a failed fetch the page shows what the last successful fetch gave; a successful fetch replaces it whatever came before |
| App.RefetchShowsSpinnerOnlyWhenEmpty | client/src/App.tsx:114 | while a fetch runs, the list shows the spinner exactly when it had no rows |
| App.AddTransaction | client/src/App.tsx:134-141 | sends the add request with the form's data; a success is followed by exactly one fetchData, so a failed refetch keeps the old list and summary; a failed add changes nothing |
| App.DeleteTransaction | client/src/App.tsx:170-177 | sends the delete request for the id; a success is followed by exactly one fetchData, so a failed refetch keeps the old list and summary; a failed delete changes nothing |
| App.MainFormSubmit | client/src/App.tsx:214 | an accepted submit of the entry form sends exactly the data typed and clears the form |
| App.EditClick | client/src/App.tsx:143-146 | the clicked transaction is stored and the dialog is open; the data and the loading flag are unchanged |
| App.EditCancel | client/src/App.tsx:165-168 | the dialog is closed and nothing is stored; the data is unchanged |
| App.CancelUndoesClick | client/src/App.tsx:143-168 | clicking edit and then cancelling gives back the state before the click |
| App.EditSave | client/src/App.tsx:148-163 | with nothing stored, it sends nothing and changes nothing; otherwise it sends the update for the stored row's id with the dialog's data, and editSaving is false afterwards; a successful update closes the dialog, clears the stored row and refetches, and a failed refetch keeps the old list and summary; a failed update keeps the dialog open on the same row |
| App.SavingDisablesSubmit | client/src/App.tsx:238 | while the update is in flight, the dialog's submit button is disabled |
| App.EditFormStartsFromRow | client/src/App.tsx:229-234 | the dialog's form starts with the stored row's description, type and category, and the amount's text; only an empty category falls back to 'other' |
| App.FailedSaveShowsBlankForm | client/src/App.tsx:150-161 | a refused update leaves the dialog open on the same row, but the form has already reset itself to blank |
| App.RowButtonsActOnThatRow | client/src/App.tsx:219-224 | the edit button of the k-th row shown opens the dialog on the row at position page·size + k, and that row's delete button asks to delete its id |
| App.SignedTotalIsBalance | client/src/components/TransactionList.tsx:74 | the amounts the list prints, with their signs, add up to income minus expenses |
| App.FetchedListMatchesBalance | client/src/App.tsx:115-120 | after a fetch that answered from one table, the signed amounts in the list add up to the balance the summary card shows |
| App.CurrentMonth | client/src/App.tsx:180-189 | keeps a row exactly when its year and month are those of now, as many times as it occurs, and nothing else |
| App.CurrentMonthAppend | client/src/App.tsx:180-189 | filtering a concatenation is concatenating the filtered parts, so the kept rows stay in list order |
| App.CurrentMonthKeepsMonth | client/src/App.tsx:180-189 | a list that lies wholly within the month is kept whole |
| App.CurrentMonthIdempotent | client/src/App.tsx:180-189 | filtering twice is filtering once |

## Left out

- Floating point: amounts are exact reals. `parseFloat` of the amount text is not modelled: a body's amount is the number it yields, or NULL where it yields NaN. The rounding in `parseFloat(value.toFixed(2))` and the two-decimal display are not modelled.
- `App.EditFormStartsFromRow`: what `String(amount)` writes is a parameter. Number-to-text conversion is not modelled.
- Dates: the server's `datetime('now')` is a parameter. Time zones are not modelled, and neither is how `new Date(text)` parses the stored text in the browser, so `App.CurrentMonth` compares the stored year and month directly.
- Object key order: new categories are kept in insertion order. `Object.entries` lists keys that look like array indices ("12") first, in numeric order; this is not modelled. The descending sort makes the difference visible only among equal amounts.
- `ExpenseChart.Upper`: upper-cases ASCII letters only. `toUpperCase` also maps other scripts and can lengthen a string (for example "ß" becomes "SS").
- Request bodies: each field is absent, null, or text (a number for the amount) as the handlers use it. Other JSON types (booleans, arrays, objects) are not modelled. Ids in the URL are taken as integers; the text-to-integer conversion SQLite does is not modelled.
- Database engine failures other than the NOT NULL and CHECK constraints and a full AUTOINCREMENT counter (disk errors, locked database) are not modelled, and neither is the text of the error messages. `Server.Body.StoreFailure` stands for any of them.
- The second registration of the list, create, delete and summary routes (`server/server.js:141-213`) is not modelled. Express dispatches to the first matching route, so those handlers are never reached.
- Startup, shutdown and logging: opening the database file, the SIGINT handlers, `console` output, `app.listen` and the Swagger setup are I/O and are left out.
- The HTTP client wrapper `client/src/services/api.ts` and the summary card component are not part of this model.
- Concurrency: requests, fetches and React state updates are taken one at a time in order. Interleaved asynchronous updates are not modelled.
- Rendering: markup, styles, theme, date formatting for display and the chart's drawing are left out; only what decides the content is modelled.

## Findings

| source | as written | input that shows it | evidently intended | confidence | as-written member | corrected member |
|---|---|---|---|---|---|---|
| client/src/components/ExpenseChart.tsx:12-20 | the reduce accumulates into a plain `{}` object, so `acc[category]` also finds members inherited from `Object.prototype` | one expense with category "toString": the inherited method is truthy, so `+=` turns the value into text and `value.toFixed(2)` throws; a category "__proto__" is silently dropped | every expense category gets a bar with its summed magnitude, whatever its name | not executed | ExpenseChart.InheritedNameBreaksChart | ExpenseChart.ChartData |
