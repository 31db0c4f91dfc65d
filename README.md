# Cash-book transaction list, modelled in Dafny

This project models the one piece of real logic in the cash-book web application: the
list of cash-in / cash-out transactions, the operations that change it, and the totals
computed from it. The logic lives in three places, and each has its own module:

- `TransactionService` (`transaction_service.dfy`) models the per-user store of
  `src/services/transaction-service.ts`. `localStorage` is a map from key to entry, and
  the key is `"transactions-" + phone`. A read sorts the saved list newest first, and
  returns `[]` when nothing is stored or the text cannot be read as a list. Add and
  delete each read the list, change it and write the whole list back. Update reads the
  list and writes it back changed only when a record has the id; otherwise it writes
  nothing.
- `Dashboard` (`dashboard.dfy`) models the dashboard page `src/app/page.tsx`. It holds
  its own copy of the list and the running balance. The add-or-update and delete
  handlers and the dialog state (`dialogOpen`, `dialogMode`, `editingTransaction`) are
  fields and methods of the class `DashboardPage`. The first-five "recent" view is a
  function.
- `Reports` (`reports.dfy`) models the monthly report `src/app/reports/page.tsx`: the
  month filter, the `summary` reduce as a loop, and the in-place sort of the table.

Two more modules hold what these share:
- `Types` (`types.dfy`) holds the record of `src/lib/types.ts`.
- `Ledger` (`ledger.dfy`) holds `filter`, `findIndex` by id, the stable newest-first
  sort and the per-kind totals.

`Consistency` (`consistency.dfy`) compares the service's update with the dashboard's
update in each case: a first match, a later match of the same id, no match, and a
unique match whose supplied date equals the stored one.

Modelling choices:
- A `Date` is seen through two observations: `millis` (`getTime()`), which orders
  records, and `localMonth` (`getMonth()` in the host's time zone, 0..11). The month is
  kept abstract.
- The record's `type` field is called `kind`, because `type` is a Dafny keyword.
- Amounts are `int`.
- The fresh id and the current time are parameters of the add operations.
- `findIndex`'s `-1` is `None`.
- The service's read always sorts, and every service mutation starts with that read.
  So what is written back is the sorted list with the change applied.
- JavaScript's `sort` is stable, so the sort is modelled as a stable insertion sort,
  `Ledger.SortNewestFirst`. The report's in-place array sort is proved to compute
  exactly that function.

Where the code does something a reader might not expect:
- The service's update does not keep the stored `date`. Spreading the supplied full
  record over the stored one (`{ ...stored, ...updated }`) leaves the supplied record,
  date included. Only the dashboard keeps the stored date.
- The dashboard reads and writes the fixed key `"transactions"`, and the report reads
  it; neither uses the per-user key of the service. So the pages and the service do not share data. The
  model does not connect them.
- The report counts every record whose type is not `"in"` as cash out. With the
  two-valued `Kind` of the model, that is exactly the `Out` records.

## Model

| member | source | states |
|---|---|---|
| `TransactionService.StorageKey` | src/services/transaction-service.ts:7 | the key is the prefix `transactions-` followed by the phone number |
| `TransactionService.StorageKeysSeparateUsers` | src/services/transaction-service.ts:7 | two phone numbers give the same key exactly when they are equal |
| `TransactionService.Listed` | src/services/transaction-service.ts:10-25 | what a read returns: newest first and a reordering of the saved records; `[]` when the key is missing or its text is unreadable |
| `TransactionService.OtherUsersUnaffected` | src/services/transaction-service.ts:28-39 | writing one user's key leaves what every other user reads unchanged |
| `TransactionService.ReplaceFirstMatch` | src/services/transaction-service.ts:55-64 | no result exactly when no record has the id; otherwise a list of the same length |
| `TransactionService.ReplaceFirstMatchAt` | src/services/transaction-service.ts:57-61 | at the first index with the id, the supplied record (date included) replaces the stored one; every other index, later ones with the same id included, is unchanged |
| `TransactionService.PrependNewest` | src/services/transaction-service.ts:49 | a record at least as new as every record of a newest-first list can go in front and the list stays newest first |
| `TransactionService.AddedRecordListedFirst` | src/services/transaction-service.ts:42-52 | when the new record is the newest, reading after an add gives the new record followed by the old list unchanged |
| `TransactionService.AddThenFind` | src/services/transaction-service.ts:42-52 | with an unused id, reading after an add gives one more record, the old records plus the new one, and looking the id up finds exactly the record the add returned |
| `TransactionService.FindUnusedId` | src/services/transaction-service.ts:42-52 | when the added record's id is used by no other record, the lookup of that id finds exactly that record |
| `TransactionService.DeletedIdNotListed` | src/services/transaction-service.ts:67-71 | reading after a delete shows exactly the previously listed records whose id differs |
| `TransactionService.DeleteTwiceWritesOnce` | src/services/transaction-service.ts:67-71 | a second delete of the same id writes exactly what the first one wrote |
| `TransactionService.TransactionStore.GetTransactions` | src/services/transaction-service.ts:10-25 | returns the user's list newest first, as `Listed` describes |
| `TransactionService.TransactionStore.SaveTransactions` | src/services/transaction-service.ts:28-39 | the list replaces whatever was stored under the user's key, and nothing else changes |
| `TransactionService.TransactionStore.AddTransaction` | src/services/transaction-service.ts:42-52 | returns the caller's type, amount and description with the fresh id and date; stores that record in front of the list as read; other users' lists are unchanged |
| `TransactionService.TransactionStore.UpdateTransaction` | src/services/transaction-service.ts:55-64 | with no record of that id: returns `None` and writes nothing; otherwise stores the list with the first match replaced and returns the supplied record |
| `TransactionService.TransactionStore.DeleteTransaction` | src/services/transaction-service.ts:67-71 | stores the list as read without any record that has the id |
| `Ledger.FindIndex` | src/services/transaction-service.ts:57 | the index found holds the id and no earlier index does; `None` exactly when no record has the id |
| `Ledger.Filter` | src/app/reports/page.tsx:57-59 | an element is in the result exactly when it is in the input and passes the test; never longer than the input |
| `Ledger.FilterIsSubsequence` | src/app/reports/page.tsx:57-59 | the filter's result is a subsequence of its input: the survivors keep their order |
| `Ledger.FilterConcat` | src/app/reports/page.tsx:57-59 | filtering a concatenation is concatenating the filtered parts |
| `Ledger.FilterKeepsAll` | src/app/page.tsx:85 | a list whose elements all pass the test is left as it is |
| `Ledger.FilterTwice` | src/app/page.tsx:85 | filtering twice with the same test is filtering once |
| `Ledger.WithoutId` | src/services/transaction-service.ts:69 | a record survives exactly when it was in the list and has a different id; the survivors keep their order |
| `Ledger.DeleteTwice` | src/services/transaction-service.ts:69 | deleting the same id twice gives the result of deleting it once |
| `Ledger.InsertByDate` | src/services/transaction-service.ts:18 | one insertion step of the stable sort makes the list one record longer; `InsertByDateContents` and `InsertByDateKeepsOrder` give its contents and order |
| `Ledger.InsertByDateContents` | src/services/transaction-service.ts:18 | one insertion step of the sort adds exactly the inserted record |
| `Ledger.InsertByDateKeepsOrder` | src/services/transaction-service.ts:18 | inserting into a newest-first list keeps it newest first |
| `Ledger.SortNewestFirst` | src/app/reports/page.tsx:148 | the stable newest-first sort keeps the length of its input; `SortNewestFirstSpec` gives its contents and order |
| `Ledger.SortNewestFirstSpec` | src/services/transaction-service.ts:18 | the sorted list is newest first and holds the same records as the input, with the same multiplicities |
| `Ledger.SortSorted` | src/services/transaction-service.ts:18 | sorting a list that is already newest first leaves it unchanged |
| `Ledger.FilterKeepsNewestFirst` | src/services/transaction-service.ts:69 | filtering a newest-first list keeps it newest first |
| `Ledger.TotalSigns` | src/app/reports/page.tsx:62-75 | the per-kind sum `Total` of the `summary` reduce is 0 when no record has the kind and never negative when no amount is negative; `TotalConcat`, `TotalWithout` and `TotalIgnoresOrder` give the rest |
| `Ledger.TotalConcat` | src/app/reports/page.tsx:63-74 | the total of a kind over a concatenation is the sum of the parts' totals |
| `Ledger.RemoveSameRecord` | src/app/reports/page.tsx:63-74 | taking one copy of the same record out of two reorderings leaves two reorderings |
| `Ledger.TotalWithout` | src/app/reports/page.tsx:63-74 | a total is the total of the list without one record plus that record's share |
| `Ledger.TotalIgnoresOrder` | src/app/reports/page.tsx:63-74 | the total of each kind is the same for any reordering of the list |
| `Dashboard.Balance` | src/app/page.tsx:61-65 | the running balance equals the total cash in minus the total cash out |
| `Dashboard.BalanceOfPrepended` | src/app/page.tsx:76-79 | putting a record in front of the list moves the balance by plus its amount for cash in and minus its amount for cash out |
| `Dashboard.BalanceIgnoresOrder` | src/app/page.tsx:61-65 | the balance is the same for any reordering of the list |
| `Dashboard.IsUpdate` | src/app/page.tsx:68 | the submit is an update exactly when a record is being edited and the submitted id is present and non-empty: no record being edited, a missing id or the empty id each make it an add |
| `Dashboard.EditMatching` | src/app/page.tsx:70-72 | same length; every record keeps its id and date; records with another id are unchanged; records with the id take the submitted type, amount and description |
| `Dashboard.EditTwice` | src/app/page.tsx:70-72 | submitting the same edit twice gives the result of submitting it once |
| `Dashboard.DeleteAfterEdit` | src/app/page.tsx:85 | deleting an id after editing it gives the same list as deleting it straight away |
| `Dashboard.Recent` | src/app/page.tsx:147 | the recent view is a prefix of the list, five records long, or the whole list when it has fewer than five |
| `Dashboard.DashboardPage.constructor` | src/app/page.tsx:30-50 | starts with the saved list, the dialog closed, mode `in` and nothing being edited |
| `Dashboard.DashboardPage.HandleAddOrUpdateTransaction` | src/app/page.tsx:67-82 | an update of every matching record when a record is being edited and the submitted id is non-empty; otherwise a new record in front of the list, moving the balance by its signed amount; `editingTransaction` is `None` afterwards and the dialog fields stay as they were |
| `Dashboard.DashboardPage.HandleDeleteTransaction` | src/app/page.tsx:84-87 | the list without every record of that id, the rest in order; dialog state unchanged |
| `Dashboard.DashboardPage.OpenDialog` | src/app/page.tsx:89-93 | sets the mode, the record being edited and `dialogOpen`; the list is unchanged |
| `Dashboard.DashboardPage.CloseDialog` | src/app/page.tsx:95-98 | `dialogOpen` is false and nothing is being edited; mode and list are unchanged |
| `Reports.InMonth` | src/app/reports/page.tsx:56-60 | a record is kept exactly when it is in the list and dated in the selected month; the result is a subsequence of the input |
| `Reports.InMonthConcat` | src/app/reports/page.tsx:56-60 | the month filter distributes over concatenation and keeps a single record exactly when it is in the month, which fixes the result completely |
| `Reports.Summarize` | src/app/reports/page.tsx:62-75 | `totalIn` is the cash-in total, `totalOut` the cash-out total, `netBalance` their difference (all 0 for no records); the loop keeps this for every prefix |
| `Reports.InsertAt` | src/app/reports/page.tsx:148 | moving one record forward past strictly older ones is one insertion step of the stable sort; the rest of the array is untouched |
| `Reports.InsertionPoint` | src/app/reports/page.tsx:148 | a list holding the sorted prefix with the new record placed behind the records at least as new and before the strictly older ones is the insertion step |
| `Reports.SortOneMore` | src/app/reports/page.tsx:148 | sorting one more record of the input inserts it into the sorted prefix |
| `Reports.InsertBehindNewer` | src/app/reports/page.tsx:148 | the inserted record lands after the records at least as new and before the strictly older ones |
| `Reports.SortInPlace` | src/app/reports/page.tsx:148 | the array ends up holding exactly the stable newest-first sort of its old contents |
| `Reports.MonthlyReport` | src/app/reports/page.tsx:56-148 | the totals are those of the month's records; the table rows are those records newest first; the totals of the sorted rows are the same |
| `Reports.SortedCopy` | src/app/reports/page.tsx:147-148 | the table rows are the stable newest-first sort of the month's records, computed by sorting an array copy in place |
| `Reports.SortedRows` | src/app/reports/page.tsx:147-148 | the sorted rows are newest first, hold the month's records with their multiplicities, and have the same cash-in and cash-out totals |
| `Reports.MarchExample` | src/app/reports/page.tsx:56-75 | for any March record of 1000 in, March record of 300 out and January record of 2000 in, in that order: the March report lists the first two and sums to 1000 in and 300 out |
| `Consistency.UpdatesAgreeOnUniqueRecord` | src/app/page.tsx:70-72 | when one record has the id and the supplied date equals the stored one, the service's update and the dashboard's update write the same list |
| `Consistency.FirstMatchDates` | src/services/transaction-service.ts:57-61 | at the first record with the id the service stores the supplied record, date included, while the dashboard takes the supplied type, amount and description and keeps the stored date |
| `Consistency.LaterMatchesDiffer` | src/app/page.tsx:70-72 | at a later record with the same id the service changes nothing and the dashboard rewrites it with the submitted fields |
| `Consistency.NoMatch` | src/services/transaction-service.ts:57-64 | when no record has the id the service's update gives `None` and the dashboard's update leaves the list unchanged |

## Left out

- Browser storage, JSON and events. `localStorage`, `JSON.parse`/`JSON.stringify` and the `storage` event are not modelled. Storage is a map from key to entry. Any text that does not parse to a list is one `Unreadable` entry, and it reads as `[]`.
- Write failures. A failed `setItem` (quota exceeded) is logged and swallowed in the source. The model always writes.
- Id and time generation. `new Date().toISOString() + Math.random()` and `new Date()` are non-deterministic, so the fresh id and the current time are parameters. The freshness the source hopes for is a precondition only where a lemma needs it (`AddThenFind`).
- Calendar and locale. How `getMonth()` maps a time to a local month, and how `toLocaleString` formats values, are not modelled. The month is a field of the date.
- Invalid dates. A stored date that does not parse gives `NaN` in `getTime()`, and the sort comparator then returns `NaN`. The model has no invalid dates.
- Floating-point amounts. JavaScript numbers are floats. Amounts here are unbounded integers, following the whole-unit intent.
- Asynchrony and tabs. The `async` wrappers are not modelled, and neither is the read-modify-write race between tabs.
- The dashboard's start-up read and the `useEffect` write of the fixed key `"transactions"`, and the report's read of it. The page classes start from a given list. Persistence across the pages is not modelled.
- Reports.SortedCopy: the source sorts the memoized `filteredTransactions` array itself, the same array the `summary` reduce read; the model sorts a copy and does not capture that aliasing. It is harmless: `SortedRows` shows the sorted rows have the same totals as the month's records.
- The report's `selectedMonth` state. It is a month index parameter of `Reports.MonthlyReport`, because the month select only offers "0" to "11".
- Authentication, language, layout and navigation (`auth-provider.tsx`, `language-provider.tsx`, header, switcher, layout, login page). These are UI or a single nullable field, with no list logic.
- Toasts and rendering. They are UI only.
