# Mood journal: entry log, averages and trend windows

This project models the core of a personal mood-journal web application. Each
day the user records an entry holding an identifier, a date label, five integer
wellness metrics (sleep, stress, symptoms, mood, engagement), medication names
and notes. Every entry goes into an ordered log kept in a single data file.
The file is the only state. Every request reads the whole log from it, and
every change writes the whole log back.

The model has three modules for the handlers' own work (`Views`,
`Aggregation`, `Store`) and two supporting ones (`Journal`, `JsArray`):

- `Journal` (journal.dfy): the entry, the submitted form, and the entry built
  from it. Absent medication names and notes become the empty string.
- `JsArray` (js_array.dfy): JavaScript's `Array.prototype.slice`. A negative
  index counts back from the end, and every index is clamped into range.
  `Last` is an independent definition of "the last k elements". The lemmas
  prove that `slice(-k)` agrees with it for every positive `k`.
- `Views` (views.dfy): the home page's last 7 entries, the chart endpoint's
  last 30, and the reports page's two trend windows. The recent window is
  `slice(-7)` and the comparison window is `slice(-14, -7)`.
- `Aggregation` (aggregation.dfy): per-metric sums, written as the left fold
  that `reduce` performs. Each average is kept exactly as the pair (sum, count).
  `ComputeAverages` mirrors the handler: it builds an all-zero averages record
  and overwrites each field when the log is non-empty. `Tenths` is a separately
  specified rounding to one decimal place.
- `Store` (store.dfy): the data file as a `Medium` (missing, unparseable, or
  holding a log) and the fail-soft read. It also holds the identifier filter
  used by delete, and the `EntryStore` class whose methods are the request
  handlers. `AddEntry` and `DeleteEntry` read the log, change it and overwrite
  the file with all of it. `Home`, `Chart` and `Reports` only read.

Two properties of the code shape what is proved about identifiers:

- Delete removes every entry carrying the identifier, not at most one. The
  "exactly one" property is proved under the unique-identifier assumption.
- Identifiers come from the wall clock, and the code does not check that they
  are unique or increasing. The model takes the identifier as a parameter.
  Uniqueness and increase appear only as lemma preconditions.

## Model

| member | source | states |
|---|---|---|
| Journal.OrEmpty | app.js:67-68 | JavaScript's logical or of a string with `''`: the result is empty exactly when the text is absent or empty, and is the text itself whenever it is present |
| Journal.NewEntry | app.js:57-69 | The new entry carries the given id, the date and the five metrics as submitted; absent `drugNames`/`notes` become `""`, present ones are kept |
| Store.ReadData | app.js:32-39 | Reading a missing or unparseable file yields the empty log; reading never fails; a file holding a log yields exactly that log |
| Store.EntryStore.Open | app.js:27-29 | At startup a missing file is created holding the empty log, an existing one is left alone; what a read returns is unaffected |
| Store.EntryStore.WriteData | app.js:42-44 | The whole log overwrites the file |
| Store.EntryStore.AddEntry | app.js:56-76 | The stored log becomes the old log with the new entry pushed on the end: one longer, the new entry last, every earlier entry unchanged and in order; the file holds exactly the new in-memory log |
| Store.RemoveId | app.js:120 | The filtered log is no longer than the log and contains no entry with the id |
| Store.RemoveIdMembers | app.js:120 | An entry is in the filtered log if and only if it is in the log and its id differs from the removed one |
| Store.RemoveIdConcat | app.js:120 | Filtering distributes over concatenation, so kept entries stay in their original relative order |
| Store.RemoveIdAbsent | app.js:120 | Removing an id no entry carries leaves the log unchanged |
| Store.RemoveIdIdempotent | app.js:120 | Removing the same id twice equals removing it once |
| Store.RemoveIdSplice | app.js:120 | Removing the id of the only entry carrying it cuts out exactly that entry and keeps the entries around it in order |
| Store.RemoveIdExactlyOne | app.js:120 | With unique ids, removing the id of the entry at position i yields the log without exactly that entry, one shorter |
| Store.RemoveIdKeepsIdsIncreasing | app.js:120 | Filtering preserves strictly increasing ids |
| Store.AppendKeepsIdsIncreasing | app.js:60 | An id larger than every stored id keeps ids strictly increasing and unique after the append |
| Store.RemoveIdUndoesAppend | app.js:120 | Deleting a freshly appended entry by its (fresh) id restores the log it was appended to |
| Store.RemoveIdExamples | app.js:120 | Ids [1,2,3] minus 2 gives the entries with ids [1,3]; minus 999 gives the log unchanged |
| Store.EntryStore.DeleteEntry | app.js:117-123 | The file holds the stored log filtered by the id; an absent id leaves the stored log unchanged; success is reported always |
| Store.EntryStore.Home | app.js:47-50 | Returns the home view of the stored log |
| Views.HomeView | app.js:49 | The home view has min(7, n) entries and is exactly the log's suffix of that length, in log order |
| Views.HomeViewAfterAppend | app.js:49 | After an append the home view ends with the new entry and drops its oldest entry once it already held seven |
| Store.EntryStore.Chart | app.js:112-115 | Returns the chart data of the stored log |
| Views.ChartData | app.js:113 | Chart data has min(30, n) entries and is exactly the log's suffix of that length, in log order |
| JsArray.Position | app.js:49 | A relative `slice` index lands inside the array: a negative one counts back from the end, a non-negative one in range is kept; an index below -n lands on 0 and one above n on n |
| JsArray.Slice | app.js:101 | `slice(start, end)` is never longer than the array, is the run between the two clamped positions when the start lies before the end, and is empty otherwise |
| JsArray.SliceFrom | app.js:100 | `slice(start)` is always a suffix of the array; its length is n - start for a start in range and min(-start, n) for a negative start, and it is empty for a start past the end |
| JsArray.SliceFromNegativeIsLast | app.js:49 | `slice(-k)` for positive k is the last min(k, n) elements |
| JsArray.SliceBetweenNegatives | app.js:101 | `slice(-hi, -lo)` for 0 < lo <= hi is the run of positions max(n-hi,0) up to max(n-lo,0) |
| Views.Recent | app.js:100 | The recent window has min(7, n) entries and is the log's suffix of that length |
| Views.Previous | app.js:101 | The comparison window has max(0, min(7, n-7)) entries |
| Views.TrendWindows | app.js:100-101 | The comparison window ends exactly where the recent window begins, so they never overlap; prefix ++ previous ++ recent is the log, so previous ++ recent is a suffix; n <= 7 gives an empty comparison window; n >= 14 gives two windows of seven |
| Views.TrendWindowExamples | app.js:100-101 | Ten entries: recent is the last seven, previous the first three; five entries: recent is all five, previous is empty |
| Views.ViewsNest | app.js:100 | The recent window equals the home view, and the home view is the tail of the chart data |
| Store.EntryStore.Reports | app.js:78-110 | The report holds the stored log, its length, the exact average of every metric over it, and the two trend windows of it |
| Aggregation.ComputeAverages | app.js:82-97 | Every field of the averages is zero for an empty log and sum/count of that metric over the log otherwise |
| Aggregation.MeanOf | app.js:91-96 | An average is a well-formed quotient; zero over no entries; its count is the number of entries otherwise |
| Aggregation.Sum | app.js:92-96 | The `reduce` sum of one metric: zero over no entries and the entry's own value over one; its additivity is `SumConcat` and its bounds are `SumBounds` |
| Aggregation.SumConcat | app.js:92 | The reduce sum over two runs is the sum of the two runs' sums |
| Aggregation.SumBounds | app.js:92-96 | When every value lies in [lo, hi], the sum lies in [lo*n, hi*n] |
| Aggregation.MeanBounds | app.js:92-96 | The average of values in [lo, hi] lies in [lo, hi]; the average of values all equal to v is exactly v |
| Aggregation.MeanAfterAppend | app.js:92 | Appending one entry adds its value to the sum and one to the count |
| Aggregation.Tenths | app.js:92 | The rounded tenths are the nearest whole number of tenths to sum/count, a tie going away from zero |
| Aggregation.SleepAverageExample | app.js:92 | Sleep values 4, 6, 8 average to exactly 6, shown as 6.0 |

## Left out

- The web framework: middleware, static files, template rendering, redirects,
  JSON responses and the listener (app.js:1-24, 75, 103-109, 114, 122, 125-128).
  The handlers return the data they would render.
- JSON serialisation and parsing, and the bytes of the data file. The file is
  the `Medium` value. An unparseable file is the `Unparseable` case, and a
  write failure is not modelled.
- `Date.now()` (app.js:60) is a clock read. The id is a parameter of `AddEntry`.
  Two entries created in the same millisecond would share an id, and delete
  would then remove both. The model allows that, and `RemoveIdExactlyOne`
  assumes unique ids.
- `parseInt` coercion and `NaN` (app.js:62-66, 118). Metrics and the delete id
  are integers already. A `NaN` delete id matches no entry, so it behaves like
  the absent-id case.
- An absent `date` field, which JavaScript would store as `undefined`. The date
  is a string here.
- Store.ReadData: does not model a data file holding well-formed JSON that is
  not a log of entries. The `catch` does not fire for it, and `readData`
  returns that value; `Medium` has no case for such a file. Depending on the
  value and the request, the source then either throws a TypeError or answers
  with a meaningless result (for example a string's own `slice`, or a `NaN`
  average) (app.js:49, 72, 82, 92, 100-101, 113, 120).
- Aggregation.ComputeAverages: does not model the floating-point division and
  the `toFixed(1)` string, nor that the `reduce` sum (app.js:92-96) is itself a
  floating-point addition, which agrees with the exact `Sum` only while every
  partial sum stays within 2^53 in magnitude. Averages are exact quotients.
  `Tenths` rounds the exact quotient, so it can differ from `toFixed(1)` when the quotient is a tie
  that is not exactly representable as a binary double (for example 3/20). A
  non-empty log reports strings and an empty log the number 0; the model uses
  one type for both.
- Concurrency: overlapping requests doing read-modify-write on the file can
  lose one another's changes. The model treats each handler as one atomic step.
