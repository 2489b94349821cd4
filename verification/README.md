# Expense aggregation of the farm-management data services

This project models, in Dafny, the client-side logic of the expense service
(`src/services/api/expenseService.js`) of a farm-management application.
The service fetches `expense` records (`farm_id`, `amount`, `category`,
`date`, ...) from a hosted record store and derives views from them:

- the amount spent per category (`getSummaryByCategory`, and
  `getCropExpenses`, which computes the same thing and ignores its crop);
- trend buckets per month (`"YYYY-MM"`) or per year (`"YYYY"`), each with a
  total and a per-category breakdown, sorted by key (`getTrendData`);
- the same buckets per farm (`getFarmComparison`).

It also models how `create`, `update` and `delete` turn the store's response
(a `success` flag, a `message` and an optional per-record `results` list)
into a returned record, a thrown error or a boolean.

Every operation is a pure function over values, except the bucket sort and
`getTrendData`, which are methods without side effects. The fetched records are a
parameter (`seq<Expense>`). Amounts are exact integers. A date is the value
`new Date(...)` produced: either the "Invalid Date" or a calendar year and
0-based month, as `getFullYear`/`getMonth` report them.

Modules, one per concern:

| file | module | contents |
|---|---|---|
| `wrappers.dfy` | `Wrappers` | `Option`, `Result` |
| `text.dfy` | `Text` | `String(n)`, `padStart`, code-point string order |
| `mapsums.dfy` | `MapSums` | the `(m[k] \|\| 0) + a` update, sum of a table's values |
| `expenses.dfy` | `Expenses` | the record, sums, groups of records sharing a key |
| `summary.dfy` | `CategorySummary` | `getSummaryByCategory`, `getCropExpenses` |
| `grouping.dfy` | `Grouping` | bucket accumulation, `getFarmComparison` |
| `periodkeys.dfy` | `PeriodKeys` | the trend period key |
| `trend.dfy` | `Trend` | sorting the buckets, `getTrendData` |
| `writeresults.dfy` | `WriteResults` | `create` / `update` / `delete` outcomes |
| `objectaccumulation.dfy` | `ObjectAccumulation` | the reduction on a real JavaScript `{}` (see Findings) |

The reference definitions the contracts are stated against are `Total` (the
sum of the amounts of a list of records), `Members(es, key, k)` (the records
of `es` whose key is `k`, in order), `KeySet(es, key)` (the keys that occur)
and `SumValues` (the sum of a table's values). A bucket is specified as
`Total` and `SummaryByCategory` of its members. For an invalid date the
code builds the key from `NaN` (`"NaN-NaN"` monthly, `"NaN"` yearly). It does not
reject such a date, and the model follows the code.

## Model

| member | source | states |
|---|---|---|
| `CategorySummary.SummaryByCategory` | src/services/api/expenseService.js:191-194 | The keys are exactly the categories that occur, with no zero-fill. Each maps to the sum of the amounts of the records in that category. |
| `CategorySummary.SummaryOfNothing` | src/services/api/expenseService.js:191-194 | No records give the empty object. |
| `CategorySummary.SummaryOrderIndependent` | src/services/api/expenseService.js:191-194 | Any two inputs that are permutations of each other give the same summary. |
| `CategorySummary.SummaryConservesTotal` | src/services/api/expenseService.js:191-194 | The category totals add up to the sum of all amounts. |
| `CategorySummary.CropExpenses` | src/services/api/expenseService.js:504-516 | Whatever the `cropId`, the keys are exactly the categories that occur among all records; no crop filter is applied. |
| `CategorySummary.CropStep` | src/services/api/expenseService.js:509-513 | Setting a missing or zero entry to 0 and then adding the amount is the same update as `(acc[c] \|\| 0) + amount`. |
| `CategorySummary.CropExpensesIsCategorySummary` | src/services/api/expenseService.js:504-516 | For every `cropId`, the reset-to-0-then-add loop gives the same table as the category summary of all records. |
| `MapSums.AddTo` | src/services/api/expenseService.js:192 | Updating one category creates it at 0 when absent and adds the amount. No other entry changes. |
| `MapSums.SumValuesAddTo` | src/services/api/expenseService.js:192 | Adding an amount to any entry raises the sum of all entries by exactly that amount. |
| `Expenses.TotalPermutation` | src/services/api/expenseService.js:191-194 | The sum of amounts does not depend on record order. |
| `Expenses.MembersCount` | src/services/api/expenseService.js:485-494 | A record is in the group of key `k` exactly when its key is `k`, as many times as it occurs in the input, so groups partition the input. |
| `Expenses.KeySetWitness` | src/services/api/expenseService.js:457-458 | Every bucket key comes from some record, so no bucket exists without a record. |
| `Grouping.GroupBy` | src/services/api/expenseService.js:447-464 | A bucket exists exactly for each key that occurs. Its `total` is the sum of the amounts of the records with that key. Its `categories` is their category summary. |
| `Grouping.BucketTotalIsCategorySum` | src/services/api/expenseService.js:457-463 | In every bucket, trend or farm, `total` equals the sum of the `categories` values. |
| `Grouping.GroupByOrderIndependent` | src/services/api/expenseService.js:447-464 | Permuting the records leaves the bucket table unchanged, for the period key and the farm key alike. |
| `Grouping.GroupTotalsConserve` | src/services/api/expenseService.js:457-461 | The bucket totals add up to the sum of all amounts. |
| `Grouping.FarmComparison` | src/services/api/expenseService.js:480-502 | A farm appears exactly when some record has its `farm_id`. Its total and categories are those of that farm's records alone. |
| `Grouping.FarmIsolation` | src/services/api/expenseService.js:485-494 | A record of one farm changes no other farm's entry and creates no other entry. |
| `Text.PadStart` | src/services/api/expenseService.js:452 | `padStart(width, fill)` returns the string with enough fill characters prepended to reach the width, and returns it unchanged when it is already that wide. |
| `Text.IntToStringInjective` | src/services/api/expenseService.js:452-454 | Two years render to the same text only when they are equal, negative years included. |
| `Text.LexLessTransitive` | src/services/api/expenseService.js:467 | The key comparator is transitive. |
| `Text.LexLessTotal` | src/services/api/expenseService.js:467 | Of two different keys, one sorts before the other. |
| `Text.LexLessAsymmetric` | src/services/api/expenseService.js:467 | No two keys each sort before the other. |
| `Text.DigitsOrder` | src/services/api/expenseService.js:467 | On digit strings of equal width, lexicographic order is numeric order. |
| `PeriodKeys.PeriodKey` | src/services/api/expenseService.js:448-455 | A key starts with the year text. A non-monthly key is the year alone. A monthly key of a valid date adds `-` and two digits that denote the 1-based month. An invalid date gives `NaN-NaN` monthly and `NaN` otherwise. |
| `PeriodKeys.MonthlyKeyShape` | src/services/api/expenseService.js:451-452 | For a four-digit year the monthly key has 7 characters: the year, `-` at index 4, then the 1-based month in two digits. |
| `PeriodKeys.YearlyKeyShape` | src/services/api/expenseService.js:453-455 | Any period value other than `'monthly'` gives the four digits of the year alone. |
| `PeriodKeys.PeriodKeyInjective` | src/services/api/expenseService.js:447-458 | Two dates get the same key exactly when they fall in the same period (same year and month, same year, or both invalid), so they share a bucket exactly then. |
| `PeriodKeys.PeriodKeyOrder` | src/services/api/expenseService.js:466-467 | For four-digit years, one key sorts before another exactly when its period is chronologically earlier. |
| `Trend.SortBuckets` | src/services/api/expenseService.js:466-472 | The output lists every bucket exactly once with its total and categories, strictly ascending by key. Its totals sum to the table's totals. |
| `Trend.TrendData` | src/services/api/expenseService.js:441-478 | An absent `period` means monthly keys. Each point's key is the period key of some record, and keys strictly ascend, so none repeats. Each point's total and categories are those of its period's records. Every record's period is listed. The point totals add up to the sum of all amounts. |
| `Trend.TrendListsBuckets` | src/services/api/expenseService.js:441-472 | Any list described directly by the records (ascending keys that occur, each point with its period's total and categories, every record's period present) lists exactly the buckets the `forEach` builds. |
| `Trend.ListsBucketsUnique` | src/services/api/expenseService.js:466-472 | Only one list is strictly ascending and holds exactly the table's buckets. |
| `Trend.TrendOrderIndependent` | src/services/api/expenseService.js:441-472 | Permuting the fetched records cannot change the trend output. |
| `WriteResults.Successful` | src/services/api/expenseService.js:234 | The filter is non-empty exactly when some result succeeded. Its head is the first successful result. It keeps every successful result and nothing else. |
| `WriteResults.WriteOutcome` | src/services/api/expenseService.js:227-253 | An unsuccessful response fails with its own message. Otherwise the data of the first successful result is returned, and the call fails with the operation's message when `results` is absent or has no success. |
| `WriteResults.CreateOutcome` | src/services/api/expenseService.js:204-258 | `create` succeeds exactly when the response succeeded and `results` holds a successful entry, and then returns the data of the first one. Otherwise it throws the response message, or `Failed to create expense` when the response itself succeeded. |
| `WriteResults.UpdateOutcome` | src/services/api/expenseService.js:284-310 | `update` succeeds exactly when the response succeeded and `results` holds a successful entry, and then returns the data of the first one. Otherwise it throws the response message, or `Failed to update expense` when the response itself succeeded. |
| `WriteResults.DeleteOutcome` | src/services/api/expenseService.js:331-352 | `delete` is true exactly when the response succeeded and `results` is either absent or holds a successful entry. |
| `WriteResults.EmptyResultsVersusNone` | src/services/api/expenseService.js:337-352 | An empty `results` list makes `delete` false, but an absent one makes it true. `create` fails on both. |
| `WriteResults.LeadingFailuresIgnored` | src/services/api/expenseService.js:233-250 | Failed entries before the first success do not change what `create`/`update` return. |
| `ObjectAccumulation.SummaryAsWritten` | src/services/api/expenseService.js:191-194 | The reduction on `{}` ends with an own property for every category that occurs except `__proto__`, and for nothing else. |
| `ObjectAccumulation.AsWrittenAgreesOnOrdinaryCategories` | src/services/api/expenseService.js:191-194 | When no category is an inherited object member, the reduction on `{}` yields the category summary, as numbers. |
| `ObjectAccumulation.ConstructorCategoryBecomesText` | src/services/api/expenseService.js:191-194 | A single expense of 5 in category `constructor` yields a string on `{}`, where the intended summary is 5. |
| `ObjectAccumulation.ProtoCategoryVanishes` | src/services/api/expenseService.js:191-194 | A single expense in category `__proto__` is missing from the result on `{}`, where the intended summary lists it. |

## Left out

- Fetching: `getAll`, `getByFarmId` and `getExpensesByTimeRange` only call the record store's SDK and return `[]` on any failure. `getById` instead throws `Expense not found`. None of them is modelled. The fetched list is a parameter of every aggregation. So is the choice, when a truthy `farmId` is given, between all records and one farm's records, because the `where` filter runs on the server.
- The `try`/`catch` fallbacks of the aggregations (`{}` or `[]`). A fetch error never reaches them, because `getAll` and `getByFarmId` catch their own errors. What they can catch is a failure of the reduction itself, such as a `null` record or a non-array `response.data` reaching `.reduce`/`.forEach`. A typed `seq<Expense>` cannot hold such inputs, so in the model the fallback never fires.
- `toast` and `console` side effects, including the per-record error messages that `create`, `update` and `delete` show for failed entries. These do not affect the returned value.
- Parsing of the `date` string by `new Date(...)`: the model starts from the parsed value, which is either invalid or a calendar year and month.
- Floating-point amounts (`parseFloat`, `+=`): amounts are exact integers. So order independence holds exactly here, while the source's float sums can differ in the last bits.
- `farm_id` is an integer key. JavaScript turns it into a string property name, and distinct integers give distinct names, so the grouping is the same.
- Key order of the returned objects: JavaScript lists category keys in insertion order and non-negative integer `farm_id` keys in ascending numeric order, and callers can observe that order. A Dafny `map` has no order, so the model promises none. The trend output is a sequence, and its order is modelled.
- `localeCompare` is modelled as code-point lexicographic order. The two agree on the keys these functions build: digits, `-` and `NaN`.
- `getTrendData`'s `period` is either absent, which means monthly, or a string. A `null` or non-string argument, which is not equal to `'monthly'` and so selects yearly keys, is not modelled separately.
- PeriodKeys.MonthlyKeyShape: the 7-character shape and the chronological order (`PeriodKeys.PeriodKeyOrder`) are proved for years 1000 to 9999 only. Other years render with other widths. Key injectivity is proved for every integer year.
- The crop, task and weather services: they are the same SDK wrapper pattern. `toggleComplete` is a remote read-modify-write.

## Findings

| source | as written | input that shows it | evidently intended | confidence | as-written member | corrected member |
|---|---|---|---|---|---|---|
| src/services/api/expenseService.js:191-194 | The accumulator is an object literal `{}`, which inherits members of `Object.prototype`. `acc[c] \|\| 0` therefore reads an inherited function for `c = "constructor"` (or `toString`, `valueOf`, ...), and `+ amount` concatenates text. For `c = "__proto__"` the read gives `Object.prototype`, so the value written is the string `"[object Object]<amount>"`, and the `__proto__` setter ignores it. The same pattern is used at lines 462-463, 492-493 and 510-513. | one expense `{category: "constructor", amount: 5}`; or one with category `"__proto__"` | `{constructor: 5}` and `{__proto__: amount}`, that is, a table with no inherited entries | medium, not executed; reachable only when categories are free text | `ObjectAccumulation.ConstructorCategoryBecomesText`, `ObjectAccumulation.ProtoCategoryVanishes` | `CategorySummary.SummaryByCategory` |
