# Expense tracker core, modelled in Dafny

The expense tracker keeps expenses in one SQLite table, `expenses`. A
repository class runs fixed SQL statements against that table. A migration
script adds two columns introduced by a later schema revision,
`user_comments` and `tags`. A dashboard and an entry form turn query results
and typed-in text into what the widgets show and what the repository is asked
to store.

The model abstracts away the database engine and the widgets:

- **The table** is a sequence of rows in storage order, plus the
  AUTOINCREMENT counter (`Store.Store`).
- **Each SQL statement** is a pure function over that state, stated with
  SQLite's meaning. Sorting uses BINARY collation. A negative `LIMIT` means no
  limit. The order of tied keys is left open.
- **The schema** is `Absent | Present(columns)` (`Schema.Table`). The
  database file is missing, or holds a table and its rows (`Database.Database`).
- **The dashboard** helpers are functions over the lists the queries return.
- **The form** is a function from its seven text fields to either a rejection
  or the repository call it makes.

Modules, in dependency order:

- `Wrappers`: `Option` and `Result`.
- `Text`: Python's `str.strip`, `str.split` and `int()` for base 10 on ASCII
  digits. `int()` skips a smaller set of whitespace than `strip()`.
- `Calendar`: proleptic Gregorian dates as Python's `datetime` bounds them
  (years 1 to 9999), and day ordinals.
- `Collation`: SQLite's BINARY text order.
- `Sorting`: a generic insertion sort with its contract (a sorted permutation),
  and total preorders.
- `Sums`: sums over sequences, invariant under permutation.
- `Schema`: `CREATE TABLE IF NOT EXISTS`, `ALTER TABLE ... ADD COLUMN` and
  `PRAGMA table_info`.
- `Store`: insert, update and delete, and the AUTOINCREMENT rule that a
  deleted id never returns.
- `Queries`: the SELECT statements of the repository.
- `Database`: opening a repository on a file, and column/row consistency.
- `Migration`: `migrate_database` and `create_fresh_database`.
- `Dashboard`: the values computed for the charts, the recent list, the
  category and monthly analysis and the insights.
- `Forms`: filling the dialog from a record, and the save path with its
  checks.

Four facts about the code shape the model.

- **Insert and update arity.** `insert` and `update` take five data values,
  write the six base columns and return nothing. `Store.Insert` and
  `Store.Update` model them. `Store.InsertFull` and `Store.UpdateFull` model
  the eight-column calls that forms.py:118-120 makes.
- **Listing.** The listing statement selects six columns, so `Queries.GetAll`
  lists six.
- **Schema upgrade.** `_create_table` creates the six-column table only when
  none exists, and never changes an existing one. `Database.Open` models
  exactly that. Only the migration script adds columns. `ALTER TABLE ... ADD
  COLUMN` leaves stored values alone, so the helper `Migration.Migrated` keeps
  the rows as they were. `Migration.MigrationKeepsRowsConsistent` states what
  those rows then read in the new columns.
- **Dashboard reachability.** `refresh` (dashboard.py:193-216) sets the summary
  cards and the top-category label. It then calls `_update_insights`, which
  calls `self.repo.get_monthly_spending()` at dashboard.py:237. The repository
  class defines no such method, so `refresh` raises AttributeError there. The
  constructor calls `refresh` (dashboard.py:29), so opening the dashboard
  fails. The spending insights are built but never shown, and the recent list,
  charts and analysis code is never reached. As written, only the summary
  figures and `Dashboard.TopCategoryLabel` reach the screen. The other
  `Dashboard` members model what the unreached display code computes from
  the lists it would receive.

## Model

| member | source | states |
|---|---|---|
| Schema.CreateTable | repository.py:18-33 | An existing table is returned unchanged. A missing one is created with exactly the six base columns, in order, which lack `user_comments`/`tags`. |
| Schema.CreateTableIdempotent | repository.py:18-33 | Running the create statement twice is the same as running it once, for both table definitions. |
| Schema.AddColumn | migrate_db.py:49 | ALTER ADD COLUMN succeeds iff the table exists and has no column of that name, compared ignoring ASCII case as SQLite compares identifiers. It then appends that column at the end, and the new column set is the old set plus that column. |
| Schema.CaseVariantRejected | migrate_db.py:49 | Adding `tags` to a table that has a `TAGS` column is rejected. |
| Schema.ReadColumns | migrate_db.py:11-24 | A name is reported iff the read succeeds and the table has that column. The list is the table's columns in order, or `[]` when the table is missing or the read raises. |
| Schema.ReadAfterAdd | migrate_db.py:11-24 | After a successful ADD COLUMN, the schema read shows the earlier names followed by the new one, which it did not show before. |
| Schema.FailedReadLooksAbsent | migrate_db.py:21-24 | A read that raises returns the same `[]` as a missing table, so callers cannot tell the two apart. |
| Database.Open | repository.py:11-33 | Opening a repository always leaves a present table. An existing table and all rows are kept. A new file gets an empty store and a table that is not current. |
| Database.OpenIdempotent | repository.py:18-33 | Opening twice equals opening once; columns and rows do not change. |
| Database.OpenKeepsConsistent | repository.py:18-33 | Opening keeps rows consistent with the columns the table has. |
| Database.InsertKeepsConsistent | repository.py:45-55 | The five-value insert leaves the new columns NULL, so any present table stays consistent. |
| Store.NextId | repository.py:24 | The AUTOINCREMENT id is above every id ever issued and absent from the table. |
| Store.Insert | repository.py:45-55 | Adds one row carrying exactly the five values, with a fresh id and NULL comments/tags. All earlier rows are unchanged and id uniqueness is kept. |
| Store.InsertFull | forms.py:120 | The seven-value insert the form needs: one new row with the given values and a fresh id, and nothing else changed. |
| Store.Update | repository.py:57-68 | The row with the id gets the five values and keeps its id, comments and tags. Every other row is unchanged. An absent id changes nothing. |
| Store.UpdateFull | forms.py:118 | The eight-value update the form needs, with the same frame guarantees. |
| Store.Delete | repository.py:70-74 | Removes exactly the rows with that id, keeps all others and the counter, and changes nothing for an absent id. |
| Store.Without | repository.py:73 | The kept rows are exactly those with another id. Their count drops by the id's multiplicity, nothing changes when the id is absent, and ids stay unique. |
| Store.WithoutIds | repository.py:70-74 | Deleting removes exactly that id from the id set. |
| Store.CountUnique | repository.py:24 | Under unique ids, a present id occurs exactly once. |
| Store.RunKeepsValid | repository.py:24 | Any sequence of inserts, updates and deletes keeps ids unique and issued, and never lowers the counter. |
| Store.DeletedIdNeverReturns | repository.py:24 | After a delete, no later sequence of calls brings the deleted id back. |
| Queries.ListingOrderIsTotalPreorder | repository.py:41 | `date DESC, id DESC` is a total preorder on listed rows. |
| Queries.GetAll | repository.py:36-43 | The listing is a permutation of the stored rows (six columns each), ordered by date then id, both descending. |
| Queries.GetAllStrict | repository.py:41 | With unique ids no two listed rows tie: each is strictly newer than the next. |
| Queries.GetAllIsUnique | repository.py:36-43 | Any ordered permutation of the stored rows equals the listing, so the order is fully determined. |
| Queries.SummaryStats | repository.py:77-82 | Count is the number of rows and total is the sum of amounts. Average times count is the total. An empty table gives (0.0, 0, 0.0). |
| Queries.StatsAfterInsert | repository.py:77-82 | An insert adds one to the count and its amount to the total. |
| Queries.StatsAfterUpdate | repository.py:77-82 | An update of a stored row moves the total by the amount difference and keeps the count. |
| Queries.StatsAfterDelete | repository.py:77-82 | Deleting a stored row removes its amount from the total and one from the count. |
| Queries.WithoutAppend | repository.py:73 | Deleting keeps the surviving rows in stored order: deleting from two stretches of rows is deleting from each, concatenated in the same order. |
| Queries.WithoutAt | repository.py:70-74 | Under unique ids, deleting row k's id removes exactly position k. |
| Queries.AddTo | repository.py:89-91 | Adding an amount to its category's group keeps one group per category. That group grows by the amount and the sum of all groups grows by the amount. |
| Queries.GroupFacts | repository.py:89-91 | Grouping gives one group per stored category, each with its category's sum, together summing to the total. |
| Queries.TotalsByCategory | repository.py:84-95 | One entry per distinct category holding its sum, totals non-increasing, and totals summing to the overall total. Ties are in no promised order. |
| Queries.TopRows | repository.py:97-109 | Exactly min(limit, n) rows are returned (all rows for a negative limit), drawn from the store and non-increasing in amount. No omitted row exceeds a returned one. |
| Queries.GetTopExpenses | repository.py:97-109 | Exactly min(limit, n) entries, non-increasing in amount. Each is the four-column projection of a kept row, and the kept rows form a sub-multiset of the stored rows. No stored row left out has a larger amount than a returned entry. |
| Migration.Missing | migrate_db.py:46-62 | Lists `user_comments` iff absent and `tags` iff absent, in that order, without repeats. |
| Migration.AlterAll | migrate_db.py:46-62 | Successful ALTERs append the columns in order. A rejection names a requested column. Columns that clash with no existing column and no other request, ignoring ASCII case, never fail on a present table. A missing table, or a request that clashes with an existing column ignoring case, always fails. |
| Migration.Migrate | migrate_db.py:27-86 | A missing file returns None. A missing table makes the first ALTER fail. Otherwise the final columns are old columns plus added ones. It commits iff something was added and returns True iff the final read shows both columns. With clean reads it finishes iff no column is a case variant of a missing name (such as `TAGS` for `tags`), and then adds exactly the missing ones. |
| Migration.NeverAddsPresentColumn | migrate_db.py:47-56 | A column the table already has is never added again. |
| Migration.MigratedColumnSet | migrate_db.py:47-60 | When no existing column is a case variant of a missing name, the column set after migration is the old set plus both new columns. |
| Migration.MigrateIdempotent | migrate_db.py:44-68 | When the first run finishes, a second run adds nothing, does not commit, keeps the columns and returns True. |
| Migration.MixedCaseTagsRejected | migrate_db.py:56-84 | A table with a `TAGS` column and no `tags` column makes the ALTER fail, so the migration returns False. |
| Migration.MigrationKeepsRowsConsistent | migrate_db.py:49-58 | Existing rows stay consistent with the migrated table, reading NULL in new columns. |
| Migration.MigrateOldStyle | create_old_db.py:20-40 | The old-style test file gains both columns in order, commits, returns True and keeps its row. |
| Migration.CreateFreshDatabase | migrate_db.py:89-111 | As written: the new file has the table `_create_table` makes, and it reports success iff the read-back schema has both new columns. |
| Migration.CreateFreshAlwaysFails | migrate_db.py:99-111 | As written it always returns False, and a later migration of that file succeeds. |
| Migration.CreateFreshDatabaseFull | migrate_db.py:89-111 | With the eight-column definition, the same success condition. |
| Migration.CreateFreshFullSucceeds | migrate_db.py:99-111 | With the eight-column definition it returns True, and a later migration finds nothing to do. |
| Dashboard.PieSlices | dashboard.py:267-276 | Up to five categories are shown as given. With more, the first five are kept and one "Other" slice holds the sum of the rest. |
| Dashboard.PieKeepsTotal | dashboard.py:269-276 | Pie slice values always sum to the sum of all category totals. |
| Dashboard.BarSlice | dashboard.py:282-284 | The bar chart shows the first min(10, n) categories, as a prefix of the input. |
| Dashboard.BarShowsLargest | dashboard.py:282-284 | No category left off the bar chart has a larger total than one shown. |
| Dashboard.Chronological | dashboard.py:293-298 | The monthly series is the exact reverse of the query order. |
| Dashboard.ChronologicalInvolution | dashboard.py:296 | Reversing twice gives back the query order. |
| Dashboard.ChronologicalAscending | dashboard.py:292-298 | Months in descending order come out in ascending order. |
| Dashboard.Truncate | dashboard.py:256 | A description of at most 30 characters is unchanged. A longer one becomes its first 30 characters plus "...". |
| Dashboard.TruncateStable | dashboard.py:256 | A shown description has at most 33 characters, and truncating again changes nothing. |
| Dashboard.CountFor | dashboard.py:327-330 | A category absent from the counts has count 0. |
| Dashboard.CountForLast | dashboard.py:327 | With duplicate keys, the dictionary keeps the last count. |
| Dashboard.Average | dashboard.py:331 | For a positive count, average times count is the total; otherwise it is 0. |
| Dashboard.CategoryAnalysis | dashboard.py:329-332 | One line per category with its total, count and zero-guarded average. |
| Dashboard.UncountedCategory | dashboard.py:330-331 | A category missing from the counts shows count 0 and average 0. |
| Dashboard.MonthKey | dashboard.py:345 | A key parses only when it splits on '-' into exactly two pieces. |
| Dashboard.MonthKeyMeaning | dashboard.py:345 | A key parses to (y, m) iff it is two dash-free pieces joined by one '-' that `int()` reads as y and m. |
| Dashboard.DaysOf | dashboard.py:346-351 | Days exist iff both firsts of month are valid dates, and then equal the month's length. |
| Dashboard.MonthDays | dashboard.py:345-351 | A key yields days iff it parses and both firsts of month are valid dates; the days are the Gregorian month length. |
| Dashboard.MonthDaysMeaning | dashboard.py:345-351 | A key yields days iff it parses to a month that `datetime` can build together with the first of the next month. The days are in 28..31, and 29 for February exactly in leap years. |
| Dashboard.NoDaysOutsideRange | dashboard.py:346-350 | A month with no day count has an out-of-range first or next first of month. |
| Dashboard.MonthKeyRoundTrip | dashboard.py:345 | A zero-padded `YYYY-MM` key parses back to its year and month. |
| Dashboard.MonthlyLine | dashboard.py:342-356 | Each line keeps the month and total. It has a daily average iff the key yields days, and "N/A" otherwise. The daily average times the month's day count is the month's total. |
| Dashboard.LineFor | dashboard.py:351-356 | A daily average, when present, times the days is the month's total. |
| Dashboard.MonthlyTrends | dashboard.py:338-360 | No months give the "no data" text. Otherwise there is one line for each of the first min(12, n) months, in order. |
| Dashboard.WellFormedMonthHasAverage | dashboard.py:344-354 | Every padded month key in range except 9999-12 gets a daily average of total over the month length. |
| Dashboard.LastMonthIsNotAvailable | dashboard.py:346-356 | "9999-12" shows N/A, since the first of the next month is past the last year. |
| Dashboard.MonthChange | dashboard.py:238-242 | A change exists iff there are two months and the previous total is positive. It is positive iff spending rose and zero iff it stayed equal. |
| Dashboard.Abs | dashboard.py:246 | The absolute value is non-negative and equals the value or its negation. |
| Dashboard.SpendingInsights | dashboard.py:223-234 | No spending messages appear iff the total is not positive. A positive total puts the total-spending message first. The high-average warning appears iff the total is positive and the average exceeds 100. The spread message appears iff the total is positive and there are categories, and it carries their number. With both, the first category is reported iff its share exceeds 40 percent, and any category message reports that share. The messages come in the fixed order total, high average, dominant category, category count, with no repeats and no other kinds. |
| Dashboard.TrendInsights | dashboard.py:236-246 | At most one trend message appears. |
| Dashboard.TrendMessage | dashboard.py:238-246 | A trend message appears iff the change is available; it says increased for a positive change and decreased (by the absolute change) otherwise. |
| Dashboard.Insights | dashboard.py:221-249 | There is always one message at least. The placeholder appears iff there is no positive total and no trend. Otherwise the messages are the spending messages followed by the trend message. |
| Dashboard.DominantIsLargest | dashboard.py:229-232 | Over any store's figures, the dominant-category message names the category with the largest total, with a share above 40 percent. |
| Dashboard.DominantShareAtMostAll | dashboard.py:229-232 | Assuming no stored amount is negative, the reported share is at most 100 percent. The code does not enforce that assumption. |
| Dashboard.NegativeAmountShare | dashboard.py:229-232 | A store holding 100 for Food and -50 for Refund reports Food as 200 percent of the total. |
| Dashboard.CategoryAtMostTotal | dashboard.py:230 | With non-negative amounts, a category's total lies between 0 and the overall total. |
| Dashboard.TopCategoryLabel | dashboard.py:201-204 | With categories, the label becomes the first category's name. Otherwise it is left unchanged. |
| Dashboard.TopCategoryIsLargest | dashboard.py:201-204 | The top-category label is the category with the largest total. |
| Calendar.Ordinal | dashboard.py:346-351 | Ordinals start at 1, and only 0001-01-01 has ordinal 1. |
| Calendar.MonthDistance | dashboard.py:346-351 | The ordinal distance between consecutive firsts of month is the month's length. |
| Calendar.MonthLengthRange | dashboard.py:345-351 | Month lengths are 28..31, and February has 29 days exactly in leap years. |
| Calendar.YearLength | dashboard.py:346-347 | A year spans 366 days if leap and 365 otherwise, and that equals the sum of its month lengths. |
| Collation.Less | repository.py:41 | A proper prefix sorts before the longer text, and never after it. |
| Collation.LessIrreflexive | repository.py:41 | No text sorts before itself. |
| Collation.LessTransitive | repository.py:41 | The text order is transitive. |
| Collation.LessTotal | repository.py:41 | Of two distinct texts, one sorts before the other. |
| Collation.LessAsymmetric | repository.py:41 | Two texts never sort before each other. |
| Text.Strip | forms.py:93-99 | A stripped field is no longer than the input, and neither starts nor ends with whitespace. |
| Text.StripIsTrimmedSlice | forms.py:93-99 | The stripped field is one contiguous slice of the input, with only whitespace before and after it. |
| Text.StripEmptyIffBlank | forms.py:93-101 | A stripped field is empty iff it was all whitespace. |
| Text.StripIdempotent | forms.py:93-99 | Stripping a stripped field changes nothing. |
| Text.Split | dashboard.py:345 | A split gives at least one piece, and no piece contains the separator. |
| Text.JoinSplit | dashboard.py:345 | Joining the pieces of a split with the separator gives back the text. |
| Text.SplitJoin | dashboard.py:345 | Splitting a join of separator-free pieces gives back the pieces. |
| Text.ParseInt | dashboard.py:345 | Text reads as an integer only if, with the whitespace `int()` skips removed from both ends, it is non-empty and ends in a digit. |
| Text.BlankNeverParses | dashboard.py:345 | Text that is empty or only whitespace never reads as an integer. |
| Text.StripDropsSeparator | dashboard.py:345 | `strip()` removes the separator U+001C in front of a digit. |
| Text.SeparatorBlocksInt | dashboard.py:345 | `int()` rejects that same text, because it does not skip U+001C. |
| Text.ParseDigitRun | dashboard.py:345 | A run of digits, with single underscores between digits, reads as its decimal value. |
| Text.ParsePadded | dashboard.py:345 | `int()` reads back a zero-padded number. |
| Forms.Populate | forms.py:71-90 | No record fills the blank form with today's date. A record is accepted iff it has 6 or 8 values. The fields show its values, with None shown as "" (the helper `Forms.OrEmpty`), and a 6-value record leaves comments and tags empty. |
| Forms.ListedRecordsFill | forms.py:74-80 | A record from the six-column listing always fills the form, with empty comments and tags. |
| Forms.ParseDate | forms.py:111-115 | Every date `strptime` accepts is a valid calendar date. |
| Forms.ParseDateRoundTrip | forms.py:111-115 | A zero-padded `YYYY-MM-DD` parses iff it names a valid date, and then gives back its year, month and day. |
| Forms.Check | forms.py:101-120 | On stripped inputs, the first failing check is reported, in order: missing required input, non-numeric amount, invalid date. An accepted save makes exactly one call: insert when adding, update with the original id when editing. The call carries the inputs and the parsed amount. |
| Forms.Save | forms.py:92-120 | Save runs the checks on the stripped inputs, and only stripped text reaches the repository. |
| Forms.BlankInputIsMissing | forms.py:93-103 | A whitespace-only date, category or amount is reported missing and makes no call. |
| Forms.UnchangedEditResaves | forms.py:71-120 | Saving an edit dialog unchanged updates the same id with the same values. |
| Forms.ApplyAsWritten | forms.py:117-120 | As written, a rejected save leaves the store alone. |
| Forms.AcceptedSaveRaisesTypeError | forms.py:117-120 | As written, every save that passes the checks raises TypeError: insert takes 5 values but gets 7, update takes 6 but gets 8. |
| Forms.CallRaisesTypeError | forms.py:117-120 | Each repository call the form makes is rejected for its arity. |
| Forms.Apply | forms.py:117-120 | With the eight-column calls, a rejected save changes nothing, ids stay valid, an insert appends one row and an update keeps rows and ids. |
| Forms.SavedValuesAreStored | forms.py:117-120 | With the eight-column calls, the stored row carries every saved value under the right id. |

## Left out

- Widgets, message boxes, matplotlib drawing and the text formatting of
  figures (`:.2f`, `:.1f`, column padding) are left out. Only the values
  handed to them are modelled.
- SQLite connections, commits, rollbacks, file existence and `os.remove` are
  left out. The file is `Database.NoFile` or `Database.File`, and a commit is
  a flag in the migration outcome.
- The table after a rejected `ALTER TABLE` is not modelled. Whether DDL is
  rolled back depends on the sqlite3 module's transaction handling, which is
  outside this code.
- `Migration.Migrate`: the printed progress messages are left out, as is the
  `input()` prompt of the script's `main`.
- `main.py` is not part of this model; it is menu and selection glue.
  `create_old_db.py` appears only as the test vector `Migration.OldStyle`.
- Amounts are `real`. Floating-point rounding of `SUM`, `AVG`, division and
  percentages is not modelled.
- `float()` is a parameter, `toFloat`. Which strings Python accepts as floats
  (including "nan" and "1e3") is not modelled.
- `str(amount)` is a parameter, `show`. `datetime.today()` is a parameter,
  `today`.
- `int()` and `strptime` accept ASCII digits only in this model. Python also
  accepts other Unicode decimal digits.
- `get_monthly_spending`, `get_recent_expenses` and `get_category_counts` do
  not exist in the repository class, so the dashboard would raise
  AttributeError. The helpers that use their results (`Dashboard.Chronological`,
  `Dashboard.Truncate`, `Dashboard.CategoryAnalysis`, `Dashboard.MonthlyTrends`,
  `Dashboard.MonthChange`) are modelled over input lists instead.
- Dashboard.DominantShareAtMostAll: the at-most-100-percent bound needs the
  extra hypothesis that no amount is negative. The form accepts any amount
  that `float()` reads, negative ones included. `Dashboard.NegativeAmountShare`
  shows a share of 200 percent.
- Migration.MigratedColumnSet: the exact column set after migration is
  promised only when no existing column is a case variant of a missing name.
  Otherwise the ALTER fails (`Migration.MixedCaseTagsRejected`), and the table
  after a rejected ALTER is not modelled.
- Migration.MigrateIdempotent: the second run is compared with a first run
  that finished. A first run that fails on a case variant is covered by
  `Migration.Migrate` instead.
- Row ids are unbounded. SQLite's 64-bit rowid limit (SQLITE_FULL at the
  largest rowid) is not modelled.
- `Forms.Populate`: a record always carries the id and five base columns,
  so tuples of fewer than six values are not represented. Python treats an
  empty tuple as no record and raises ValueError for one to five values.
  A seven-value tuple is modelled, as `UnpackError`.
- The combobox option lists and the payment-method choices are presentation
  only.

## Findings

| source | as written | input that shows it | evidently intended | confidence | as-written member | corrected member |
|---|---|---|---|---|---|---|
| migrate_db.py:99-111 | `create_fresh_database` opens a repository whose `_create_table` (repository.py:23-30) makes only the six base columns, then requires `user_comments` and `tags`. | Any run, e.g. with no existing file: the read-back schema is the six base columns. | The fresh table is created with all eight columns and the function returns True. | high, not executed | Migration.CreateFreshAlwaysFails | Migration.CreateFreshFullSucceeds |
| forms.py:117-120 | The form calls `update(id, 7 values)` and `insert(7 values)`, but repository.py:45 and repository.py:57 take five data values. | Any accepted save, e.g. date "2024-11-25", category "Food", amount "25.50" in add mode: TypeError, 7 positional values for 5. | Insert and update take comments and tags and store all eight columns. | high, not executed | Forms.AcceptedSaveRaisesTypeError | Forms.SavedValuesAreStored |
