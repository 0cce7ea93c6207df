# Expense tracker ledger — a verified model

`expense_tracker.py` is a small desktop expense tracker. It keeps its transactions in a CSV file, `expenses.csv`. The file has a header line naming the columns Date, Category, Amount, Type and Description, followed by one line per transaction. Five handlers read and write that file:

- **add**: checks the entered row and appends it. When the file does not exist yet, it is created with its header first.
- **view**: parses a start and an end date. It lists the transactions whose date lies in that closed window, sorted by the date text, and computes their balance (credits minus debits).
- **spending by category**: sums the debit amounts per category, in the order the categories are first met.
- **daily spending**: sums the debit amounts per date inside a window, with the dates in ascending order.
- **delete**: removes every line equal to the selected transaction and rewrites the file.

The model keeps the ledger logic and drops the widgets and the charts. The file is the class `Ledger.LedgerFile`, with two fields:

- `present`: whether the file exists;
- `rows`: its lines, each a five-column `Rows.Row` of text.

Each handler is a method of the class:

- `Add` and `Delete` update the fields.
- `ViewRange`, `CategorySpending` and `DailySpending` only read them. Each returns the value its message box or chart would show: a `Result` holding the listing or chart data, or a `Failure` tag naming the error message.

Each reading method is proved equal to a specification function: `View.ViewSpec`, `Spending.CategorySpec` and `Spending.DailySpec`. Its loop is a module-level method proved against a recursive function of the rows it has read:

- `Ledger.ScanWindow`
- `Ledger.SumByCategory`
- `Ledger.SumByDay`

The properties the program promises are lemmas about those specification functions.

The modules follow the pieces of the program:

- `Text`: digits, zero padding, Python's string order and ASCII lower-casing.
- `Dates`: `datetime.strptime(s, "%Y-%m-%d")` on canonical text, and the order of dates.
- `Amounts`: `float(...)` on decimal text, computed in exact rationals.
- `Sorting`: Python's stable `sort`/`sorted` by a string key, modelled as insertion sort.
- `Grouping`: a `defaultdict(float)` filled by `+=`, kept as a sequence of entries in insertion order.
- `Rows`: the row, the header, the add handler's checks, and what the dictionary reader yields.
- `Removal`: deletion by value.
- `View`, `Spending`: the read handlers as functions, with their properties.
- `Ledger`: the file class, its handlers, and the scanning loops.

Two orders meet in the view:

- The window test compares parsed dates (`Dates.NotAfter`).
- The sort compares the raw date text (`Text.Less`).

`Dates.LessMatchesBefore` proves that the two orders agree on every text the model parses. Because of this, the listing is in calendar order (`View.ViewChronological`), and so are the dates of the daily chart. These hold because `Dates.Parse` accepts only zero-padded `YYYY-MM-DD` text. `strptime` also accepts non-padded dates such as `2024-9-30`, and the add handler stores them as typed. On such a table the program lists `2024-10-01` before `2024-9-30` and keeps `2024-1-5` and `2024-01-05` as two days of the daily chart. The model does not cover that case (see "## Left out").

## Model

| member | source | states |
|---|---|---|
| Ledger.LedgerFile.constructor | expense_tracker.py:8 | The file starts with the given existence flag and lines. |
| Ledger.LedgerFile.Empty | expense_tracker.py:28-33 | Before anything is added there is no file, and that state is consistent. |
| Ledger.LedgerFile.Add | expense_tracker.py:11-43 | Returns the first failing check. A rejected row leaves the file untouched. An accepted row makes the file exist, with the row appended after the old lines, or after a fresh header when the file was absent. A consistent file stays consistent. |
| Rows.Validate | expense_tracker.py:18-25 | Accepts exactly the rows with all five fields non-empty, a date that parses and type `Credit` or `Debit`. Reports a missing field first, then an invalid date, then an invalid type, each exactly in its case. |
| Rows.AppendedConsistent | expense_tracker.py:28-38 | Appending an accepted row, with the header written first on a new file, keeps the table consistent. It adds exactly that record at the end and keeps the old lines as a prefix. |
| Rows.Records | expense_tracker.py:59 | The dictionary reader skips the first line, which names the columns. Every later line is a record, in file order. |
| Rows.IsCredit | expense_tracker.py:64 | The type is compared after lower-casing, so the accepted spelling `Credit` counts as a credit. |
| Rows.IsDebit | expense_tracker.py:66 | The accepted spelling `Debit` counts as a debit. No type is both, so the order of the two tests does not matter. |
| Rows.InWindow | expense_tracker.py:62 | A date lies in the closed window only when the start is not after the end. |
| Rows.HeaderNotAdmissible | expense_tracker.py:31 | The header line never passes the add checks, so it never counts as a record. |
| Rows.AdmissibleCounts | expense_tracker.py:24-25 | An accepted row has a canonical date. Its type counts as a credit exactly when it is `Credit`, and as a debit exactly when it is `Debit`. |
| Rows.AmountNotChecked | expense_tracker.py:18-38 | A row whose amount is not a number (`ten`) is still accepted. |
| Rows.TypeCaseSensitive | expense_tracker.py:24-25 | Type `debit` is rejected by add, yet readers treat it as a debit. |
| Dates.Parse | expense_tracker.py:23 | Every date accepted is a valid calendar date: year 1 to 9999, month 1 to 12, day within the month under the Gregorian leap rule. |
| Dates.ParseFormat | expense_tracker.py:23 | Every valid date reads back from its `YYYY-MM-DD` text. |
| Dates.FormatParse | expense_tracker.py:23 | Every text that parses is canonical and is the formatting of its date. |
| Dates.FormatLess | expense_tracker.py:71 | On formatted dates, string order is date order. |
| Dates.LessMatchesBefore | expense_tracker.py:61-71 | For texts that parse, the string comparison of the sort agrees with the date comparison of the window. |
| Dates.LeapDay2024 | expense_tracker.py:23 | `2024-02-29` is accepted. |
| Dates.NoLeapDay2023 | expense_tracker.py:23 | `2023-02-29` is rejected. |
| Dates.NoMonth13 | expense_tracker.py:23 | `2024-13-40` is rejected. |
| Amounts.ParseAmount | expense_tracker.py:63 | `float()` on the amount. A text that reads is non-empty and starts with a sign, a point or a digit. Its values are given by `Amounts.ParseCentsText` and `Amounts.NegatedAmount`. |
| Amounts.NegatedAmount | expense_tracker.py:63 | A leading minus negates the value of the rest. |
| Amounts.UnsignedAmount | expense_tracker.py:63 | A text starting with a digit reads as its unsigned value. |
| Amounts.ReadTwoDecimals | expense_tracker.py:63 | `q.rr` reads as q + rr/100. |
| Amounts.ParseCentsText | expense_tracker.py:63 | Every amount written with two decimals, negative ones included, reads back as exactly its number of cents divided by 100. |
| Ledger.LedgerFile.ViewRange | expense_tracker.py:46-82 | Returns `View.ViewSpec` of the file. |
| View.ViewSpec | expense_tracker.py:50-82 | The order of the errors. An unparsable bound gives the date-format error. Otherwise a missing file gives "no transactions". Otherwise an unreadable record gives the date-format error. Otherwise the result is the sorted window and its balance. |
| Ledger.ScanWindow | expense_tracker.py:54-68 | The loop stops with `ok` false exactly when some record's date, or the amount of a record inside the window, does not parse. Otherwise it returns the kept records in table order and credits minus debits. |
| View.ScanStep | expense_tracker.py:60-68 | One more record adds itself to the kept rows when it lies in the window. It adds its amount to the credits or the debits according to its lower-cased type, and extends the readability condition by its own. |
| View.ReadablePrefix | expense_tracker.py:60-63 | A scan that reaches the end reads every prefix. |
| View.ReadableAll | expense_tracker.py:60-63 | The scan reaches the end exactly when every record can be read. |
| View.KeptAppend | expense_tracker.py:60-68 | The kept rows and both sums distribute over concatenation of tables. |
| View.KeptMembers | expense_tracker.py:62-68 | A row is kept exactly when it occurs in the table and lies in the window. |
| View.NothingKept | expense_tracker.py:62 | With no record in the window, nothing is kept and both sums are zero. |
| View.ViewListsWindow | expense_tracker.py:60-71 | A successful view lists exactly the records in the window, each with its multiplicity, sorted by date text. Rows with equal dates keep their table order, because the sort is stable. |
| View.SortedChronological | expense_tracker.py:71 | Rows sorted by date text whose dates parse are in calendar order. |
| View.ViewChronological | expense_tracker.py:71 | The listing is in calendar order. |
| View.EmptyWindow | expense_tracker.py:62 | An end date before the start date gives an empty listing with balance zero. |
| View.AppendReadable | expense_tracker.py:60-67 | Appending an accepted row inside the window with a readable amount keeps the table readable. It moves credits minus debits by plus the amount for `Credit` and by minus the amount for `Debit`. |
| View.AddThenView | expense_tracker.py:36-68 | After adding an accepted row inside the window with a readable amount, the view succeeds and lists the row. The balance moves up by the amount for a credit and down for a debit. |
| View.OnlyAmountsFail | expense_tracker.py:61-63 | On a consistent table with valid bounds, the view fails exactly when some record in the window has an amount that does not parse. |
| Sorting.SortBy | expense_tracker.py:71 | Python's stable sort by a string key, as insertion of each element in turn after every element whose key is not greater. Its properties are those of `Sorting.SortByCorrect`. |
| Sorting.SortByCorrect | expense_tracker.py:71 | The sort result is sorted by its key and is a permutation of its input. For every key it keeps the input order of the elements with that key, so the sort is stable. |
| Sorting.InsertSorted | expense_tracker.py:71 | Inserting into a sorted sequence keeps it sorted. |
| Sorting.InsertPermutes | expense_tracker.py:71 | Inserting adds exactly the one element. |
| Sorting.InsertRun | expense_tracker.py:71 | Inserting puts the element after every element with the same key. |
| Sorting.SortByDistinct | expense_tracker.py:136 | With distinct keys the result is strictly ascending. |
| Text.LessTotal | expense_tracker.py:71 | String order is total. |
| Text.LessTransitive | expense_tracker.py:71 | String order is transitive. |
| Text.LessAsymmetric | expense_tracker.py:71 | String order is asymmetric. |
| Text.Lower | expense_tracker.py:64-66 | Lower-casing keeps the length and maps each character. |
| Ledger.LedgerFile.CategorySpending | expense_tracker.py:84-116 | Returns `Spending.CategorySpec` of the file. |
| Spending.CategorySpec | expense_tracker.py:84-116 | A missing file gives "no transactions". An unreadable debit amount gives a generic error. An empty dictionary gives "no data". Otherwise the result is the dictionary's items. |
| Ledger.SumByCategory | expense_tracker.py:87-92 | The loop fails exactly when a debit amount does not parse. Otherwise its dictionary is the grouping of the debit amounts by category. |
| Grouping.Upsert | expense_tracker.py:92 | `totals[k] += v` on a dictionary whose missing keys read as 0.0. The entry for `k` holds the old total, or 0.0, plus `v`. A new key is appended at the end. Every other entry is unchanged. |
| Grouping.GroupSum | expense_tracker.py:87-92 | The dictionary after each `+=` in turn, starting empty. Its properties are those of `Grouping.GroupSumGroups`. |
| Grouping.GroupSumSnoc | expense_tracker.py:92 | One more `+=` is one more upsert into the dictionary. |
| Grouping.GroupSumGroups | expense_tracker.py:87-101 | The dictionary has one entry per key given, holding the sum of that key's amounts, with the keys in first-seen order. |
| Grouping.UpsertPresent | expense_tracker.py:92 | Adding to an existing key keeps the grouping property. |
| Grouping.UpsertAbsent | expense_tracker.py:92 | Adding a new key appends it and keeps the grouping property. |
| Grouping.GroupsShape | expense_tracker.py:95 | The dictionary is empty exactly when nothing was added. Its keys are distinct. |
| Grouping.Find | expense_tracker.py:92 | Finds the first entry with the key, or reports that there is none. |
| Spending.GroupedRows | expense_tracker.py:87-101 | For either chart, the dictionary groups the counted records. Its keys are distinct. Each total is that key's debit sum over the rows. It has a key exactly when some counted record has that key. It is empty exactly when no record counts. |
| Spending.CategoryChart | expense_tracker.py:87-101 | "No data" is returned exactly when there is no debit. Otherwise there is one bar per debit category, in first-seen order, holding that category's debit sum. |
| Spending.CategoryIgnoresCredits | expense_tracker.py:91 | Appending a row that is not a debit leaves the category chart unchanged. |
| Spending.TotalOfContribs | expense_tracker.py:92 | The sum over the contributions equals the sum over the rows. |
| Spending.ContribKeys | expense_tracker.py:91-92 | A key occurs among the contributions exactly when some counted record has it. |
| Spending.ContribsAppend | expense_tracker.py:90-92 | The contributions distribute over concatenation. |
| Spending.CategoryStep | expense_tracker.py:90-92 | One more record adds its category and amount when it is a debit. It extends the readability condition by its own. |
| Spending.CategoryPrefix | expense_tracker.py:90-92 | A category scan that reaches the end reads every prefix. |
| Ledger.LedgerFile.DailySpending | expense_tracker.py:118-153 | Returns `Spending.DailySpec` of the file. |
| Spending.DailySpec | expense_tracker.py:118-153 | An unparsable bound gives a generic error. Otherwise a missing file gives "no transactions". Otherwise an unreadable record gives a generic error. Otherwise an empty dictionary gives "no data", and any other result is the dictionary sorted by date text. |
| Ledger.SumByDay | expense_tracker.py:123-129 | The loop fails exactly when some date, or some debit amount in the window, does not parse. Otherwise its dictionary is the grouping of the window's debit amounts by date. |
| Spending.DailyStep | expense_tracker.py:126-129 | One more record adds its date and amount when it is a debit inside the window. It extends the readability condition by its own. |
| Spending.DailyPrefix | expense_tracker.py:126-129 | A daily scan that reaches the end reads every prefix. |
| Spending.GroupedDatesInWindow | expense_tracker.py:127-129 | Every date of the daily dictionary parses and lies in the window. |
| Spending.SortedDates | expense_tracker.py:136 | Sorting entries with distinct date keys gives dates that ascend strictly, both as text and as calendar dates. |
| Spending.SortedEntries | expense_tracker.py:136-137 | Sorting keeps exactly the entries and the keys. |
| Spending.SortedInWindow | expense_tracker.py:136-137 | Sorting keeps, for every entry, that its date lies in the window and that it holds that date's debit sum. |
| Spending.DailyBars | expense_tracker.py:123-137 | The sorted daily entries are a permutation of the dictionary and ascend strictly. Each lies in the window and holds that date's debit sum. There is one entry per date of a debit in the window. |
| Spending.DailyChart | expense_tracker.py:123-137 | "No data" is returned exactly when there is no debit in the window. Otherwise the bars are non-empty and are as in `Spending.DailyBars`. |
| Ledger.LedgerFile.Delete | expense_tracker.py:156-180 | No selection gives "no transaction selected" and changes nothing. A missing file gives a generic error and changes nothing. Otherwise every line equal to the selection is removed. A consistent file stays consistent unless the selection is the header itself. |
| Removal.RemoveAll | expense_tracker.py:170 | Removing never lengthens the table. |
| Removal.RemoveAllCount | expense_tracker.py:170 | Exactly the copies of the selection go. Every other line keeps its multiplicity. |
| Removal.RemoveAllMembers | expense_tracker.py:170 | A line survives exactly when it occurs and differs from the selection. |
| Removal.RemoveAllAppend | expense_tracker.py:170-174 | Removal distributes over concatenation, so the survivors keep their order. |
| Removal.RemoveAllAbsent | expense_tracker.py:170 | With no equal line, the table is unchanged. |
| Removal.RemoveAllIdempotent | expense_tracker.py:170 | Deleting the same row twice is the same as deleting it once. |
| Removal.RemoveAllConsistent | expense_tracker.py:167-174 | Deleting any row but the header keeps the table consistent. The records lose exactly the copies of that row. |

## Left out

- The Tkinter window, its entries, the tree view, the message boxes and `clear_form` (lines 183-251) are not modelled. Each handler returns the tag of the message it would show instead. The default dates of the window (line 246) are not modelled either.
- The plotting calls (lines 104-111 and 140-148) are left out. The model stops at the keys and totals handed to them.
- File I/O is a flag and a sequence of rows. CSV quoting and line splitting are not modelled: a row written is the row read back. A file whose lines do not have five fields is outside the model. The dictionary reader reads columns by position, not by header name, so a missing column, which gives `None` in the program, is not represented.
- `Amounts.ParseAmount` covers only the decimal forms `[+-]digits[.digits]` of `float()`, with ASCII digits. Exponents, `inf`/`nan`, surrounding whitespace, underscores and non-ASCII digits are treated as unreadable.
- Amounts are exact rationals. Binary floating-point rounding of the sums is not modelled.
- `Dates.Parse` accepts only canonical `YYYY-MM-DD` text. `strptime` also accepts non-padded months and days such as `2024-2-9`, which the model rejects. The add handler then reports a date error where the program would accept the row. Non-ASCII digits are not modelled. This exclusion is what makes `Dates.LessMatchesBefore`, `View.ViewChronological` and the `StrictlyChronological` conjuncts of `Spending.SortedDates`, `Spending.DailyBars` and `Spending.DailyChart` hold. On a table holding non-padded dates, the program's text sort (lines 71 and 136) can put `2024-10-01` before `2024-9-30`, and the daily chart keeps `2024-1-5` and `2024-01-05` apart as two keys (line 129).
- `Text.Lower` lower-cases ASCII letters only. Python's `str.lower` also maps other letters, which only matters for types outside ASCII.
- The view reports an amount that does not parse with the same "Invalid date format" tag as a bad date, because both raise the `ValueError` that the handler catches at lines 81-82.
- Exceptions other than the ones named, such as a `TypeError` from a missing column, are not modelled.
- `Ledger.LedgerFile.Delete` takes the selected row as an `Option<Row>` of text values. Tkinter may convert numeric-looking values of a tree item (line 163), which can make the comparison at line 170 miss a line; that conversion is not modelled. Multiple selections are not modelled either. The removal of the tree item (line 177) belongs to the interface and is left out.
- `Amounts.CentsText` is a formatting helper that exists only to state the amount round trip `Amounts.ParseCentsText`; the program itself never formats amounts.
