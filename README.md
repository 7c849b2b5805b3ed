# InAsset core in Dafny

InAsset is a Streamlit app for a couple's household finances. Bank-export files
(Banksalad ZIP or Excel exports) are uploaded or picked up from a mail folder. They are
parsed and reconciled into a SQLite store. Dashboards show budgets, transactions and
asset snapshots. Registration and an admin approval step control who may sign in.

This project models the statable logic of that app:

- **Ingestion pipeline.**
  - Date arithmetic for reconciliation: two calendar months back with day clamping, the
    default 30-day start, and the choice of the processing window.
  - The per-file step and the batch orchestrator. The batch is sorted stably by snapshot
    date and processed in order. Each item's window is resolved against the store as the
    earlier items left it.
  - The range-replace save of transactions (`DbHandler.TransactionTable`).
  - The older 4-key duplicate-skipping ledger insert and its loader (`Database.LegacyLedger`).
  - ZIP member selection, amount coercion and error mapping, and the display formatter.
- **Accounts.**
  - The registration check chain and the new-account record.
  - The approval gate on the session.
  - The pending list, approve and reject over the user dictionary.
  - The role default and the menu dispatch.
- **Dashboards.**
  - Asset, debt, cash and net-worth metrics, overall and per owner tab.
  - The budget summary and deltas, and the reordering of the saved budget rows.
  - The fixed and variable transaction sums and the per-type chart.

How the model represents the app:

- Tables are sequences of records.
- Dates are (year, month, day) over the proleptic Gregorian calendar.
- The store the transactions go to is a class whose methods delete and append.
- State the source changes in place is a class with a `modifies` clause. This covers the
  session, the user dictionary, the ledger file and the caller's data frame.
- Pure page logic is functions with lemmas.
- Foreign work is a parameter, never given a body: parsing a workbook, the bcrypt hash,
  date parsing by pandas, and store operations whose code is not shown. The batch
  receives these as the fields of `Upload.Env`, over an abstract store `W`.

Modules are one per source file: `Upload`, `DbHandler`, `Database`, `FileHandler`,
`Login`, `App`, `Budget`, `Assets`, `Transactions`. The shared helpers are `Wrappers`,
`Accounts` (the user directory of the authentication config, shared by `Login` and `App`),
`Text` (Python string operations), `Sorting` (a stable `sorted`/filter library), `Sums`
(column sums), `Dates` (Python `datetime.date`) and `Frames` (data-frame cells and SQLite
values).

## Model

| member | source | states |
|---|---|---|
| Dates.TwoMonthsBefore | src/pages/upload.py:22-30 | Result is a valid date strictly before d. It is two calendar months earlier (January and February wrap to the previous year). Its day is d's day clamped to that month's length. None exactly when the year would fall before 1, where Python raises. |
| Dates.TwoMonthsBeforeExamples | src/pages/upload.py:22-30 | 2024-04-30→2024-02-29, 2024-08-31→2024-06-30, 2024-03-31→2024-01-31, 2023-04-30→2023-02-28, 2024-01-15→2023-11-15, 2024-02-29→2023-12-29. |
| Dates.DaysInMonth | src/pages/upload.py:29 | Month length is 28 to 31, and February has 29 days exactly in leap years. |
| Dates.MinusDays | src/pages/upload.py:50-52 | Subtracting n days gives the valid date whose ordinal is n less. None exactly when that would fall before 0001-01-01. |
| Dates.MinusDaysBefore | src/pages/upload.py:50-52 | The date n > 0 days back, where it exists, is strictly earlier. |
| Dates.OrdinalOrder | src/pages/upload.py:50-52 | The ordinal day number preserves and reflects calendar order, and is injective. |
| Dates.PrevDayOrdinal | src/pages/upload.py:50-52 | The previous day has ordinal one less. It is None only on day 1. |
| Dates.IsoDateRoundTrip | src/pages/upload.py:110-111 | Reading back the YYYY-MM-DD text of a valid date gives the date. |
| Dates.ParseIsoDateCanonical | src/pages/upload.py:110-111 | Every text the date parser accepts is the canonical text of the date it yields. |
| Dates.IsoDateOrder | src/utils/db_handler.py:67 | For valid dates, string order of the YYYY-MM-DD texts is calendar order, and equal texts mean equal dates. |
| Dates.DigitsRoundTrip | src/utils/db_handler.py:67 | Zero-padded digits of n read back as n. |
| Upload.ResolveDateRange | src/pages/upload.py:33-43 | The end is always the file end. The start is the file start when the owner has no rows in the file's span. Otherwise it is two months before the end. The result is None only when that raises. |
| Upload.ResolvedStartNotClamped | src/pages/upload.py:41-43 | Even for a one-day file whose span has rows, the start moves before the file start: it is not clamped. |
| Upload.BuildItem | src/pages/upload.py:46-59 | An extracted start is kept. Without one, the start is the snapshot minus 30 days. None where the snapshot text does not parse or the subtraction underflows. |
| Upload.BuildItemDefaultStart | src/pages/upload.py:48-52 | The default start, read back, is 30 ordinals before the snapshot and strictly before it. |
| Upload.ProcessSingle | src/pages/upload.py:62-87 | A truthy parse error gives (0, 0, error) and leaves the store unchanged. Otherwise the error is None, and a count is 0 when its frame is missing or empty. With both frames empty the store is unchanged. Without an error, a non-empty transaction frame goes to `save_transactions` with the owner and file name. A non-empty asset frame then goes to `save_asset_snapshot`, on the store the first save left, with the owner and the file's snapshot date. The counts and the final store are what those saves return. |
| Upload.Window | src/pages/upload.py:110-113 | None exactly when a date text of the item does not parse or the window cannot be resolved. Otherwise the end is the snapshot date. |
| Upload.Process | src/pages/upload.py:121-131 | The result row carries the item's file, owner and period. The row reports success (✅) exactly when `_process_single` returned no error. The text is `❌ error` on error, else the two counts. The store is the one `_process_single` left, and for a mail-folder file without error it is then marked processed. A file is marked processed exactly when the batch is the mail-folder batch and the item succeeded. |
| Upload.BatchPrefixes | src/pages/upload.py:107-131 | Row i of the batch is item i's outcome against the store as the first i items left it. |
| Upload.BatchLength | src/pages/upload.py:107-129 | A completed batch has exactly one result row per item, in order, with each item's file and owner. A failed item is a row, not a stop. |
| Upload.BatchAbortsOnlyOnDates | src/pages/upload.py:110-113 | The batch stops exactly when some item, reached after the earlier ones, has a date that raises. |
| Upload.AbortsAtUnique | src/pages/upload.py:107-113 | At most one item is where the batch raises, since every later prefix fails too. |
| Upload.PendingKeyOrder | src/pages/upload.py:190 | The pending files of one snapshot date keep their scanned order. |
| Upload.BatchMarksSuccesses | src/pages/upload.py:126-131 | The processed-file marks are exactly those of the succeeded rows, in order, and there are none outside the mail-folder batch. |
| Upload.ProcessingOrder | src/pages/upload.py:103 | The processing order is ascending by snapshot date and a permutation of the items. It is stable: items with equal dates keep their relative order. |
| Upload.RunBatch | src/pages/upload.py:101-137 | Completes exactly when the batch over the sorted items does. The results, store and events are that batch's. Category sync is appended once, last. There is one result per item. No sync happens when an item raises. The results, store and events are then those of the sorted items before the one that raises. |
| Upload.RunItems | src/pages/upload.py:107-131 | The loop over the items stops at an item that raises after the earlier ones completed. Its progress is then theirs: the saves and marks already made stay. It reports completion exactly when the batch completes, and then its progress is the batch's. It never emits a category sync. |
| Upload.Processable | src/pages/upload.py:170 | Exactly the items with an owner, with their multiplicities. No owner-less item reaches the batch. The items keep their input order. |
| Upload.Undetected | src/pages/upload.py:166 | Name i is the filename of the i-th owner-less item, so every owner-less item is named, as often as it occurs and in input order. Together with the processable items they account for every item. |
| Upload.PendingDocs | src/pages/upload.py:188-191 | The mail-folder files not yet recorded as processed, with their multiplicities, sorted by snapshot date. Files of the same snapshot date keep their scanned order. |
| FileHandler.FirstTable | src/utils/file_handler.py:13-18 | The first member in listing order whose name ends in .csv or .xlsx. None exactly when there is none. |
| FileHandler.TargetIsFirstTable | src/utils/file_handler.py:13-18 | The comprehension's first element is that member, and the comprehension is empty exactly when there is none. |
| FileHandler.SuffixIsCaseSensitive | src/utils/file_handler.py:13 | .csv and .xlsx match; .CSV, .XLSX and .xls do not. |
| FileHandler.CoerceAmount | src/utils/file_handler.py:27-28 | Every amount becomes a number. Numbers are kept, integer texts are converted, and anything else becomes 0. |
| FileHandler.CoerceAmounts | src/utils/file_handler.py:27-28 | Only the 금액 column changes, cell by cell by that coercion. A frame without it is returned unchanged. |
| FileHandler.ProcessUploadedZip | src/utils/file_handler.py:5-35 | Exactly one of frame or message is present. An open failure gives its message. No table member gives the fixed message. Otherwise the first table member is read as CSV or Excel by its suffix, with amounts coerced, or the read's error message is returned. |
| FileHandler.ExcMessage | src/utils/file_handler.py:32-35 | An error always yields a non-empty message, never the no-table message. The fixed password/format text appears exactly for a RuntimeError. Any other exception's text starts with the generic prefix. |
| FileHandler.ParseClockSound | src/utils/file_handler.py:49 | A text the time parser accepts matches the H:M:S.f format, with hour ≤ 23, minute and second ≤ 59 and 1 to 9 fraction digits (down to nanoseconds). The result is that hour and minute. |
| FileHandler.ParseClockComplete | src/utils/file_handler.py:49 | Every text that matches that format is accepted, with its hour and minute. |
| FileHandler.DisplayTime | src/utils/file_handler.py:48-50 | A time shows as '-' exactly when it is not a timestamp and does not match the format. |
| FileHandler.FormatForDisplay | src/utils/file_handler.py:37-52 | The result has the input's shape; the input, a value, is untouched. It is None exactly when a 날짜 column does not parse. Otherwise each 날짜 cell becomes YYYY-MM-DD text, or stays missing when it was missing. 시간 is rewritten as HH:MM or '-', and cells outside 날짜 and 시간 are unchanged. |
| DbHandler.ValidColumnsAreMappingValues | src/utils/db_handler.py:52-63 | The stored columns are the ten mapping values followed by owner, and they are the only table columns a save writes. |
| DbHandler.RowRecord | src/utils/db_handler.py:65-76 | A stored record has exactly owner plus the mapped columns present after renaming. Owner is the argument. Date and time are their converted values. Every other cell is copied. |
| DbHandler.TimeValue | src/utils/db_handler.py:68-69 | The stored time is HH:MM of a parsed time, and '00:00' for a missing or unparseable one. |
| DbHandler.DateValue | src/utils/db_handler.py:67 | The stored date is the YYYY-MM-DD text, and NULL for NaT. |
| DbHandler.FirstInvalidDate | src/utils/db_handler.py:67 | Finds the first date pandas rejects. None exactly when all parse. |
| DbHandler.DatesParseFirstInvalid | src/utils/db_handler.py:67 | The date column parses exactly when no invalid date is found. |
| DbHandler.Normalize | src/utils/db_handler.py:65-76 | Succeeds exactly when the renamed labels are distinct, the dates parse and a time column exists. On success there is one record per row, each the row's record carrying the owner. |
| DbHandler.DateBounds | src/utils/db_handler.py:79-80 | The least and greatest stored date of the batch, each taken by some row. None exactly when no row is dated. |
| DbHandler.DatedBatchRowsHit | src/utils/db_handler.py:79-89 | A stored batch row falls in the delete window exactly when it is dated. |
| DbHandler.RangeHoldsExactlyBatch | src/utils/db_handler.py:79-92 | After the save, this owner's rows dated in [min, max] are exactly the batch's dated rows. |
| DbHandler.OutsideRangeUnchanged | src/utils/db_handler.py:88-89 | Rows outside the window, including this owner's rows outside [min, max], are kept as they were, followed by the batch's undated rows. |
| DbHandler.OtherOwnersUnchanged | src/utils/db_handler.py:88-92 | Other owners' rows are unchanged. |
| DbHandler.SaveTwice | src/utils/db_handler.py:79-92 | Saving twice keeps the survivors, then the undated batch rows once more, then the batch. |
| DbHandler.SaveTwiceDated | src/utils/db_handler.py:79-92 | With every batch row dated, saving twice is the same as saving once. |
| DbHandler.SaveTwiceUndated | src/utils/db_handler.py:79-92 | Each save adds another copy of every undated row. |
| DbHandler.WindowIsDateRange | src/utils/db_handler.py:88 | The string window test is the calendar range test. |
| DbHandler.TransactionTable.SaveTransactions | src/utils/db_handler.py:45-93 | Fails, with the table unchanged, exactly when normalisation raises. Otherwise the table becomes the range replace of the normalised batch. The owner defaults to 공동. |
| DbHandler.TransactionTable.Delete | src/utils/db_handler.py:88-89 | Keeps exactly the rows outside the owner's date window. |
| DbHandler.TransactionTable.Append | src/utils/db_handler.py:92 | Appends the batch's stored rows. |
| Database.KeyIndexes | src/database.py:24-27 | Finds the positions of the four key columns. None exactly when one is missing. |
| Database.InsertedExactlyNew | src/database.py:19-30 | An incoming row is inserted, with its multiplicity, exactly when no existing row equals it on the four keys. |
| Database.NullKeyNeverRepeats | src/database.py:24-27 | A row with a NULL key never matches, so it is always inserted again. |
| Database.RerunInsertsNothing | src/database.py:19-30 | A second run of the same batch, with no NULL keys, inserts nothing. |
| Database.SelectNew | src/database.py:19-30 | The loop collects exactly the new rows, each with the table's width. |
| Database.DataFrameRef.StripColumns | src/database.py:12 | Every label is stripped in place and the rows are untouched. |
| Database.LegacyLedger.SaveToDb | src/database.py:8-35 | Strips the labels. Labels that repeat, compared up to ASCII case as SQLite compares column names, fail with the ledger unchanged and temp_ledger gone, since the replace drops it before the refused create. Otherwise temp_ledger holds the frame and the ledger is created if missing. Existing ledger rows are never changed or removed. On success exactly the new rows are appended. |
| Database.LegacyLedger.WriteTable | src/database.py:13-31 | The stripped frame as a table. It is refused exactly when two labels are equal up to ASCII case; then temp_ledger is gone and the ledger unchanged. Otherwise temp_ledger holds the table, and the ledger is created if missing and gains exactly the new rows. |
| Database.CaseVariantsClash | src/database.py:13 | "Memo" and "memo" are distinct labels, yet SQLite refuses them as one frame's columns. |
| Database.LegacyLedger.InsertNew | src/database.py:16-31 | The ledger is created with the frame's columns when missing. Its old rows stay as its prefix. On success it gains exactly the incoming rows that no ledger row repeats, in order. A rejected statement adds nothing. temp_ledger is untouched. |
| Database.LegacyLedger.LoadFromDb | src/database.py:37-45 | None when the file or ledger is missing or a sort column is absent. Otherwise the ledger's rows as a permutation, ordered by 날짜 then 시간, both descending. |
| Database.NewestFirstTotalPreorder | src/database.py:42 | The descending (날짜, 시간) order is a total preorder. |
| Login.IndexOfChar | src/pages/login.py:74 | The first position of a character. None exactly when it is absent. |
| Login.IsEmailMatchesPattern | src/pages/login.py:74 | The e-mail test holds exactly when the text splits as non-empty and '@'-free, then '@', then non-empty and '@'-free, then '.', then non-empty and '@'-free. |
| Login.IsEmailOneAt | src/pages/login.py:74 | An accepted e-mail has exactly one '@', and not at the front. |
| Login.EmailAccepted | src/pages/login.py:74 | a@b.c and a@b.c.d are accepted. |
| Login.EmailRejected | src/pages/login.py:74 | @b.c, a@b@c.d, a@.c and a@b. are rejected. |
| Login.Validate | src/pages/login.py:72-81 | Reports the first failing check in order: blank name, bad e-mail, duplicate e-mail, password under 4, mismatch. Each error occurs exactly when its check fails and every earlier one passed. Acceptance implies the e-mail is new. |
| Login.PasswordRule | src/pages/login.py:78-81 | With name and e-mail valid and new, acceptance holds exactly when the password has at least 4 characters and equals the confirmation. |
| Login.PasswordLengthBoundary | src/pages/login.py:78-81 | Length 4 passes, length 3 is too short, and a differing confirmation is a mismatch. |
| Login.NewAccount | src/pages/login.py:83-89 | The new entry has the stripped name, the e-mail, the hash, role user and approved False, so it is awaiting approval. |
| Login.Register | src/pages/login.py:71-89 | The outcome is the check chain's. A rejection leaves the dictionary unchanged. An acceptance adds exactly the one new entry under an e-mail not present before. |
| Login.RegisteredIsPending | src/pages/login.py:83-89 | An accepted registration grows the dictionary by one pending entry with a non-blank stripped name. Every other entry is kept. |
| Text.Strip | src/pages/login.py:72 | Strip returns the infix between leading and trailing whitespace. It is empty exactly when the text is all whitespace. |
| Accounts.Pending | src/app.py:166-170 | The pending list is exactly the entries whose approved flag is False, with their data. |
| App.UserRecord | src/app.py:97-98 | The signed-in user's entry, looked up under the empty name when none is set. A non-text name finds nothing. |
| App.BlockedOnlyWhenFalse | src/app.py:100 | A user is blocked exactly when the approved flag is present and False. A missing flag or an unknown user passes. |
| App.Role | src/app.py:113 | The entry's role, or user when absent. |
| App.WithoutAuth | src/app.py:105-106 | The session with exactly the five authentication keys removed and the rest kept. |
| App.PopAuthKeys | src/app.py:105-106 | The loop leaves the session without the authentication keys. |
| App.Gate | src/app.py:97-118 | Blocks exactly the blocked user. A blocked session loses the auth keys and gets the pending flag. Otherwise the role is stored and the menu gets its default. |
| App.WithMenuDefault | src/app.py:117-118 | The menu is set to the budget page only when absent, and nothing else changes. |
| App.BlockedSessionSignedOut | src/app.py:105-107 | A blocked session holds no authentication key afterwards and carries the pending flag. Every other key is kept. |
| App.Approve | src/app.py:177 | Sets approved True on that one entry. |
| App.Reject | src/app.py:182 | Deletes exactly that entry. |
| App.ApproveLeavesPending | src/app.py:166-177 | After approval the entry leaves the pending list and is no longer blocked. Other entries are unchanged. |
| App.RejectLeavesPending | src/app.py:166-182 | After rejection the entry leaves the pending list and the dictionary. Other entries are unchanged. |
| App.Route | src/app.py:190-201 | The first matching substring test picks the page. Budget is chosen exactly when its text is contained. No page is chosen exactly when no test matches. |
| App.DefaultMenuRoute | src/app.py:117-118 | The default menu opens the budget page. |
| App.MenuRoutes | src/app.py:127-134 | Each sidebar label routes to its own page, in menu order. |
| Budget.AvgMonthly | src/pages/budget.py:21-22 | The average is non-negative: the magnitude of the category's average, 0 when it has none. |
| Budget.DisplayRows | src/pages/budget.py:22-31 | One display row per budget row, carrying that row's fields and its non-negative average. |
| Budget.VariableIsUnflaggedSum | src/pages/budget.py:34-40 | Variable is the sum over non-fixed rows, and fixed plus variable is the total, for budgets and for averages alike. |
| Budget.FiguresNonNegative | src/pages/budget.py:34-40 | The average figures are non-negative with fixed ≤ total. With non-negative monthly amounts the same holds for the budget. |
| Budget.DeltasMatchAverages | src/pages/budget.py:42-62 | Deltas are shown exactly when the average total is positive, and each is a budget figure minus its average. |
| Budget.DeltasWhenSomeAverage | src/pages/budget.py:22-42 | With non-negative averages, deltas are shown exactly when some category has a positive average. |
| Budget.NoAveragesNoDeltas | src/pages/budget.py:21-42 | Without any average no delta is shown. |
| Budget.SaveRowsSortedPermutation | src/pages/budget.py:98-105 | The saved rows are the edited rows without the average, as many as edited, a permutation of them, ascending by sort order. |
| Assets.UpdatedDate | src/pages/assets.py:15-16 | The first word of the first row's snapshot date, or empty when that is missing or empty. |
| Assets.NetWorthIsSignedSum | src/pages/assets.py:33-42 | Net worth is assets minus debts: the sum of amounts signed by balance type. |
| Assets.OtherBalanceIgnored | src/pages/assets.py:33-34 | A row that is neither 자산 nor 부채 changes neither total. |
| Assets.CashCountsEachMatch | src/pages/assets.py:37-40 | Cash counts each row once per filter it matches. |
| Assets.CashDoubleCount | src/pages/assets.py:37-40 | A cash-asset row on a free-withdrawal account counts twice. |
| Assets.Owners | src/pages/assets.py:20 | The owners present, each once. |
| Assets.SortedOwnersFacts | src/pages/assets.py:20-23 | The tab owners are each present owner once, in ascending order. |
| Assets.TabNames | src/pages/assets.py:23 | The tabs are 전체 followed by each sorted owner with 님 appended. |
| Assets.TabOwnerRecovers | src/pages/assets.py:23-49 | Dropping the appended 님 recovers every owner. |
| Assets.TabOwnerAsWrittenRecovers | src/pages/assets.py:23-49 | Removing every 님 recovers an owner whose name has no 님. |
| Assets.TabOwnerAsWrittenLoses | src/pages/assets.py:49-56 | For owner 하님 the tab reads back as 하 and shows 0 assets, while the intended reading shows 100. |
| Assets.OwnerSplit | src/pages/assets.py:56-57 | Summing any field over a list that holds every row's owner exactly once gives the field's overall sum. |
| Assets.OwnerTabsAddUp | src/pages/assets.py:23-65 | Owner tabs are the sorted owners. Each tab's asset and debt metrics are that owner's totals. Summed over the tabs they equal the 전체 tab's totals. |
| Transactions.ChartData | src/pages/transactions.py:32 | The chart has one bar per expense type present, each that type's amount sum. |
| Transactions.OtherTypesIgnored | src/pages/transactions.py:15-19 | A row of any other type changes neither metric. |
| Transactions.ChartMatchesMetrics | src/pages/transactions.py:15-32 | The chart's 고정 지출 and 변동 지출 bars equal the two metrics. An absent bar means a zero metric. |
| Transactions.MetricsDisjoint | src/pages/transactions.py:15-19 | Fixed plus variable is the sum over the rows of those two types. |
| Sorting.SortByPermutes | src/pages/upload.py:103 | The sort is a permutation. |
| Sorting.SortBySorted | src/pages/upload.py:103 | Under a total preorder the sort is ordered. |
| Sorting.SortByStable | src/pages/upload.py:103 | The sort keeps the relative order of equal keys. |
| Sorting.FilterSubsequence | src/pages/upload.py:170 | A filter keeps its elements in their original order. |

## Left out

- Streamlit rendering is not modelled. That covers widgets, tabs, progress bars, `st.rerun`, the file and result tables (`_show_file_table`, `_show_results`), CSS and number formatting. `st.rerun` appears in the model only as the end of the gate.
- The unshown callees are fields of `Upload.Env`, with no bodies invented. They are `has_transactions_in_range`, `extract_date_range`, `process_uploaded_zip` and `process_uploaded_excel` as the batch calls them, `save_transactions` and `save_asset_snapshot` as the batch calls them, `extract_snapshot_date`, `mark_file_processed`, `sync_categories_from_transactions` and the mail-folder file read.
- `detect_owner_from_filename`, `scan_docs_folder` and `get_processed_filenames` are inputs of the items and page filters.
- The interface mismatches between shown versions are not reconciled. upload.py:66 and :79 expect different signatures than file_handler.py:5 and db_handler.py:45 provide. Each is modelled as written.
- Reading the mail-folder file and its I/O errors are not modelled; the read is a total function of the file name.
- Workbook parsing by pandas, pyzipper and openpyxl is the `readCsv`/`readExcel`/listing parameters. `pd.to_datetime` is a `parse` parameter, except for the one format the display formatter fixes.
- `FileHandler.CoerceAmount`: to_numeric also accepts decimal and exponent texts, giving floats. The model converts integer texts only and maps any other text to 0.
- `FileHandler.ParseClock`: the fraction field takes 1 to 9 digits, as pandas' own `%f` does. Locale and other strptime details are not modelled.
- SQLite type affinity and the `id`/`created_at` columns of `transactions` are not modelled. Values are NULL, integer or text, and SQL equality is NULL-aware.
- `DbHandler.Normalize`: duplicate labels after renaming are modelled as an error, where pandas would build a frame with repeated columns.
- The `st.error` call on the exception path at database.py:33 is not modelled: `st` is not imported there, so the except branch itself raises NameError. The model reports the failed insert as an error value with the ledger rows unchanged.
- `get_ai_context` in database.py, all of ai_agent.py and chatbot.py, and scripts/init_auth.py are not part of this model. They are network calls, chat UI and interactive set-up I/O.
- The bcrypt hash is a function parameter. Writing the YAML config back to disk after register, approve and reject is not modelled; the dictionary is updated in memory.
- Deleting the authentication cookie in the gate, and the logout button (app.py:155-162), are not modelled. They are I/O on the browser, and the logout is not one of the modelled operations.
- YAML `approved` values other than true/false/absent are not modelled.
- `Budget.AvgMonthly`: averages are taken as integers, where the source's averages come from a float query and are truncated by `astype(int)`.
- `Budget.DisplayRows`: the column assignments on the page's local frame are modelled as pure functions of the rows.
- `Budget.SaveRows`: pandas `sort_values` (budget.py:105) is not guaranteed stable, while the model sorts stably. The contract states sortedness and permutation only, which every pandas order also meets.
- `Upload.RunBatch`: Python exceptions other than the date ones are not modelled: a failing `has_transactions_in_range` call, the file read, and the two saves (`save_transactions`, `save_asset_snapshot`), which `_process_single` does not catch and which would escape the batch.
- The progress fraction at upload.py:133 is a float UI detail and is not modelled.
- `Dates.ParseIsoDate`: `date.fromisoformat` also accepts the compact YYYYMMDD form and other ISO spellings. The model accepts exactly YYYY-MM-DD, the form the file names use.
- `Assets.UpdatedDate` is stated for the cases the page reaches. No concrete example lemma is included.

## Findings

| source | as written | input that shows it | evidently intended | confidence | as-written member | corrected member |
|---|---|---|---|---|---|---|
| src/pages/assets.py:49 | The owner is read back from the tab label by deleting every 님 in it | An owner named 하님 with one 자산 row of 100. Its tab is 하님님, which reads back as 하, so the tab shows 0 | Remove only the 님 appended at src/pages/assets.py:23, so every owner tab shows that owner's rows | medium, not executed | Assets.TabOwnerAsWritten (Assets.TabOwnerAsWrittenLoses) | Assets.TabOwner (Assets.TabOwnerRecovers, Assets.OwnerTabsAddUp) |
