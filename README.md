# A verified model of a PHP/JavaScript AJAX data grid

The system is a server-rendered data grid. The client fetches pages of rows through
AJAX, sending a search term, a sort field and direction, a page and a per-page choice.
The server turns these untrusted parameters into bounded, parameterised SQL. This
project models the core of that system in Dafny and proves its properties. There is
one module per source file, plus two modules for the shared vocabulary:

- `Strings` (strings.dfy) holds `implode`, character counting (used to count `?`
  placeholders) and repetition.
- `Php` (php.dfy) holds PHP values and ordered arrays, with these operations:
  - the `empty`/`isset` truthiness rules;
  - indexing, assignment, `unset` and `$a[] =`;
  - `array_values`, `array_filter`, `array_merge` and `strtoupper`.
- `Helper` (helper.dfy) models `TableHelper`, the pure building blocks:
  - the config validator;
  - the identifier sanitiser;
  - the `LIKE` search clause, which appends to a by-reference parameter list;
  - the whitelisted `ORDER BY` clause;
  - the clamping pagination calculator.
- `Model` (model.dfy) models `TableModel`. This class holds a mutable page size and
  assembles two statements: the projected `SELECT … LIMIT ? OFFSET ?` and the
  `COUNT(*)`, with their positional bindings.
  - The database is an oracle: a pair of functions from statement text and bindings
    to rows and to a count.
  - This class interpolates its table, columns and sort field without sanitising
    them. The model keeps that. It shows the consequence (an extra unbound
    placeholder) and proves that for clean identifiers the clauses equal the
    helper's.
- `Config` (config.dfy) models `Table`, the configuration object. Its constructor
  merges the caller's array over the defaults, and its setters change
  `$this->config` or the table id in place.
- `Client` (client.dfy) models the per-grid closure in `examples/js/script.js`.
  - Its state is the current page, the sort field and order, and a pending search
    timer, along with the transitions triggered by the page's events.
  - The DOM, `fetch`, `localStorage` and timers become fields that record what the
    script shows, requests and stores.
  - The records-line arithmetic, the pagination window and `parseInt` are pure
    functions with lemmas.
  - So is the migration of the legacy column-visibility preference.

Where the code and its design description differ, the model follows the code:
- `TableModel` does not sanitise identifiers.
- `getData` runs the SELECT before the COUNT. With an oracle database the order is
  immaterial.
- `validateConfig` accepts a `sortable` entry that is present but null, because it
  tests with `isset`.
- A click on the previous-page arrow on page 1 is only styled as disabled. Its
  `data-page` is 0, so the client then requests page 0 (`Client.PrevOnFirstPage`).
  The described request always has a page of at least 1.

## Model

| member | source | states |
|---|---|---|
| Helper.ValidateConfig | src/TableHelper.php:11-27 | no error exactly when the table is non-empty, fields is a non-empty array and sortable is unset, null or an array; otherwise one message per failed check, in check order, with the source's messages |
| Helper.Sanitize | src/TableHelper.php:32-41 | the result consists only of `[A-Za-z0-9_]` characters and is no longer than the input |
| Helper.SanitizeConcat | src/TableHelper.php:33 | sanitising distributes over concatenation, so the kept characters keep their order |
| Helper.SanitizeCounts | src/TableHelper.php:40 | every allowed character survives exactly as often as it occurred; every other character is removed |
| Helper.SanitizeIdentity | src/TableHelper.php:32-41 | an already clean identifier passes unchanged |
| Helper.SanitizeIdempotent | src/TableHelper.php:32-41 | sanitising twice is sanitising once |
| Helper.BuildSearchWhere | src/TableHelper.php:73-88 | for an empty term ("" or "0") or no columns: empty clause, parameters untouched; otherwise the clause is `WHERE` plus the `OR`-join of `sanitize(col) LIKE ?`, and exactly one `%term%` per column is appended after the prior parameters |
| Helper.LikePartsPlaceholders | src/TableHelper.php:81-85 | the LIKE parts hold exactly one placeholder per column |
| Helper.SearchWherePlaceholders | src/TableHelper.php:73-88 | the clause is empty iff no search happens, and its placeholder count equals the number of parameters appended |
| Helper.SearchWhereIgnoresTerm | src/TableHelper.php:78-87 | the search term never enters the SQL text: any two non-empty terms give the same clause |
| Helper.DirectionCaseInsensitive | src/TableHelper.php:99 | the direction is DESC exactly for "desc" in any letter case, ASC for every other value |
| Helper.OrderBy | src/TableHelper.php:93-102 | empty exactly when the sort field is empty or not whitelisted |
| Helper.OrderBySafe | src/TableHelper.php:93-102 | a non-empty clause is `ORDER BY <identifier> ASC` or `… DESC`; for a clean field the identifier is the field itself |
| Helper.CeilDiv | src/TableHelper.php:110 | the quotient q satisfies (q-1)·b < a ≤ q·b, i.e. it is ceil(a/b) |
| Helper.CeilDivUnique | src/TableHelper.php:110 | that property determines the ceiling uniquely; it is non-negative for non-negative a and 0 for 0 |
| Helper.CalculatePagination | src/TableHelper.php:107-122 | page = max(1, page), perPage clamped to 1..100, offset = (page-1)·perPage ≥ 0, totalPages = ceil(total/perPage), hasNext ⇔ page < totalPages, hasPrev ⇔ page > 1 |
| Helper.PaginationExample | src/TableHelper.php:107-122 | 23 records, page 3, 10 per page give 3 pages, offset 20, no next page, a previous page |
| Helper.PaginationNoRecords | src/TableHelper.php:110 | no records means no pages and no next page |
| Model.Offset | src/TableModel.php:39 | the offset is max(0, (page-1)·pageSize): never negative, (page-1)·pageSize from page 1 on |
| Model.TableModel.constructor | src/TableModel.php:21-26 | stores the database, table, columns and whitelist; the page size starts at 10 |
| Model.TableModel.SetPageSize | src/TableModel.php:28-33 | a positive size replaces the page size, anything else leaves it; the page size stays at least 1 |
| Model.TableModel.GetTotalRecords | src/TableModel.php:85-95 | the count the database gives for `SELECT COUNT(*) as cnt FROM <table> <where>` with the parameters bound at 1..n |
| Model.TableModel.GetData | src/TableModel.php:38-83 | rows are the database's answer to the assembled SELECT with the search values, page size and offset bound in that order; the total comes from the COUNT over the same where-clause and values; totalPages is the ceiling of total/pageSize; currentPage is the page passed in |
| Model.BindingsLayout | src/TableModel.php:64-69 | bindings are the search values at positions 1..n, the page size at n+1 and the offset at n+2 |
| Model.WhereOnlyWhenSearching | src/TableModel.php:41-53 | a WHERE clause exists iff the search is non-empty and there are columns, and then one `%search%` value is bound per column |
| Model.RawLikePartsPlaceholders | src/TableModel.php:46-48 | the unsanitised LIKE parts hold one placeholder per column plus any `?` inside column names |
| Model.WherePlaceholders | src/TableModel.php:50-52 | the where-clause's placeholder count is one per column plus those inside column names |
| Model.OrderPlaceholders | src/TableModel.php:55-59 | a sort field without `?` adds no placeholder |
| Model.SelectPlaceholders | src/TableModel.php:61 | the SELECT holds the where and order placeholders plus the two of LIMIT and OFFSET |
| Model.PlaceholdersMatchBindings | src/TableModel.php:61-69 | with identifiers free of `?`, the SELECT has exactly as many placeholders as bound values, and the COUNT as many as search values |
| Model.UnsanitisedColumnAddsPlaceholder | src/TableModel.php:47 | an unsanitised column name `a?` yields two placeholders for one bound value |
| Model.AgreesWithHelper | src/TableModel.php:41-59 | for clean column names and sort field, the model's WHERE and ORDER BY clauses equal the helper's |
| Model.TotalPagesIsCeiling | src/TableModel.php:75 | the page count is the least number of pages holding every record; 0 records give 0 pages |
| Php.ArrayMergeOverrides | src/Table.php:17-26 | after array_merge a string key is present iff in either array, with the caller's value winning over the default |
| Php.PushWellFormed | src/Table.php:117 | appending keeps keys unique and adds the value at the end |
| Php.FilterOutValues | src/Table.php:126-130 | array_filter keeps exactly the other values, in order |
| Php.RemoveAllSpec | src/Table.php:125-132 | the column is gone, every other value keeps its multiplicity, and nothing changes when it was absent |
| Php.UnsetKeys | src/Table.php:146 | unset keeps the remaining keys in their order |
| Config.DefaultsShape | src/Table.php:17-26 | the defaults hold every default key exactly once |
| Config.Table.constructor | src/Table.php:11-27 | every default key is present, a key the caller gave has the caller's value, any other key has its default |
| Config.Table.GetTableId | src/Table.php:82-84 | returns the table id, which the constructor and setTableName set |
| Config.Table.GetConfig | src/Table.php:100-102 | the stored value when the key is set and not null, else the default; null only when the default is null |
| Config.Table.SetTableName | src/Table.php:89-95 | a non-empty name becomes both the table id and `config['table']`; an empty one ("" or "0") changes nothing; no other key changes |
| Config.LookupAfterSet | src/Table.php:100-110 | after setting a key, getConfig of it gives the value (or the default when null was stored), and every other key's lookup is unchanged |
| Config.LookupNullOnlyFromDefault | src/Table.php:100-102 | a lookup is null only when the default is; a missing key yields the default |
| Config.Table.SetConfig | src/Table.php:107-110 | the key holds the value, every other key is unchanged, a new key is appended at the end |
| Config.AddUniqueSpec | src/Table.php:115-120 | adding keeps the list duplicate-free, contains the column afterwards, is idempotent, and adds nothing else |
| Config.Table.AddSortable | src/Table.php:115-120 | on an array sortable list the values become the old ones plus the column if it was absent; nothing changes when it was present; other keys are unchanged |
| Config.Table.RemoveSortable | src/Table.php:125-132 | the values become the old ones with every copy of the column removed, renumbered from 0; other keys are unchanged |
| Config.RemoveSortableIdempotent | src/Table.php:125-132 | removing a column twice is removing it once |
| Config.Table.AddField | src/Table.php:137-140 | the field holds the label, all other fields keep their labels and order, a new field goes last; a null or false fields entry becomes a one-field array |
| Config.Table.RemoveField | src/Table.php:145-148 | the field is gone, all other fields keep their labels, the other keys keep their order |
| Config.Table.SetApiUrl | src/Table.php:153-156 | `apiUrl` holds the url, nothing else changes |
| Config.Table.SetSearchEnabled | src/Table.php:161-164 | `searchEnabled` holds the flag, nothing else changes |
| Config.Table.SetPaginationEnabled | src/Table.php:169-172 | `paginationEnabled` holds the flag, nothing else changes |
| Config.Table.ConfigJson | src/Table.php:44-51 | the record exists iff fields is an array; its columns are the field keys in order and its headers are the fields |
| Client.GridController.constructor | examples/js/script.js:7-42 | page 1, sort field "", ASC, no pending search; a saved non-empty per-page value is restored; the column preference is migrated and each checkbox is ticked iff its column is visible; one fetch is issued |
| Client.GridController.LoadData | examples/js/script.js:98-108 | appends the request for the current state (table, page, search text, sort field, direction, per-page) and shows the spinner, which replaces the grid so that no column is hidden |
| Client.GridController.SearchInput | examples/js/script.js:84-87 | a keystroke replaces any pending timer with one pending timer |
| Client.GridController.SearchTimerFired | examples/js/script.js:86 | the page goes back to 1, nothing is pending, one fetch is issued |
| Client.GridController.PerPageChanged | examples/js/script.js:90-96 | the page goes back to 1, the choice is stored, and a fetch with page 1 and that per-page value is issued |
| Client.GridController.HeaderClicked | examples/js/script.js:171-176 | the current sort field flips direction, another field becomes the sort field ascending; the page is kept; a fetch follows |
| Client.GridController.PageButtonClicked | examples/js/script.js:189 | the button's page is fetched exactly when it differs from the current page; otherwise nothing happens |
| Client.GridController.ColumnToggled | examples/js/script.js:55-60 | the stored preference is the ticked header keys, which read back as exactly the ticked columns; the grid's hidden columns are recomputed |
| Client.GridController.ApplyColumnVisibility | examples/js/script.js:127-145 | a legacy preference is rewritten; the hidden grid columns are exactly those the preference does not show |
| Client.GridController.Render | examples/js/script.js:111-198 | a refused answer shows its message (or "Error") and a failure shows the error, both keeping pagination, records line and stored column preference; no rows show the empty notice, no pagination and 0–0 / 0; rows show the grid, hide the columns the stored preference leaves out, store the migrated preference, and show the pagination control for the current page and the records range; whenever no grid is shown no column is hidden and the stored preference is unchanged |
| Client.LegacyVisibleSpec | examples/js/script.js:38 | a legacy object keeps visible exactly the header keys whose flag is falsy |
| Client.LegacyMigration | examples/js/script.js:36-39 | after migration a field is visible iff it is a header key with a falsy legacy flag, and the stored form becomes an array |
| Client.NullShowsAll | examples/js/script.js:48 | a null, missing or unparseable preference shows every column |
| Client.MigrationStable | examples/js/script.js:134-137 | migration does not change what is shown, and a migrated preference is never migrated again |
| Client.TickedSpec | examples/js/script.js:57 | a header key is among the saved ones iff its box is ticked |
| Client.SavedTicksRoundTrip | examples/js/script.js:57-58 | saving the ticks and reading them back shows exactly the ticked columns |
| Client.HiddenAmongSpec | examples/js/script.js:141-143 | a grid column is hidden iff the preference does not show it |
| Client.JStrsMembers | examples/js/script.js:58 | a field is listed in the saved array iff it was written |
| Client.ParseIntRoundTrip | examples/js/script.js:189 | parsing a written page number gives that number |
| Client.TrimSpaces | examples/js/script.js:189 | leading white space is skipped up to the first other character |
| Client.TrimStartSuffix | examples/js/script.js:189 | trimming keeps a suffix of the text |
| Client.DigitPrefixConcat | examples/js/script.js:189 | the digit run of digits followed by a non-digit is exactly those digits |
| Client.ParseIntNoDigits | examples/js/script.js:189 | any text containing no digit is NaN |
| Client.ParseIntDigits | examples/js/script.js:189 | white space, an optional sign, digits and any text not starting with a digit parse as the digits' value, negated after a minus |
| Client.ParseIntNaN | examples/js/script.js:193 | examples: "", "abc" and " -" are NaN; " 20px" is 20 |
| Client.PerPageOrDefaultSpec | examples/js/script.js:193 | an unparseable or zero per-page value counts as 10, any other number as itself |
| Client.WindowSpec | examples/js/script.js:184 | the numbered pages are exactly max(1,p-2)..min(t,p+2): at most 5, all within 1..t, including p when it is a page |
| Client.OneActive | examples/js/script.js:184 | exactly the current page's numbered button is active |
| Client.ControlsShape | examples/js/script.js:180-187 | no control unless there is more than one page; otherwise first and previous, the window, next and last |
| Client.PaginationButtons | examples/js/script.js:180-188 | the loop builds exactly the control above |
| Client.RecordsRangeMeaning | examples/js/script.js:194-195 | for a page holding records, start = (p-1)·per+1 and end = min(total, p·per) number exactly the records on the page |
| Client.SortableAmong | examples/js/script.js:159-161 | the headers with a sort handler are exactly the grid fields in the sortable array |
| Client.DebounceScenario | examples/js/script.js:83-88 | two quick keystrokes and one timer give a single search fetch, on page 1, with the last text |
| Client.PerPageScenario | examples/js/script.js:90-96 | from page 3, changing the per-page choice to 20 fetches page 1 with per_page 20 and stores 20 |
| Client.SortScenario | examples/js/script.js:173-175 | two clicks on a sortable header sort by it ascending, then descending |
| Client.PrevOnFirstPage | examples/js/script.js:183 | on page 1 the previous-page arrow carries page 0, and clicking it fetches page 0 |

## Left out

- The PDO calls (`prepare`, `bindValue`, `execute`, `fetchAll`, `fetch`) are out: the database is an oracle of two total functions, with no errors or exceptions.
- `formatValue` depends on dates, locale number formatting of floats and HTML escaping.
- `generateTableId` is time-based and nondeterministic, and `exportConfig`/`importConfig` are file I/O and JSON text.
- `render`, `includeCss`, `includeJs` and `basePath` are HTML templating, output buffering and the `BASE_URL` constant. Of `render`, only its call to `setTableName` matters, and that is modelled.
- `Config.Table.ConfigJson` gives the record's shape, not the JSON text `json_encode` produces.
- `Model.TableModel.GetData`, `Model.Offset`, `Helper.CalculatePagination` and `Client.ParseIntRoundTrip` use unbounded integers. PHP's 64-bit integers turn into floats on overflow, and `(int)` of an out-of-range float is undefined (src/TableModel.php:39 and 69, src/TableHelper.php:111). JavaScript numbers are doubles, exact only below 2^53. None of these limits is modelled.
- Floating point: `ceil` of a division is exact integer ceiling division, and the `(int)` casts of numeric strings are not modelled. Arguments are already integers.
- `Model.TableModel.SetPageSize` takes an integer: the `(int)` cast of other argument types is not modelled.
- `Config.Table.AddSortable` compares with strict equality, while PHP's `in_array` compares loosely (`"1"` equals `1`). `Helper.OrderBy` and `Model.OrderSql` do the same for their whitelist check.
- PHP's conversion of numeric-string keys to integer keys is not modelled; keys are given as integer or string keys.
- `Php.Push` takes the next index from the keys currently present. PHP remembers a larger index after the largest key was unset.
- `Config.Table.AddSortable`, `Config.Table.RemoveSortable`, `Config.Table.AddField` and `Config.Table.RemoveField` refuse the call and change nothing where PHP raises an error:
  - a non-array sortable entry;
  - a fields entry that is a string, number or `true`.

  PHP's string-offset writes are not modelled.
- The client's configuration comes from `getConfigJson`. A missing or null `config.headers` is not modelled.
- `JSON.parse`/`JSON.stringify` of stored preferences are not modelled. A stored preference is missing, unparseable, or an already parsed value, and JSON numbers are integers. Inherited object properties such as `constructor` are not visible fields.
- `Client.ParseInt` skips ASCII white space only, not the other Unicode space characters. It reads the `data-page` attribute in base 10, which is how the script writes it.
- DOM work is out: the markup, the spinner, the menu's show and hide, the sort-direction classes, the labels and the records line's wording. The records line is kept as its three numbers.
- Setting the per-page select to a value it has no option for is not modelled; the value is taken as given.
- The model covers one grid per page. Every grid built from `TABLE_CONFIGS` shares the storage keys `mvc_table_perpage` and `mvc_table_columns` and the fixed element ids such as `mvc_table_search`, so several grids on one page would read and overwrite each other's preferences and elements; that interaction is not modelled.
- The DOM elements are assumed present, except the search box and the per-page select, whose presence changes the request.
- Asynchrony is out. A fetch is recorded in the request log when issued, and its settling is a separate `Render` call. The stale-response race between overlapping fetches, the 400 ms delay and exceptions swallowed by `try`/`catch` around storage are not modelled.
