# SQL runner: a Dafny model

The system is a small web tool for running SQL against a SQLite sample database. It has
three parts:

- `backend/sqlcompiler/sqlrunner/utils.py`:
  - decides whether a statement is read-only;
  - rewrites a read-only statement to carry a row limit;
  - runs it;
  - builds the schema-and-samples answer for one table.
- `backend/sqlcompiler/sqlrunner/views.py`: three REST handlers, for execute, list tables and table detail. They map outcomes and exceptions to HTTP statuses.
- `Frontend/SqlCompilr/src/App.jsx`: a React page. It keeps the editor text, results, error, loading flag, table list, selection, schema, samples, last query and popup flag, and updates them from user actions and service responses.

The model has one module per part, plus three shared modules:

| file | module | models |
|---|---|---|
| `wrappers.dfy` | `Wrappers` | `Option` and `Result` |
| `text.dfy` | `Text` | Python's `str.strip`, `split()[0]`, `lower`, `rstrip(c)`, `in` on strings, `str(int)` and `int(str)`; the same `strip` stands for JavaScript's `trim` |
| `records.dfy` | `Records` | cell values, rows, PRAGMA rows, schema entries, the database's answer to one statement |
| `sqlrunner_utils.dfy` | `SqlRunnerUtils` | `utils.py` as pure functions |
| `sqlrunner_views.dfy` | `SqlRunnerViews` | `views.py`: each handler is a total function to a `Response(status, body)` |
| `app.dfy` | `App` | `App.jsx`: the class `Session` whose methods are the handlers, pure render functions, and lemmas that join the page to the service |

The database models:

- The database is a function parameter, `db: string -> DbOutcome`. It maps the exact statement text sent to a failure message or to rows and column names.
- For table details there are two such parameters, `pragma` and `select`.
- So "which statement is sent" is part of each contract, and "the database is not reached" is stated as "the result is the same for every `db`".

The front-end models:

- `executeQuery` and `fetchTableDetails` are each split into two parts. The first is a method running up to the request; it returns what is sent. The second is a `Complete…` method that takes the outcome.
- `fetchTables` sends a fixed request that takes nothing from the state and changes nothing before it resolves. So it is modelled only by its completion, `CompleteFetchTables`.
- The `useEffect` on `tables` is folded into `CompleteFetchTables`. It returns the table whose details are fetched next.

## Model

| member | source | states |
|---|---|---|
| `Text.Strip` | backend/sqlcompiler/sqlrunner/utils.py:29 | `str.strip()` (and `trim()` on the page). It has no contract of its own; `Text.StripSplit`, `Text.StripPadded`, `Text.StripIdempotent`, `Text.StripIgnoresPadding` and `Text.StripEmptyIffBlank` state its properties |
| `Text.StripSplit` | backend/sqlcompiler/sqlrunner/utils.py:29 | every text is leading whitespace, then its stripped form, then trailing whitespace; the stripped form neither starts nor ends with whitespace |
| `Text.StripPadded` | backend/sqlcompiler/sqlrunner/utils.py:29 | a text with non-whitespace ends, padded with whitespace on both sides, strips back to exactly that text |
| `Text.FirstWord` | backend/sqlcompiler/sqlrunner/utils.py:18 | `split()[0]` of a non-blank text. It has no contract of its own; `Text.TakeWordSpec` and `SqlRunnerUtils.FirstWordSplit` state its properties |
| `Text.Lower` | backend/sqlcompiler/sqlrunner/utils.py:18 | `str.lower()` on ASCII letters. Its properties are stated by `Text.LowerConcat`, `SqlRunnerUtils.LowerIdempotent` and `SqlRunnerUtils.LowerKeepsWhitespace` |
| `Text.LowerConcat` | backend/sqlcompiler/sqlrunner/utils.py:33 | lower-casing distributes over concatenation |
| `SqlRunnerUtils.LowerIdempotent` | backend/sqlcompiler/sqlrunner/utils.py:18 | lower-casing twice is lower-casing once |
| `SqlRunnerUtils.LowerKeepsWhitespace` | backend/sqlcompiler/sqlrunner/utils.py:18 | lower-casing neither creates nor removes whitespace, so words keep their bounds |
| `Text.Contains` | backend/sqlcompiler/sqlrunner/utils.py:33 | Python's `sub in s`. Its properties are stated by `Text.ContainsIff`, `Text.ContainsAt` and `Text.NotContainsWithoutChar` |
| `Text.ContainsIff` | backend/sqlcompiler/sqlrunner/utils.py:33 | `sub in s` holds exactly when `sub` occurs at some index of `s`, in both directions |
| `Text.ContainsWitness` | backend/sqlcompiler/sqlrunner/utils.py:33 | where `sub in s` holds, it gives an index at which `sub` occurs |
| `Text.RStrip` | backend/sqlcompiler/sqlrunner/utils.py:34 | `str.rstrip(c)`. Its properties are stated by `Text.RStripSpec` |
| `Text.IntToString` | backend/sqlcompiler/sqlrunner/utils.py:34 | `str(n)` for an integer, also used in the sample statement at line 85. Its round trip is `Text.ParseIntOfIntToString` |
| `Text.NatToString` | backend/sqlcompiler/sqlrunner/utils.py:34 | the decimal text of a natural is non-empty and all digits |
| `Text.ParseInt` | backend/sqlcompiler/sqlrunner/views.py:54 | `int(s)` on a string: strip it, then an optional sign, then digits with single underscores between them. `Text.ParseIntOfIntToString` and the `SqlRunnerViews.*LimitParses` lemmas state its properties |
| `Text.StripEmptyIffBlank` | backend/sqlcompiler/sqlrunner/utils.py:16 | stripping gives the empty text exactly when the text is all whitespace |
| `Text.StripIgnoresPadding` | backend/sqlcompiler/sqlrunner/utils.py:18 | whitespace added at either end does not change the stripped text |
| `Text.StripIdempotent` | backend/sqlcompiler/sqlrunner/utils.py:29 | stripping twice is stripping once |
| `Text.TakeWordSpec` | backend/sqlcompiler/sqlrunner/utils.py:18 | the first word is a whitespace-free prefix that ends at whitespace or at the end of the text |
| `Text.RStripSpec` | backend/sqlcompiler/sqlrunner/utils.py:34 | `rstrip(';')` removes exactly the trailing run of semicolons and keeps the rest as a prefix |
| `Text.ContainsAt` | backend/sqlcompiler/sqlrunner/utils.py:33 | an occurrence at any position makes `sub in s` true (the converse is `Text.ContainsWitness`) |
| `Text.NotContainsWithoutChar` | backend/sqlcompiler/sqlrunner/utils.py:33 | a text lacking a character of `sub` does not contain `sub` |
| `Text.ParseIntOfIntToString` | backend/sqlcompiler/sqlrunner/views.py:54 | `int(str(n)) == n` for every integer, negative ones included |
| `SqlRunnerUtils.IsReadOnlyQuery` | backend/sqlcompiler/sqlrunner/utils.py:14-19 | `is_read_only_query`. It has no contract of its own; `SqlRunnerUtils.ReadOnlyIffFirstWordIsSelect` and the lemmas below state its properties |
| `SqlRunnerUtils.BlankIsNotReadOnly` | backend/sqlcompiler/sqlrunner/utils.py:16-17 | empty or whitespace-only text is never read-only |
| `SqlRunnerUtils.ReadOnlyIffFirstWordIsSelect` | backend/sqlcompiler/sqlrunner/utils.py:14-19 | read-only exactly when the text is not blank and its first whitespace-separated word, lower-cased, is `select` |
| `SqlRunnerUtils.ReadOnlyByFirstWord` | backend/sqlcompiler/sqlrunner/utils.py:18-19 | for text written as whitespace, a word, then nothing or whitespace and more: read-only exactly when that word lower-cases to `select` |
| `SqlRunnerUtils.ReadOnlyIgnoresCase` | backend/sqlcompiler/sqlrunner/utils.py:18 | texts equal up to letter case classify alike |
| `SqlRunnerUtils.ReadOnlyIgnoresPadding` | backend/sqlcompiler/sqlrunner/utils.py:18 | surrounding whitespace does not change the classification |
| `SqlRunnerUtils.ReadOnlyOfStrip` | backend/sqlcompiler/sqlrunner/utils.py:29-32 | the stripped text classifies as the original does |
| `SqlRunnerUtils.GluedSemicolonIsNotReadOnly` | backend/sqlcompiler/sqlrunner/utils.py:18-19 | `select;` is not read-only, because the first word is `select;` |
| `SqlRunnerUtils.UnspacedKeywordIsNotReadOnly` | backend/sqlcompiler/sqlrunner/utils.py:18-19 | `SELECT*FROM t` is not read-only |
| `SqlRunnerUtils.PaddedMixedCaseIsReadOnly` | backend/sqlcompiler/sqlrunner/utils.py:18-19 | padded mixed-case `SeLeCt` is read-only |
| `SqlRunnerUtils.LaterSelectIsNotReadOnly` | backend/sqlcompiler/sqlrunner/utils.py:18-19 | a SELECT that is not the first word does not count |
| `SqlRunnerUtils.RewriteQuery` | backend/sqlcompiler/sqlrunner/utils.py:29-34 | the statement `execute_query` runs. It has no contract of its own; `SqlRunnerUtils.RewriteAppendsLimit`, `SqlRunnerUtils.RewriteKeepsOthers` and the `Rewrite*` lemmas below state its properties |
| `SqlRunnerUtils.RewriteAppendsLimit` | backend/sqlcompiler/sqlrunner/utils.py:29-34 | a read-only text with no `limit` anywhere, case-insensitive, is run as its stripped text, then trailing `;` removed, then ` LIMIT n;` added; the kept part is a non-empty prefix with the same first word |
| `SqlRunnerUtils.RewriteKeepsOthers` | backend/sqlcompiler/sqlrunner/utils.py:29-34 | any other text is run exactly as stripped |
| `SqlRunnerUtils.LimitInNameSkipsRowLimit` | backend/sqlcompiler/sqlrunner/utils.py:33 | `SELECT * FROM unlimited` gets no row limit, because the test is a plain substring test |
| `SqlRunnerUtils.UsersQueryGetsLimit` | backend/sqlcompiler/sqlrunner/utils.py:32-34 | `SELECT * FROM users` is one the rewrite applies to, kept whole before the clause |
| `SqlRunnerUtils.RewriteIsStripped` | backend/sqlcompiler/sqlrunner/utils.py:29-34 | the statement run never has surrounding whitespace |
| `SqlRunnerUtils.RewritePreservesReadOnly` | backend/sqlcompiler/sqlrunner/utils.py:32-39 | the rewritten text classifies as the original text, so the test at line 39 agrees with the one at line 32 |
| `SqlRunnerUtils.RewriteMentionsLimit` | backend/sqlcompiler/sqlrunner/utils.py:32-34 | every read-only statement run mentions `limit` |
| `SqlRunnerUtils.RewriteIdempotent` | backend/sqlcompiler/sqlrunner/utils.py:29-34 | rewriting a rewritten statement, with any limit, changes nothing |
| `SqlRunnerUtils.ExecuteQuery` | backend/sqlcompiler/sqlrunner/utils.py:21-47 | `execute_query`, with the database as a parameter. It has no contract of its own; `SqlRunnerUtils.ExecuteReadOnly` and `SqlRunnerUtils.ExecuteNonReadOnly` state its two cases |
| `SqlRunnerUtils.ExecuteReadOnly` | backend/sqlcompiler/sqlrunner/utils.py:36-43 | a read-only statement returns exactly the rows and columns the database gives for the rewritten text, or its error |
| `SqlRunnerUtils.ExecuteNonReadOnly` | backend/sqlcompiler/sqlrunner/utils.py:36-47 | any other statement is sent stripped and returns two empty lists, or its error |
| `SqlRunnerUtils.BuildSchema` | backend/sqlcompiler/sqlrunner/utils.py:72-82 | one schema entry per PRAGMA row, in order, with `notnull` and `pk` turned into booleans by `!= 0` and the other fields copied |
| `SqlRunnerUtils.PragmaStatement` | backend/sqlcompiler/sqlrunner/utils.py:67 | the schema query is `PRAGMA table_info(`, the table name as given (not quoted), then `);` |
| `SqlRunnerUtils.NotFoundMessage` | backend/sqlcompiler/sqlrunner/utils.py:70 | the not-found text is `Table '`, the table name, then `' not found` |
| `SqlRunnerUtils.SampleStatement` | backend/sqlcompiler/sqlrunner/utils.py:85 | the sample query is `SELECT * FROM `, the table name as given, then ` LIMIT `, the limit in decimal and `;` |
| `SqlRunnerUtils.TableSchemaAndSamples` | backend/sqlcompiler/sqlrunner/utils.py:67-87 | if the PRAGMA gives rows and the sample query succeeds, the result is exactly the converted schema with those rows. A failure of either query is a `DatabaseError` with its text. The only `ValueError` is "Table 'name' not found", raised exactly when the PRAGMA gives no rows |
| `SqlRunnerUtils.NotFoundBeforeSamples` | backend/sqlcompiler/sqlrunner/utils.py:67-70 | a table the PRAGMA does not know is reported missing, whatever the sample query would do |
| `SqlRunnerViews.ExecuteQueryPost` | backend/sqlcompiler/sqlrunner/views.py:15-37 | status is 200, 400 or 403; a missing or empty `query` gives 400 with its message; 403 exactly when non-SELECT statements are not allowed and the text is not read-only |
| `SqlRunnerViews.AllowNonSelect` | backend/sqlcompiler/sqlrunner/views.py:20 | the `ALLOW_NON_SELECT_QUERIES` setting, false when it is not defined |
| `SqlRunnerViews.RowLimit` | backend/sqlcompiler/sqlrunner/views.py:28 | the `QUERY_ROW_LIMIT` setting, 1000 when it is not defined |
| `SqlRunnerViews.ExecuteQueryRows` | backend/sqlcompiler/sqlrunner/views.py:24-32 | a rows body is given exactly for a read-only query the database answers, and it is that answer to the rewritten text |
| `SqlRunnerViews.ExecuteQueryMessage` | backend/sqlcompiler/sqlrunner/views.py:20-34 | the success message is given exactly for an allowed, not read-only statement that the database completes |
| `SqlRunnerViews.ExecuteQueryFailure` | backend/sqlcompiler/sqlrunner/views.py:24-37 | a database error after the guards gives 400 with the error's text |
| `SqlRunnerViews.GuardsPrecedeDatabase` | backend/sqlcompiler/sqlrunner/views.py:16-22 | the 400 for a missing query and the 403 do not depend on the database |
| `SqlRunnerViews.DefaultForbidsNonSelect` | backend/sqlcompiler/sqlrunner/views.py:20-22 | with no settings, a blank or non-SELECT query is forbidden |
| `SqlRunnerViews.DefaultSelectGetsRowLimit` | backend/sqlcompiler/sqlrunner/views.py:25-32 | with no settings, a SELECT without `limit` is sent with ` LIMIT 1000;` in place of its trailing semicolons, and its answer is returned |
| `SqlRunnerViews.ListTablesGet` | backend/sqlcompiler/sqlrunner/views.py:42-47 | 200 with the table list exactly when listing succeeds; otherwise 500 with the error text |
| `SqlRunnerViews.TableDetailGet` | backend/sqlcompiler/sqlrunner/views.py:52-64 | the status is 200, 404 or 500, and it is 200 exactly when the body is a table detail |
| `SqlRunnerViews.SampleLimit` | backend/sqlcompiler/sqlrunner/views.py:54 | without a parameter: always accepted, with the `TABLE_SAMPLE_LIMIT` setting or else 10. With a parameter: accepted exactly when `int()` parses it, giving that value. Every failure is a `ValueError` |
| `SqlRunnerViews.InvalidIntMessage` | backend/sqlcompiler/sqlrunner/views.py:54-62 | the text of the `ValueError` that `int()` raises, `invalid literal for int() with base 10: '…'`, carrying the rejected text |
| `SqlRunnerViews.ErrorStatus` | backend/sqlcompiler/sqlrunner/views.py:61-64 | a `ValueError` maps to 404 and any other exception to 500, each in both directions |
| `SqlRunnerViews.TableDetailResponses` | backend/sqlcompiler/sqlrunner/views.py:54-64 | once the limit is known: both queries succeed gives 200 with the converted schema and the sample rows; no PRAGMA rows gives 404 with "Table '…' not found"; either query failing gives 500 with its error text |
| `SqlRunnerViews.TableDetailNotFound` | backend/sqlcompiler/sqlrunner/views.py:54-62 | 404 exactly when `int()` rejects the limit or the PRAGMA gives no rows: both are `ValueError`s |
| `SqlRunnerViews.TableDetailFound` | backend/sqlcompiler/sqlrunner/views.py:54-60 | a 200 carries the converted PRAGMA rows and the rows of the sample query at the resolved limit |
| `SqlRunnerViews.BadLimitIsNotFound` | backend/sqlcompiler/sqlrunner/views.py:54-62 | an unparsable limit is a 404 naming it, whatever the database holds |
| `SqlRunnerViews.DefaultSampleLimitIsTen` | backend/sqlcompiler/sqlrunner/views.py:54 | without a parameter or a setting, the limit is 10, the same as passing `limit=10` |
| `SqlRunnerViews.PageLimitParses` | backend/sqlcompiler/sqlrunner/views.py:54 | the text `5` gives the limit 5 |
| `SqlRunnerViews.PaddedLimitParses` | backend/sqlcompiler/sqlrunner/views.py:54 | `int()` accepts blanks around the digits |
| `SqlRunnerViews.WordLimitIsNotFound` | backend/sqlcompiler/sqlrunner/views.py:54 | `five` is rejected with Python's `invalid literal` message |
| `Records.Lookup` | Frontend/SqlCompilr/src/App.jsx:246 | `row[column]` is defined exactly when some cell has that name, and it is the first such cell's value |
| `Records.Keys` | Frontend/SqlCompilr/src/App.jsx:154 | `Object.keys(row)`: one key per cell, the column names in cell order (see "Left out" on the order) |
| `Records.Values` | Frontend/SqlCompilr/src/App.jsx:162 | `Object.values(row)`: one value per cell, in cell order (see "Left out" on the order) |
| `Records.LookupOfDistinct` | Frontend/SqlCompilr/src/App.jsx:246 | in a row with distinct names, looking up a cell's name gives that cell's value |
| `App.AppendTableName` | Frontend/SqlCompilr/src/App.jsx:86-88 | the old text is a prefix and the name a suffix; ", " separates them exactly when the old text was not empty |
| `App.InsertTwoNames` | Frontend/SqlCompilr/src/App.jsx:86-88 | inserting two names into an empty editor gives `a, b` |
| `App.Truthy` | Frontend/SqlCompilr/src/App.jsx:57-63 | JavaScript truthiness of an optional string, as in `x || y` and `if (x)`. It is a predicate without a contract; `App.ResultsOf`, `App.ExecErrorText` and `App.DetailErrorText` state what each use of it decides |
| `App.ResultsOf` | Frontend/SqlCompilr/src/App.jsx:57-61 | the message alone is kept exactly when it is truthy; otherwise the whole body is kept |
| `App.ExecErrorText` | Frontend/SqlCompilr/src/App.jsx:63 | the service's error when it is truthy, else exactly "Error executing query" |
| `App.DetailErrorText` | Frontend/SqlCompilr/src/App.jsx:78-82 | the fixed prefix followed by the service's error, or else the client's message |
| `App.Session.Valid` | Frontend/SqlCompilr/src/App.jsx:6-15 | the invariant every method keeps (see "Session invariant" below). It is a predicate without a contract of its own; each method's `ensures Valid()` states it |
| `App.Session.constructor` | Frontend/SqlCompilr/src/App.jsx:6-15 | the initial state |
| `App.Session.ExecuteQuery` | Frontend/SqlCompilr/src/App.jsx:39-55 | a blank editor only sets the "Please enter a SQL query" error and sends nothing. Otherwise it sets loading, clears error and results, stores the trimmed text as last query and sends exactly it. The editor, tables, selection and popup are unchanged |
| `App.Session.CompleteExecuteQuery` | Frontend/SqlCompilr/src/App.jsx:56-66 | success stores `ResultsOf(body)`; failure keeps results null and sets the error text; loading ends; last query and the rest are unchanged |
| `App.Session.FetchTableDetails` | Frontend/SqlCompilr/src/App.jsx:69-73 | requests the named table with `limit=5` |
| `App.Session.CompleteFetchTableDetails` | Frontend/SqlCompilr/src/App.jsx:74-84 | success sets schema and samples from the response and selects the requested name; failure only sets the prefixed error banner |
| `App.Session.CompleteFetchTables` | Frontend/SqlCompilr/src/App.jsx:24-37 | success replaces the table list, and, when no table is selected (null or empty), hands back the first one for its details to be fetched; failure changes nothing |
| `App.Session.InsertTableName` | Frontend/SqlCompilr/src/App.jsx:86-88 | only the editor changes, to `AppendTableName(old, name)`. The handler is defined but no element of the page calls it |
| `App.Session.ClearQuery` | Frontend/SqlCompilr/src/App.jsx:90-94 | editor empty, results null, error empty; only those three fields are in its frame |
| `App.Session.EditQuery` | Frontend/SqlCompilr/src/App.jsx:204-206 | the textarea only replaces the editor text |
| `App.Session.ShowLastQuery` | Frontend/SqlCompilr/src/App.jsx:190-193 | opens the popup unless there is no last query, in which case the disabled button does nothing |
| `App.Session.ShowLastQueryDisabled` | Frontend/SqlCompilr/src/App.jsx:193 | `disabled={!lastQuery}`. It has no contract of its own; `App.Session.ShowLastQuery` states that the popup opens exactly when the last query is not empty |
| `App.Session.UseLastQuery` | Frontend/SqlCompilr/src/App.jsx:282-285 | copies the last query into the editor and closes the popup; nothing else |
| `App.Session.CloseLastQueryPopup` | Frontend/SqlCompilr/src/App.jsx:262-264 | the overlay, the close buttons (lines 270-271 and 289-291) only close the popup |
| `App.RenderResults` | Frontend/SqlCompilr/src/App.jsx:220-255 | no section without results; the success line exactly when the message is truthy; otherwise a grid whose header is the columns, whose counts are the lengths, and whose cell (i, j) is `row[column]` |
| `App.RenderSchema` | Frontend/SqlCompilr/src/App.jsx:136-142 | one entry per schema column: its name, its type, and the PK badge exactly for primary keys |
| `App.RenderSamples` | Frontend/SqlCompilr/src/App.jsx:147-170 | header = the keys of the first sample, or none; one body row per sample with that row's own values |
| `App.RenderDetailPanel` | Frontend/SqlCompilr/src/App.jsx:129-173 | the panel is shown exactly while the selected table is truthy, titled with it, with schema and samples shown exactly when loaded |
| `App.RenderTableList` | Frontend/SqlCompilr/src/App.jsx:111-122 | one entry per table, in order, active exactly for the selected table |
| `App.AtMostOneActive` | Frontend/SqlCompilr/src/App.jsx:114-116 | with distinct names, at most one entry is active |
| `App.ExecDataOf` | Frontend/SqlCompilr/src/App.jsx:57-61 | a rows body is read as columns and rows without message; a message body as the message alone |
| `App.ServiceError` | Frontend/SqlCompilr/src/App.jsx:63-80 | `err.response?.data?.error`: present exactly for an error body, and then its text |
| `App.ExecOutcomeOf` | Frontend/SqlCompilr/src/App.jsx:52-63 | the request resolves exactly for a 2xx status |
| `App.DetailOutcomeOf` | Frontend/SqlCompilr/src/App.jsx:70-80 | a 200 detail body resolves with its schema and samples; a non-2xx status rejects with the service's error |
| `App.SentQueryIsNeverMissing` | Frontend/SqlCompilr/src/App.jsx:40-55 | the page only posts non-blank text, so a 400 it receives always carries a database error |
| `App.ForbiddenQueryShowsError` | Frontend/SqlCompilr/src/App.jsx:62-63 | with the default settings, a non-SELECT query ends as the "Only SELECT queries" banner |
| `App.SelectShownAsGrid` | Frontend/SqlCompilr/src/App.jsx:52-61 | a SELECT the database answers is shown as a grid of exactly its columns and its number of rows |
| `App.StatementShownAsMessage` | Frontend/SqlCompilr/src/App.jsx:57-58 | an allowed non-SELECT statement that completes is shown as "Query executed successfully" |
| `App.RowsShownInPlace` | Frontend/SqlCompilr/src/App.jsx:243-249 | when rows carry the columns in header order, cell (i, j) shows value j of row i |
| `App.SampleCellsUnderTheirHeader` | Frontend/SqlCompilr/src/App.jsx:154-166 | when all samples have the first sample's distinct names, each cell sits under its own column name |
| `App.SchemaShownFromPragma` | Frontend/SqlCompilr/src/App.jsx:136-142 | the list shows each PRAGMA row's name and type, with PK exactly where `pk != 0` |
| `App.PageRequestsFiveSamples` | Frontend/SqlCompilr/src/App.jsx:71-73 | the page's request makes the service fetch five samples, and a 404 means exactly an unknown table |
| `App.MessageOrTable` | Frontend/SqlCompilr/src/App.jsx:223-253 | a truthy message is never shown as a table, and anything else is never shown as a message |
| `App.FruitsExample` | Frontend/SqlCompilr/src/App.jsx:229-251 | one fruit row with three columns is shown as one row of three cells in header order |
| `App.SelectedTablePanel` | Frontend/SqlCompilr/src/App.jsx:129-171 | after a selection, the panel shows the name and one body row per sample returned |

## Session invariant

`App.Session.Valid()` states what every handler keeps:

- the last query is stored trimmed;
- while a query is executing, there are no results and the last query is not empty;
- the popup is open only over a non-empty last query.

## Left out

- SQLite itself is not modelled. This covers connecting, `cursor.execute`, `fetchall`, `description`, `commit` and `close`. It is I/O through a foreign library, so each statement's outcome is a parameter. `list_tables` (utils.py lines 51-59) is a single database call and is modelled only as its outcome in `SqlRunnerViews.ListTablesGet`.
- For a read-only statement, line 41 builds the column list from `cur.description`, or `[]` when there is none. Column names arrive as the database's answer, so that expression is inside the parameter.
- `dict(row)` on a row whose column names repeat, ignoring ASCII case, is not modelled: rows are ordered cell lists holding the database's values. In the code, `sqlite3.Row` looks a name up by the first column that matches it case-insensitively. So every duplicate gets the first duplicate's value: `SELECT 1 AS x, 2 AS X` gives `{'x': 1, 'X': 1}`. The page's `row[column]` is read as the first match.
- Django, the REST framework plumbing, `urls.py` and `DB_PATH` are not modelled: they are routing and configuration. The settings are the three optional fields of `SqlRunnerViews.Settings`.
- The HTTP client, the network and concurrency are not modelled. A request is a begin step and a completion step. Completions of overlapping requests in arbitrary order are not modelled: the execute button is disabled while loading, so `App.Session.CompleteExecuteQuery` requires `loading`.
- The JSX markup, the CSS classes and `console.error` are not modelled. The render maps are modelled as data: which items, in which order, with which values.
- App.RenderSamples: the header and cells are taken in the row's column order. `Object.keys` and `Object.values` on the parsed JSON object put integer-like keys first (`"1"`, `"2024"`, ascending), then the other keys in insertion order. So for a sample `{"name": "a", "1": 5}` the page's header is `["1", "name"]`, where the model gives `["name", "1"]`. The two orders agree when no column name is a canonical array index.
- App.Session.InsertTableName: `insertTableName` (App.jsx lines 86-88) is defined, but no element of the page is bound to it, so no user action reaches it. It is modelled as written.
- App.Session.FetchTableDetails: `fetchTableDetails` (App.jsx line 72) puts the table name into the URL path without encoding it. The model lets the service receive the name verbatim with `limit=5`, and so does `App.PageRequestsFiveSamples`. A name holding `/`, `?` or `#` changes the path or the `limit` parameter the service sees; that is not modelled.
- Unicode whitespace and case folding are not modelled. Python's `strip`, `split` and `lower` and JavaScript's `trim` are modelled on one ASCII whitespace set (space, tab, line feed, vertical tab, form feed, carriage return) and ASCII letters. Python's `strip` also removes the \x1c–\x1f separators and Unicode spaces, and JavaScript's `trim` removes the no-break space and others.
- `SqlRunnerViews.SampleLimit`: `int()` is modelled on ASCII digits with optional sign, underscores between digits and surrounding whitespace. Other Unicode digits are not modelled, and neither is the 4300-digit limit on conversions. The error text is quoted with plain quotes, not `repr` escaping.
- A `query` that is not a string (a number, a list) in the JSON body is not modelled. `request.data.get('query')` is an `Option<string>`.
- Floating-point and blob values are not modelled: cell values are null, integers and text.
- The SQL built from the table name by string formatting is not modelled as a security property. The model only states which text is sent.
- Table names that are not distinct, in `App.AtMostOneActive`: the lemma assumes they are distinct, as SQLite guarantees for `sqlite_master`.
- Sample sizes: the service defaults to 10 (`SqlRunnerViews.DefaultSampleLimitIsTen`), and the page always asks for 5 (`App.PageRequestsFiveSamples`).
