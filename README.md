# HH data collector: a verified model of its core

The collector asks the hh.ru API for employers and their vacancies and stores them in two PostgreSQL tables. It then answers five reporting queries over those tables. This project models that core in Dafny:

- **Salary extraction.** `safe_get_salary` (src/services.py) is modelled in `services.dfy`. It returns the `(from, to, currency)` triple of a vacancy, with None wherever the vacancy says nothing.
- **Paging client.** `HHApi.get_companies` and `HHApi.get_vacancies_for_company` (src/hh_api.py) are modelled in `hh_api.dfy`. The HTTP session is replaced by the fixed sequence of replies the service gives for one query:
  - `remote[k]` is the decoded body of the reply to page `k`, or None when that request raised `RequestException`;
  - a request past the end of the sequence fails as well.

  Both methods are imperative loops proved against a specification function of the page stream. Both report, as a ghost result, the pages they request.
- **Database store.** `DBManager` (src/db_manager.py) is modelled in `db_manager.dfy` as a class with two maps, `companies` and `vacancies`, keyed by `company_id` and `vacancy_id`:
  - the two upserts are methods that reassign those maps;
  - the five SELECT statements are functions of the maps. They model the inner joins, the `COALESCE` midpoint, `AVG`, the strict `>` filter, `ILIKE` on every word and the `ORDER BY` clauses.
- **Shared helpers.** `pyjson.dfy` models the Python values a decoded JSON document holds, and the operations the code applies to them: truthiness, `dict.get`, `d[key]` and `int(x)`. A raised exception is an `Err` value. `collections.dfy` holds `xs[:n]`, ascending key order and a descending sort. `text.dfy` holds `str.split()` and a case-insensitive substring test.

Where the code and its documentation disagree, the model follows the code:

- The count query joins with an inner `JOIN`, so companies without vacancies are not listed, although the docstring promises every company.
- An empty or blank keyword string leaves an empty `WHERE`, which PostgreSQL refuses, although the docstring suggests a search.
- On conflict, `upsert_vacancy` keeps the stored `company_id`.

## Model

| member | source | states |
|---|---|---|
| Services.SafeGetSalary | src/services.py:1-5 | succeeds exactly when the argument is a dict whose "salary" entry is falsy or a dict; `.get` on anything else raises AttributeError |
| Services.AbsentSalaryIsEmpty | src/services.py:2-4 | a vacancy without "salary", or with None there, yields (None, None, None) |
| Services.EmptySalaryIsEmpty | src/services.py:3-4 | an empty salary mapping yields (None, None, None) |
| Services.NonEmptySalaryComponents | src/services.py:5 | for a non-empty salary mapping, each component is that mapping's own "from"/"to"/"currency" entry or None, independently of the others |
| Services.SafeGetSalaryIsLookup | src/services.py:2-5 | the early return agrees with plain lookup: the result is the three lookups on the salary mapping, read as empty when it is absent or None |
| Services.OnlySalaryEntryMatters | src/services.py:1-5 | the result depends on the vacancy only through its "salary" entry |
| PyJson.Truthy | src/services.py:3 | `bool(x)`: false exactly for None, False, zero, the empty string, the empty list and the empty dict |
| PyJson.Get | src/services.py:2 | `x.get(key)` succeeds exactly on a dict, giving the entry or None |
| PyJson.Index | src/hh_api.py:75 | `x[key]` succeeds exactly on a dict holding the key, giving its entry; a dict without it raises KeyError |
| PyJson.ToInt | src/hh_api.py:75 | `int(x)`: integers unchanged, decimal strings parsed, None and containers raise TypeError |
| PyJson.IntOfDecimalString | src/hh_api.py:75 | `int(str(n)) == n`: an id sent as its decimal spelling converts back to the same integer |
| Collections.Take | src/hh_api.py:83 | `xs[:n]` is a prefix of length min(len(xs), n) |
| Collections.SortedInts | src/db_manager.py:118 | `ORDER BY id`: every key exactly once, strictly ascending |
| Collections.SortByDesc | src/db_manager.py:94 | `ORDER BY ... DESC`: a permutation of its input with non-increasing key |
| Text.Words | src/db_manager.py:172 | `str.split()` yields at most one word per character, each non-empty and free of separators (ASCII 9-13, 28-31 and 32); where the words lie is stated by `Text.WordsAtStarts` |
| Text.WordsSplitAtSpaces | src/db_manager.py:172 | the words, in order, spell the input with its separators removed |
| Text.WordsAtStarts | src/db_manager.py:172 | the words are whole runs of the input, each bounded by separators or the ends of the string, at strictly increasing positions |
| Text.WordsAreMaximalRuns | src/db_manager.py:172 | every word is a maximal run of the input, never split inside a run, and the words occur in the input's order; with `Text.WordsSplitAtSpaces` this leaves only one possible split |
| Text.NoWordsIffBlank | src/db_manager.py:172 | the split is empty exactly when the string is blank |
| Text.ContainsCaseless | src/db_manager.py:173-189 | `name ILIKE '%word%'`: a word longer than the name never matches; the empty word matches every name |
| Text.ContainsCaselessIffMatchAt | src/db_manager.py:173-189 | the word matches exactly when, at some position of the name, each of its letters equals the name's letter up to case |
| Text.ContainsCaselessIgnoresCase | src/db_manager.py:173-189 | names, and words, that differ only in case get the same answer |
| Text.LowerStringIdempotent | src/db_manager.py:173-189 | folding case twice folds no further |
| Text.ContainsCaselessOfFolded | src/db_manager.py:173-189 | folding the name or the word first does not change the answer |
| Text.CaselessExample | src/db_manager.py:170-171 | "PYTHON" is found in "Senior python developer" |
| HhApi.Fetch | src/hh_api.py:65-70 | only requests inside the fixed reply sequence can succeed |
| HhApi.PageStream | src/hh_api.py:64-81 | the items of the pages from `page` on; nothing when `page` lies past the replies or its request fails |
| HhApi.StreamStopsAt | src/hh_api.py:79-81 | paging stops at the first failed request or at the page with `page >= pages - 1`; later replies are never seen |
| HhApi.HasOpenVacancies | src/hh_api.py:73 | a missing "open_vacancies" counts as 0; an integer count is tested with `> 0`; a non-dict item raises AttributeError |
| HhApi.EmployerOf | src/hh_api.py:73-75 | an item is appended exactly when it has open vacancies, and then with `id = int(item["id"])` and `name = item["name"]` |
| HhApi.Kept | src/hh_api.py:72-75 | the filtered rows are never more than the items |
| HhApi.TakeEmployers | src/hh_api.py:72-78 | the inner loop never holds more rows than its room |
| HhApi.KeptFromOpenItems | src/hh_api.py:73-75 | every kept row is the row of an item with open vacancies |
| HhApi.SkippedItem | src/hh_api.py:73 | an item with zero or absent open vacancies contributes nothing |
| HhApi.TakeEmployersIsPrefix | src/hh_api.py:72-78 | the rows held are the first `room` rows of the filtered stream, in page order then item order |
| HhApi.TakeEmployersTotal | src/hh_api.py:72-78 | when every item is well-formed, no exception escapes |
| HhApi.CompaniesAreFilteredPrefix | src/hh_api.py:72-83 | the companies returned are the first 15 filtered rows of the page stream, each from an item with open vacancies |
| HhApi.CompaniesExample | tests/test_hh_API.py:16-36 | companies 1, 2, 3 with 5, 0, 10 open vacancies yield companies 1 and 3 |
| HhApi.EmptyPageExample | tests/test_hh_API.py:67-87 | an empty last page yields no companies and no vacancies |
| HhApi.ScanEmployers | src/hh_api.py:72-78 | the `for` loop over one page leaves what the stream specification predicts, or raises what it predicts |
| HhApi.CompaniesPage | src/hh_api.py:64-82 | one pass of the `while` loop: a failed request or the last page stops it, and otherwise it goes on to the next page; the rows held afterwards account for the same stream specification |
| HhApi.GetCompanies | src/hh_api.py:48-83 | the result is the capped filtered page stream; pages 0, 1, 2, ... are requested without gaps; every page but the last requested one continued paging; when paging could have continued, exactly 15 companies are held |
| HhApi.VacancyRowOf | src/hh_api.py:106-120 | a row has `vacancy_id = int(v["id"])`, the requested `company_id`, `name` copied and `url = v["alternate_url"]` |
| HhApi.VacancyRows | src/hh_api.py:105-120 | when every item converts, one row per item, each carrying the requested employer id |
| HhApi.VacancyRowsOnePerItem | src/hh_api.py:105-120 | one row per item, in order, each carrying the requested employer id; the rows exist exactly when every item converts |
| HhApi.ScanVacancies | src/hh_api.py:105-120 | the `for` loop over one page appends one row per item, or raises what the stream specification predicts |
| HhApi.VacanciesPage | src/hh_api.py:96-123 | one pass of the `while` loop: stops at a failed request or the last page, and otherwise goes on to the next page |
| HhApi.GetVacanciesForCompany | src/hh_api.py:85-124 | the result is one row per item of the page stream; pages are requested without gaps; paging ends at a failed request or the last page |
| HhApi.IntendedVacancyRowOf | src/hh_api.py:106-120 | the row with the salary read from the vacancy itself: same id, company, name and url |
| HhApi.IntendedRowKeepsSalary | src/services.py:2-5 | the intended row's salary columns are the plain lookups on the vacancy's salary record |
| HhApi.AsWrittenDropsSalary | src/hh_api.py:106 | as written, a real salary record yields empty salary columns |
| HhApi.AsWrittenFailsOnNullSalary | src/hh_api.py:106 | as written, an absent or null salary raises AttributeError |
| HhApi.AsWrittenVacancyExample | src/hh_api.py:106 | for a test vacancy with salary 100000-150000 RUR, the as-written row has no salary and the intended row has it |
| DbManager.AreaName | src/db_manager.py:44 | `x.get("area", {}).get("name") if x.get("area") else None`: None for a falsy area, the area's name for a mapping, AttributeError otherwise |
| DbManager.CompanyArgsOf | src/db_manager.py:44 | the statement parameters: `company["id"]` first (KeyError when missing), then name, area name and site_url |
| DbManager.VacancyArgsOf | src/db_manager.py:49-52 | the statement parameters: `vacancy["id"]`, the given company id, name, area name and alternate_url |
| DbManager.CompanyColumns | src/db_manager.py:34-44 | a NULL key is refused; the row is written exactly when every column converts, and then holds the converted name, area name and url under the converted key |
| DbManager.VacancyColumns | src/db_manager.py:53-79 | a NULL key is refused; the row is written exactly when every column converts, and then holds, under the converted key, the given company id and the converted name, description, salary, area name and url columns |
| DbManager.KeyColumn | src/db_manager.py:44 | an integer is stored as itself (the same binding of `vacancy["id"]` is at line 70); None is refused by the key column; a string is accepted exactly when it spells an integer, and then gives the integer Python's `int()` gives |
| DbManager.KeyOfDecimalString | tests/test_hh_API.py:22 | an id the service sends as the decimal spelling of `n` (as in `"id": "1"`) is stored under the key `n` |
| DbManager.IntColumn | src/db_manager.py:74-75 | None is NULL, an integer is stored as itself, and a string is accepted exactly when it spells an integer |
| DbManager.TextColumn | src/db_manager.py:72-78 | None is NULL and a string is stored as itself |
| DbManager.UpsertCompanyInto | src/db_manager.py:34-44 | after the upsert, key `id` holds (name, area name, url); the keys are the old ones plus `id`; every other row is unchanged; it fails exactly when the record does |
| DbManager.UpsertVacancyInto | src/db_manager.py:53-79 | after the upsert, key `id` holds the new columns, with the stored `company_id` kept on conflict; the keys are the old ones plus `id`; every other row is unchanged |
| DbManager.UpsertCompanyIdempotent | src/db_manager.py:34-44 | repeating an upsert changes nothing |
| DbManager.UpsertCompanyOverwrites | src/db_manager.py:37-40 | a later upsert of the same id overwrites all three non-key fields |
| DbManager.UpsertCompanyWithoutId | src/db_manager.py:44 | a record without "id" fails with KeyError before any write |
| DbManager.UpsertVacancyIdempotent | src/db_manager.py:56-63 | repeating an upsert changes nothing, even under another company id |
| DbManager.UpsertVacancySalaryIsSafeGetSalary | src/db_manager.py:49-52 | the salary columns written are the triple `safe_get_salary` extracts from the same vacancy |
| DbManager.UpsertVacancyDescription | src/db_manager.py:65 | the description is `snippet.responsibility` when truthy, else the name |
| DbManager.DBManager.constructor | src/db_manager.py:12-13 | a manager over tables holding the given rows |
| DbManager.DBManager.UpsertCompany | src/db_manager.py:32-45 | the companies table becomes the upserted one; on an exception both tables are unchanged; vacancies are never touched |
| DbManager.DBManager.UpsertVacancy | src/db_manager.py:47-80 | the vacancies table becomes the upserted one; on an exception both tables are unchanged; companies are never touched |
| DbManager.RowsById | src/db_manager.py:116-118 | the joined rows of a set of vacancies, each exactly once, by strictly ascending id |
| DbManager.VacancyCount | src/db_manager.py:88-93 | `COUNT(v.vacancy_id)` of a company is positive exactly when some vacancy is filed under it |
| DbManager.CountRowsById | src/db_manager.py:88-93 | one row per company with a vacancy, carrying its name and vacancy count |
| DbManager.CompaniesAndVacanciesCount | src/db_manager.py:84-99 | one row per company with at least one vacancy; zero-vacancy companies are absent; each count is the number of its vacancies; rows by non-increasing count |
| DbManager.AllVacancies | src/db_manager.py:101-123 | exactly the vacancies whose company is stored, joined with the company name, by strictly ascending vacancy id |
| DbManager.Coalesce | src/db_manager.py:132 | `COALESCE(a, b)` is NULL exactly when both are; otherwise it is `a` when `a` is not NULL, else `b` |
| DbManager.Midpoint | src/db_manager.py:132 | the midpoint is NULL exactly when both bounds are |
| DbManager.MidpointOfBounds | src/db_manager.py:132 | a lone bound counts as both bounds; with two bounds the midpoint is their mean and lies between them |
| DbManager.Count | src/db_manager.py:132-134 | `AVG` counts at most one value per row |
| DbManager.SumOfNulls | src/db_manager.py:132-134 | the sum `AVG` divides ignores NULLs: values that are all NULL add up to nothing |
| DbManager.CountZero | src/db_manager.py:132-134 | `AVG` counts nothing exactly when every value is NULL |
| DbManager.Avg | src/db_manager.py:132-134 | `AVG` is NULL exactly when every value is NULL |
| DbManager.ExcessIsSumLessCount | src/db_manager.py:132-134 | the total excess of the values over `a` is their sum less `count * a` |
| DbManager.AvgHasNoExcess | src/db_manager.py:132-134 | the values exceed their mean by nothing in total |
| DbManager.AvgWithinValues | src/db_manager.py:132-134 | the mean is at least one value and at most another |
| DbManager.AllNullInListing | src/db_manager.py:132-134 | over a listing of every vacancy, all midpoints are NULL exactly when every vacancy lacks a bound |
| DbManager.AvgSalary | src/db_manager.py:125-140 | None exactly when no vacancy has a salary bound |
| DbManager.AvgWithinMidpoints | src/db_manager.py:132-134 | when some vacancy has a salary bound, the average lies between the least and the greatest midpoint |
| DbManager.VacanciesWithHigherSalary | src/db_manager.py:142-167 | [] when there is no average; otherwise exactly the joined vacancies with a midpoint strictly above it, each listed once, with that midpoint, by non-increasing midpoint; bound-less vacancies never appear |
| DbManager.HigherSalaryLeavesOneOut | src/db_manager.py:145-160 | when some vacancy has a salary bound (so there is an average), some vacancy with a salary is not listed |
| DbManager.VacanciesWithKeywords | src/db_manager.py:169-194 | a blank string raises the SQL error; otherwise exactly the joined vacancies whose name contains every word ignoring case, by strictly ascending id |
| DbManager.MatchesAll | src/db_manager.py:173-189 | a NULL name matches no condition; a name that matches every word is at least as long as each word |
| DbManager.KeywordsNarrow | src/db_manager.py:172-189 | adding words never adds rows |

## Left out

- The HTTP session, the request parameters, the User-Agent header and timeouts: the replies are a parameter. The query text and the area select which replies the service gives.
- Printing an error message when a request fails.
- A reply body that is not an object, "items" that is not a list, and "pages" that is not an integer. The reply is typed as a `Page`, with absent keys defaulted as in the code.
- `int()`, and PostgreSQL's reading of a string bound to an integer column, on strings with surrounding blanks or `_` between digits: the model accepts only an optional sign followed by digits.
- Floats, lists and dicts bound to statement parameters: the model refuses them with `DataError`. PostgreSQL would store a float bound to a text column as its spelling and round a float bound to an integer column; a list is sent as an array, and a dict cannot be sent at all without a registered adapter.
- Connections, commits, `create_tables` and `_get_conn`. The tables' definition file is not part of this model, so there are no foreign keys, NOT NULL constraints or length limits beyond what the statements show.
- PostgreSQL numeric precision: midpoints and the average are exact reals, not rounded numerics.
- Ties under `ORDER BY ... DESC`: PostgreSQL leaves their order unspecified. The model picks one order and its contracts state only non-increasing keys.
- `ILIKE` wildcards `%` and `_` and its escape character `\` inside words: the model reads every word literally. Case folding covers ASCII letters only.
- Non-ASCII whitespace in `str.split()`: the separators modelled are the ASCII ones, codes 9-13, 28-31 and 32.
- `RealDictCursor` dictionaries: rows are datatypes with the selected columns.
- DbManager.DBManager query functions: each is the module-level query over its two maps and carries no contract of its own.

## Findings

| source | as written | input that shows it | evidently intended | confidence | as-written member | corrected member |
|---|---|---|---|---|---|---|
| src/hh_api.py:106 | `safe_get_salary(v.get("salary"))` hands the salary record to a function that reads that record's own "salary" entry | item with `"salary": {"from": 100000, "to": 150000, "currency": "RUR"}` gives None, None, None; an item with `"salary": null` raises AttributeError | `safe_get_salary(v)`, the salary read from the vacancy, as `upsert_vacancy` does | high, not executed | HhApi.AsWrittenVacancyExample | HhApi.IntendedVacancyRowOf |

The paging method `HhApi.GetVacanciesForCompany` keeps the code as written. The intended salary reading is what the store uses: `DbManager.UpsertVacancySalaryIsSafeGetSalary` shows that `upsert_vacancy` writes the triple `safe_get_salary` extracts from the vacancy itself. `HhApi.IntendedRowKeepsSalary` proves the same of the corrected row.
