# fastapi_dream_core, modelled in Dafny

`fastapi_dream_core` is a toolkit for FastAPI services. Its core is made of:

- **Two generic repositories** over SQLModel/SQLAlchemy:
  - a single-session one (`fastapi_dream_core/base_repository.py`);
  - a session-factory one (`fastapi_dream_core/repository/base_repository.py`).
  Both sanitise caller filters against the model's attributes, and both filter, order, paginate, count, create, update and delete rows.
- **Pagination parameters and page objects** (`fastapi_dream_core/pagination.py`).
- **An in-memory TTL cache shared by every driver instance** (`cache_driver/in_memory_driver.py`).
- **A CSV text exporter for pydantic models** (`utils/csv_exporter.py`).
- **A readiness registry (`helpers/readiness.py`) and the `/ready` and `/alive` decisions that use it** (`routes/health/health_router.py`).
- **Environment-driven settings** (`environments.py`).

The Dafny modules follow that structure:

| module | file | models |
|---|---|---|
| `Wrappers` | wrappers.dfy | `Option`, and `Result` with the exceptions the core raises |
| `Text` | text.dfy | Python string operations the core uses (see below) |
| `Orm` | orm.dfy | the database as an in-memory table (see below) |
| `Queries` | queries.dfy | the query results the repositories return, the update merge, and their properties |
| `Pagination` | pagination.dfy | `Params`, `get_offset`, `_create_params`, `PaginationResult`, `Page.create` |
| `CoreRepository` | core_repository.dfy | `fastapi_dream_core/base_repository.py` |
| `SessionRepository` | session_repository.dfy | `fastapi_dream_core/repository/base_repository.py` |
| `InMemoryCache` | cache.dfy | `InMemoryCacheDriver` and `CacheData` |
| `CsvExporter` | csv_exporter.dfy | `CSVExporter` |
| `Readiness` | readiness.dfy | `Readiness` |
| `HealthRouter` | health_router.dfy | the health router |
| `Environments` | environments.dfy | `AppBaseEnvironments`, `DatabaseEnvironments` |

Details for the two shared modules:

- `Text` covers:
  - `sorted` on strings;
  - `sep.join`, `split`, `in`;
  - `str.upper`;
  - `str(int)`.
- `Orm` models:
  - the database as an in-memory table: rows, an auto-increment id counter, and the `filter_by` / `order_by` / `offset` / `limit` / `first` / `count` primitives;
  - the caller's filter dict;
  - mapped objects.

The source works by changing state in these places, and the model keeps each as a Dafny class:

- the repositories: the caller's filter dict is edited in place, and mapped objects' attributes are set;
- the table behind the session;
- the cache's shared store;
- the readiness registry.

Each class method states its whole new state. It is also tied to a pure specification function, which the lemmas are about:

- `FindAll`, `Paginated`, `FindPage` and `FiltersOutcome` for queries;
- `Merged` for updates;
- `Lookup` and `AfterGet` for the cache;
- `CsvText` for the exporter;
- `Report` for readiness.

The pure parts are functions with lemmas:

- environments;
- pagination parameters;
- the filename and header logic of the exporter.

## Model

| member | source | states |
|---|---|---|
| Orm.Sanitized | fastapi_dream_core/base_repository.py:23-43 | the sanitised filters keep exactly the keys that name model attributes, with their values |
| Orm.FiltersOutcome | fastapi_dream_core/base_repository.py:51 | the call fails exactly when `filters` is a truthy non-dict, and the failure is the `ValueError`; a dict gives its sanitised entries, and falsy filters give `{}`; the applied keys are always attributes |
| Orm.FilterBy | fastapi_dream_core/base_repository.py:76 | `filter_by(**filters)`: the rows equal to every filter value, in table order; what it guarantees is stated by the four lemmas below |
| Orm.FilterByMembers | fastapi_dream_core/base_repository.py:76 | `filter_by` returns no more rows than the table holds, a row is returned exactly when it is in the table and equals every filter value, and no row is returned more often than the table holds it |
| Orm.FilterByAppend | fastapi_dream_core/base_repository.py:76 | filtering a table with a row added filters the old rows and then the new one |
| Orm.FilterByFirst | fastapi_dream_core/base_repository.py:52 | when row i matches and no earlier row does, `first()` of `filter_by` is row i: the query keeps table order |
| Orm.FilterByCount | fastapi_dream_core/base_repository.py:118-120 | `filter_by(...).count()` is the number of table positions whose row matches, so each matching row is returned once per copy the table holds |
| Orm.SortBy | fastapi_dream_core/base_repository.py:78-79 | `order_by` returns a permutation of its input that is ordered by the column, ascending or, under `desc`, descending |
| Orm.Insert | fastapi_dream_core/base_repository.py:79 | inserting into an ordered list keeps it ordered and adds exactly that row |
| Orm.InOrderTotal | fastapi_dream_core/base_repository.py:79 | any two rows are comparable on a column, in both directions |
| Orm.InOrderTransitive | fastapi_dream_core/base_repository.py:79 | the row order on a column is transitive |
| Orm.Ordered | fastapi_dream_core/base_repository.py:78-79 | `order_by` is applied only when `order` is an attribute of the model, and the rows are left as they are otherwise; its guarantees are stated by `Orm.SortBy` and `Queries.FindAllMatches` |
| Orm.Window | fastapi_dream_core/base_repository.py:82 | `offset(o).limit(n)` has `min(n, max(0, len - o))` rows, the i-th being row `o + i` |
| Orm.First | fastapi_dream_core/base_repository.py:52 | `first()` is `None` exactly on an empty result and otherwise the first row |
| Orm.RowFrom | fastapi_dream_core/base_repository.py:129 | `model(**payload)` has every column, holding the payload's value or NULL |
| Orm.AssignId | fastapi_dream_core/base_repository.py:130-132 | an insert stores an id unused by every row, and the counter moves past it. A NULL id takes the counter's value and succeeds exactly when no row holds that value. An explicit integer id is kept, succeeds exactly when no row holds it, and moves the counter to the larger of id + 1 and its old value. Every failure is an `IntegrityError`, and a text id always fails |
| Orm.NullIdTakesCounter | fastapi_dream_core/base_repository.py:130-132 | in a well-formed table an insert without an id always succeeds with the counter's value |
| Orm.ChangeId | fastapi_dream_core/base_repository.py:156-158 | rewriting a row with an integer id succeeds exactly when the id is the row's own or one no row holds. On success the counter becomes the larger of id + 1 and its old value. A non-integer id always fails, and every failure is an `IntegrityError` |
| Orm.ReplaceRow | fastapi_dream_core/base_repository.py:156-158 | the row with the given id is replaced and every other row is kept, in place |
| Orm.ReplaceRowKeeps | fastapi_dream_core/base_repository.py:156-158 | rewriting a row with a well-shaped row whose id is its own or unused keeps the ids distinct |
| Orm.RemoveRow | fastapi_dream_core/base_repository.py:167-168 | `session.delete(obj)`: drops the row holding the object's id and keeps the others in order; its guarantees are stated by `Orm.RemoveRowKeeps` and `Orm.RemoveRowAppend` |
| Orm.RemoveRowKeeps | fastapi_dream_core/base_repository.py:167-168 | deleting keeps exactly the rows with another id, and the table stays well formed |
| Orm.RemoveRowAppend | fastapi_dream_core/base_repository.py:167-168 | deleting from a table that has rows appended deletes from the old rows, then from the new ones, so the kept rows stay in table order |
| Orm.Table.Insert | fastapi_dream_core/base_repository.py:130-132 | add+commit+refresh stores the row with its assigned id, advances the counter and refreshes the object; on error nothing changes |
| Orm.Table.Save | fastapi_dream_core/base_repository.py:156-158 | storing a loaded object rewrites its row, or raises `StaleDataError` when its row was deleted by another session; on error nothing changes |
| Orm.Table.Delete | fastapi_dream_core/base_repository.py:167-168 | delete+commit removes the object's row and keeps the counter |
| Queries.FindAll | fastapi_dream_core/base_repository.py:99-105 | the `filter_by`, then conditional `order_by`, then `all()` chain; its guarantees are stated by `Queries.FindAllMatches` and the two lemmas after it |
| Queries.FindAllMatches | fastapi_dream_core/base_repository.py:99-105 | `find_all_by_filters` returns a permutation of the matches, ordered when `order` is an attribute and in table order otherwise |
| Queries.DescendingFirstIsGreatest | fastapi_dream_core/base_repository.py:102-103 | under `desc=True` the first row holds the greatest value of `order` among the matches |
| Queries.AscendingFirstIsLeast | fastapi_dream_core/base_repository.py:102-103 | under `desc=False` the first row holds the least value of `order` among the matches |
| Queries.Paginated | fastapi_dream_core/base_repository.py:76-84 | the page of `find_by_filters_paginated`: the `offset`/`limit` window of the ordered matches, with the count of all matches; its guarantees are stated by the lemmas below |
| Queries.PaginatedSizes | fastapi_dream_core/base_repository.py:76-84 | a page has `size` items while matches remain, the remainder on the last page, and none beyond it; the count is the number of all matches and ignores the window |
| Queries.FifteenMatchesInPagesOfTen | fastapi_dream_core/base_repository.py:81-84 | fifteen matches in pages of ten: 10 items, then 5, with a count of 15 both times |
| Queries.WindowsAdjoin | fastapi_dream_core/base_repository.py:82 | two adjacent windows are one window |
| Queries.PagesTile | fastapi_dream_core/base_repository.py:82 | pages 1..k together are exactly the first `k * size` ordered matches |
| Queries.PagesCoverAll | fastapi_dream_core/base_repository.py:82 | enough pages hold every ordered match once, in order |
| Queries.NoneMatch | fastapi_dream_core/base_repository.py:76 | when no row matches, the result is empty |
| Queries.NoMatchForAbsentId | fastapi_dream_core/base_repository.py:45-52 | looking up an id no row holds gives no match |
| Queries.FirstWithoutFilters | fastapi_dream_core/base_repository.py:45-52 | `get_one_by_filters()` with no filters returns the table's first row, or `None` for an empty table |
| Queries.FindInserted | fastapi_dream_core/base_repository.py:45-52 | after a row with a fresh id is added, `get_one_by_filters({'id': id})` finds exactly that row |
| Queries.CreateThenFind | fastapi_dream_core/base_repository.py:122-133 | the row `create` stores under the id it was given is the one row, and the `first()`, that `get_one_by_filters({'id': id})` returns afterwards |
| Queries.CountAfterRemove | fastapi_dream_core/base_repository.py:107-120 | after a delete, counting the deleted id gives 0 |
| Queries.CountById | fastapi_dream_core/base_repository.py:107-120 | in a well-formed table at most one row matches an id |
| Queries.Merged | fastapi_dream_core/base_repository.py:146-154 | each field of the object gets the payload's value when named there, else its own; no field is added |
| Queries.MergedIgnoresUnknownKeys | fastapi_dream_core/base_repository.py:152-154 | payload keys that are not fields of the object are ignored, and applying the same payload twice changes nothing more |
| Queries.ApplyUpdate | fastapi_dream_core/base_repository.py:152-154 | the `setattr` loop leaves the object's attributes equal to `Merged` of the old ones and the payload |
| Pagination.NewParams | fastapi_dream_core/pagination.py:18-20 | a `Params` exists exactly when page ≥ 1 and size ≥ 1, holding them; otherwise a validation error names each failing field |
| Pagination.GetOffset | fastapi_dream_core/pagination.py:22-23 | the offset is `(page - 1) * size`, which is 0 on page 1 |
| Pagination.OffsetsTile | fastapi_dream_core/pagination.py:22-23 | the next page starts exactly `size` rows after this one |
| Pagination.PageQuery.GetOffset | fastapi_dream_core/repository/base_repository.py:83 | `page_query.get_offset()` is `(page - 1) * size` |
| Pagination.CreateParams | fastapi_dream_core/pagination.py:26-36 | a non-`BaseModel` class and unknown field names are `ValueError`s with the source's messages; otherwise each field maps to its annotation and value |
| Pagination.UnknownFieldsMessage | fastapi_dream_core/pagination.py:30-33 | the names in ascending order, joined by ", ", after "Unknown field" with an "s" for more than one; its guarantees are stated by the two lemmas below |
| Pagination.UnknownFieldMessageSingle | fastapi_dream_core/pagination.py:30-33 | one unknown name is reported as "Unknown field <name>" |
| Pagination.UnknownFieldsMessagePair | fastapi_dream_core/pagination.py:30-33 | two unknown names are reported as "Unknown fields a, b" in ascending order |
| Pagination.CreatePage | fastapi_dream_core/pagination.py:77-90 | `Page.create` copies the items, the total, and the page and size of the parameters; a negative total is a validation error |
| Text.SortedList | fastapi_dream_core/pagination.py:30 | `sorted(set)` lists each element once, strictly ascending |
| Text.IntToString | fastapi_dream_core/utils/csv_exporter.py:39-40 | `str(int)` is the decimal digits of the integer's magnitude, with a leading '-' exactly for negatives |
| Text.IntToStringRoundTrip | fastapi_dream_core/utils/csv_exporter.py:39-40 | `int(str(i)) == i`: the text is an optionally signed digit string that reads back to i |
| Text.NatToStringRoundTrip | fastapi_dream_core/utils/csv_exporter.py:39-40 | reading back the digits of `str(n)` gives n |
| Text.SplitJoin | fastapi_dream_core/utils/csv_exporter.py:25 | joining pieces that do not hold the separator, then splitting, gives the pieces back |
| Text.JoinAppend | fastapi_dream_core/utils/csv_exporter.py:36-44 | writing a separator and one more piece after a join is the join with that piece |
| Text.ContainsIffOccurs | fastapi_dream_core/utils/csv_exporter.py:53 | `sub in s` holds exactly when `sub` occurs at some position |
| Text.Upper | fastapi_dream_core/environments.py:13 | `upper()` keeps the length and upper-cases each ASCII letter in place |
| CoreRepository.BaseRepository.SanitizeFiltersFromModel | fastapi_dream_core/base_repository.py:23-43 | a non-dict is a `ValueError` with the source's message; a dict is pruned in place to its attribute keys and returned |
| CoreRepository.BaseRepository.CheckFilters | fastapi_dream_core/base_repository.py:51 | the applied filters are `FiltersOutcome` of the dict's entries on entry, and the dict is left sanitised |
| CoreRepository.BaseRepository.GetOneByFilters | fastapi_dream_core/base_repository.py:45-52 | the first match under the applied filters, or the filter error |
| CoreRepository.BaseRepository.FindByFiltersPaginated | fastapi_dream_core/base_repository.py:54-84 | a non-`Params` argument is a `ValueError` that leaves the filters untouched; otherwise `Paginated` under the applied filters |
| CoreRepository.BaseRepository.FindAllByFilters | fastapi_dream_core/base_repository.py:86-105 | `FindAll` under the applied filters, or the filter error |
| CoreRepository.BaseRepository.CountByFilters | fastapi_dream_core/base_repository.py:107-120 | the number of matches under the applied filters, or the filter error |
| CoreRepository.BaseRepository.Create | fastapi_dream_core/base_repository.py:122-133 | a fresh object holding the payload's row with its assigned id is appended to the table, or the insert error leaves the table as it was |
| CoreRepository.BaseRepository.Update | fastapi_dream_core/base_repository.py:135-159 | the object's fields are `Merged` with the payload and its row is rewritten; a row deleted by another session while the merge changes a column raises `StaleDataError` |
| CoreRepository.BaseRepository.Delete | fastapi_dream_core/base_repository.py:161-168 | the object's row is removed and the counter kept |
| SessionRepository.FindPage | fastapi_dream_core/repository/base_repository.py:78-90 | the `Page` of the session repository: the window of the ordered matches at `page_query.get_offset()`, their total and the query's page and size; its guarantees are stated by `SessionRepository.FindPageAgrees` |
| SessionRepository.FindPageAgrees | fastapi_dream_core/repository/base_repository.py:78-90 | the page echoes page and size, and holds the same items and total as the single-session result for that page, at most `size` items |
| SessionRepository.BaseRepository.SanitizeFiltersFromModel | fastapi_dream_core/repository/base_repository.py:24-41 | a non-dict is a `ValueError`; a dict is pruned in place, walking a copy of its keys, to its attribute keys |
| SessionRepository.BaseRepository.CheckFilters | fastapi_dream_core/repository/base_repository.py:50 | the applied filters are `FiltersOutcome` of the dict on entry, and the dict is left sanitised |
| SessionRepository.BaseRepository.FindOneByFilters | fastapi_dream_core/repository/base_repository.py:43-53 | the first match under the applied filters, or the filter error |
| SessionRepository.BaseRepository.FindByFiltersPaginated | fastapi_dream_core/repository/base_repository.py:55-90 | a non-`PageQuery` is a `ValueError` that leaves the filters untouched; otherwise `FindPage` under the applied filters |
| SessionRepository.BaseRepository.FindAllByFilters | fastapi_dream_core/repository/base_repository.py:92-112 | `FindAll` under the applied filters, or the filter error |
| SessionRepository.BaseRepository.CountByFiltersQuery | fastapi_dream_core/repository/base_repository.py:114-124 | `select count()` is the number of rows matching the filters |
| SessionRepository.BaseRepository.CountByFilters | fastapi_dream_core/repository/base_repository.py:126-136 | the number of matches under the applied filters, or the filter error |
| SessionRepository.BaseRepository.Create | fastapi_dream_core/repository/base_repository.py:138-159 | a dict payload with a key that names no field of the model is a `ValueError` "\"<model>\" object has no field \"<key>\"" that stores nothing; otherwise a dict payload sets every key on a fresh object, a schema goes through `model(**payload)`; either is stored with its assigned id, or the insert error leaves the table unchanged |
| SessionRepository.BaseRepository.Update | fastapi_dream_core/repository/base_repository.py:161-186 | the object's fields are `Merged` with the payload and its row is rewritten; a row deleted by another session while the merge changes a column raises `StaleDataError` |
| SessionRepository.BaseRepository.Delete | fastapi_dream_core/repository/base_repository.py:188-196 | the object's row is removed and the counter kept |
| InMemoryCache.Lookup | fastapi_dream_core/cache_driver/in_memory_driver.py:20-30 | `get` is `None` exactly for a missing entry or one older than its TTL (strictly), else the stored text |
| InMemoryCache.AfterGet | fastapi_dream_core/cache_driver/in_memory_driver.py:26-28 | `get` deletes an expired entry and changes nothing else |
| InMemoryCache.SetThenGet | fastapi_dream_core/cache_driver/in_memory_driver.py:26-39 | after `set`, `get` returns the value while at most TTL seconds have passed, and afterwards returns `None` and evicts it |
| InMemoryCache.OtherKeysUnaffected | fastapi_dream_core/cache_driver/in_memory_driver.py:18-45 | `set`, `dump` and an evicting `get` of one key change what no other key reads |
| InMemoryCache.GetTwice | fastapi_dream_core/cache_driver/in_memory_driver.py:20-30 | `get` is idempotent: a second call returns the same and evicts nothing more |
| InMemoryCache.InMemoryCacheDriver.Get | fastapi_dream_core/cache_driver/in_memory_driver.py:20-30 | returns `Lookup` of the shared store and leaves it as `AfterGet` |
| InMemoryCache.InMemoryCacheDriver.Set | fastapi_dream_core/cache_driver/in_memory_driver.py:32-39 | the entry is replaced by the value, TTL (default 600) and current time |
| InMemoryCache.InMemoryCacheDriver.Dump | fastapi_dream_core/cache_driver/in_memory_driver.py:41-45 | the key is removed when present, and nothing changes otherwise |
| InMemoryCache.SharedAcrossInstances | fastapi_dream_core/cache_driver/in_memory_driver.py:18 | the class-level `_memory` is one store for every driver: what one driver sets another reads, until the TTL passes, and a dump through one removes the entry for both (a client whose asserts are proved) |
| CsvExporter.HeaderOf | fastapi_dream_core/utils/csv_exporter.py:20-23 | a column's title is the field's non-empty title, else its name |
| CsvExporter.Render | fastapi_dream_core/utils/csv_exporter.py:39-42 | a cell: `None` and empty text give an empty cell, text stays as it is, anything else is its `str()` text |
| CsvExporter.CsvText | fastapi_dream_core/utils/csv_exporter.py:27-46 | the export fails with the `NameError` exactly when some item is not a model instance |
| CsvExporter.EmptyDataIsHeaderOnly | fastapi_dream_core/utils/csv_exporter.py:28-29 | empty data exports the header line alone, with no newline |
| CsvExporter.LinesRecovered | fastapi_dream_core/utils/csv_exporter.py:29-46 | when nothing holds a newline, the lines are the header and one row per item, in order |
| CsvExporter.CellsRecovered | fastapi_dream_core/utils/csv_exporter.py:38-44 | with a one-character separator no cell holds, a row splits back into its cells |
| CsvExporter.SeparatorInCellIsNotEscaped | fastapi_dream_core/utils/csv_exporter.py:42-44 | a value holding the separator is not quoted: `a;b` reads back as two cells |
| CsvExporter.NormalizeFilename | fastapi_dream_core/utils/csv_exporter.py:53-54 | ".csv" is appended exactly when it occurs nowhere in the name, and the result always holds it |
| CsvExporter.NormalizeFilenameIdempotent | fastapi_dream_core/utils/csv_exporter.py:53-54 | normalising twice is normalising once |
| CsvExporter.ContentDisposition | fastapi_dream_core/utils/csv_exporter.py:56 | the header is "attachment; filename=" followed by the normalised filename |
| CsvExporter.CSVExporter.GenerateHeaders | fastapi_dream_core/utils/csv_exporter.py:16-25 | the header loop yields every field's title in field order, joined by the separator |
| CsvExporter.CSVExporter.ToCsv | fastapi_dream_core/utils/csv_exporter.py:27-46 | the nested write loops produce exactly `CsvText`: the header, then "\n" and each item's rendered cells |
| CsvExporter.CSVExporter.ToCsvStreamingResponse | fastapi_dream_core/utils/csv_exporter.py:48-58 | the body is the export, the media type "text/csv", and the disposition that of the normalised filename; an export error propagates |
| Readiness.Report | fastapi_dream_core/helpers/readiness.py:22-29 | one line per dependency, in registration order, named `str(dep)` and holding its answer |
| Readiness.ReportAppend | fastapi_dream_core/helpers/readiness.py:16-29 | registering a dependency adds its line at the end of the report and keeps the earlier lines |
| Readiness.ReportReadiness | fastapi_dream_core/helpers/readiness.py:22-29 | every line is ready exactly when every dependency answered true |
| Readiness.Readiness.AddDependency | fastapi_dream_core/helpers/readiness.py:16-20 | an `ApplicationDependenciesABC` is appended; anything else raises `ApplicationDependencyException` and leaves the list unchanged |
| Readiness.Readiness.Ready | fastapi_dream_core/helpers/readiness.py:22-29 | `ready()` is the `Report` of the registered dependencies |
| HealthRouter.Alive | fastapi_dream_core/routes/health/health_router.py:12-19 | `/alive` answers 200 with status "Running" |
| HealthRouter.Ready | fastapi_dream_core/routes/health/health_router.py:28-37 | `/ready` answers 200 and "OK" exactly when every dependency is ready (none included), else 400 and "NOT OK"; the report is returned unchanged |
| Environments.GetEnv | fastapi_dream_core/environments.py:6 | an unset variable reads as its default, a set one as its value |
| Environments.AppFromEnv | fastapi_dream_core/environments.py:6 | the stage is the value of `ENVIRONMENT` when it is set, and "DEV" when it is unset |
| Environments.AppBaseEnvironments.IsDevEnvironment | fastapi_dream_core/environments.py:12-13 | the stage is development when `ENVIRONMENT.upper()` is "DEV"; see `Environments.ClassifiersIgnoreCase` |
| Environments.AppBaseEnvironments.IsHmlEnvironment | fastapi_dream_core/environments.py:15-16 | the stage is homologation when `ENVIRONMENT.upper()` is "HML"; see `Environments.ClassifiersIgnoreCase` |
| Environments.AppBaseEnvironments.IsPrdEnvironment | fastapi_dream_core/environments.py:18-19 | the stage is production when `ENVIRONMENT.upper()` is "PRD"; see `Environments.ClassifiersIgnoreCase` |
| Environments.ClassifiersIgnoreCase | fastapi_dream_core/environments.py:12-19 | each classifier holds exactly for its three-letter name in any letter case |
| Environments.UpperCharIsLetter | fastapi_dream_core/environments.py:13 | a character upper-cases to a capital letter exactly when it is that letter in either case |
| Environments.AtMostOneStage | fastapi_dream_core/environments.py:12-19 | no setting is classified as two stages |
| Environments.LowerCasePrdIsProduction | fastapi_dream_core/environments.py:6-19 | `ENVIRONMENT=prd` is classified as the production stage and as neither of the others |
| Environments.DefaultIsDev | fastapi_dream_core/environments.py:6-13 | by default the application runs as the development stage |
| Environments.DatabaseFromEnv | fastapi_dream_core/environments.py:37-43 | each setting is its variable's value when set, else its default: no URL, "localhost", "root", an empty password, an empty database name, and port 3306 rendered as "3306" |
| Environments.DatabaseEnvironments.GetDbUrl | fastapi_dream_core/environments.py:45-49 | `get_db_url`: a non-empty `DB_URL`, else the composed MySQL URL; its guarantees are stated by the three lemmas below |
| Environments.ExplicitUrlWins | fastapi_dream_core/environments.py:46-47 | a non-empty `DB_URL` is returned as it is |
| Environments.ComposedUrlParts | fastapi_dream_core/environments.py:49 | otherwise the URL starts with "mysql://", and '@' separates "user:password" from "host:port/name" |
| Environments.DefaultDbUrl | fastapi_dream_core/environments.py:37-49 | with nothing set the URL is "mysql://root:@localhost:3306/" |

## Left out

- The database is an in-memory table. The model drops SQL generation, transactions, sessions and their lifetimes, and concurrency.
- The model treats the attributes `hasattr`/`getattr` finds on a model class as its columns. Other class attributes (methods, properties) are not modelled.
- Column values are NULL, integers or text. Booleans are stored as integers, and floats, dates and blobs are not modelled. NULL sorts before numbers, and numbers before text.
- Filters match with exact, type-strict equality, and text compares by code point. That is SQLite's BINARY collation, without its column affinity: in the model `{'id': '1'}` matches no row whose id is the integer 1, where SQLite would convert the text. MySQL's default case-insensitive collation is not modelled either, so text that differs only in case never matches.
- A query without `order_by` returns rows in table (insertion) order in the model. SQL leaves that order unspecified, so `Orm.FilterByFirst`, `Queries.FindAllMatches` for an unknown `order` and the page lemmas rely on an order the database does not promise.
- The source does not define the order of rows with equal sort keys. The model sorts stably: ascending order keeps table order between equal keys, and so does descending order.
- `SessionRepository.BaseRepository.Create`: when a dict payload holds several keys that are not fields, the model reports one of them, without saying which. The source reports the first one in the dict's order.
- `jsonable_encoder(obj_in)` and `obj_in.dict(exclude_unset=True)` are not modelled. A schema payload is given directly as the mapping they produce.
- `Orm.RowFrom`: a column the payload does not set holds NULL. A declared field default other than `None` is not applied (the models in `tests/resources` declare only `None` defaults). NOT NULL constraints (such as `name: str`) and the `IntegrityError` the database raises for them are not modelled, so `CoreRepository.BaseRepository.Create` and `SessionRepository.BaseRepository.Create` store such a row where the database would refuse it.
- The database's id assignment follows an auto-increment counter. An explicit integer id is kept and moves the counter past it. A duplicate or non-integer id is an `IntegrityError`.
- Deleting an object whose row is already gone changes nothing. The ORM would only warn.
- Objects passed to `update` and `delete` are taken to be persistent, and the model identifies each by its id. The `StaleDataError` branch of `Orm.Table.Save` and of both repositories' `Update` stands for a row deleted by another session while the merge changes a column. Two other cases are not modelled, and both would raise SQLAlchemy's `InvalidRequestError`: a merge that changes no column, where no UPDATE is sent and `session.refresh` fails, and an object already deleted through the same repository, which `session.add` refuses.
- `with_custom_options` and the pydantic model creation behind it are not modelled.
- `Pagination.CreateParams`: the model assumes that every field of `__fields__` has an entry in the annotations gathered over the class's MRO. Pydantic v1 also infers a field from an un-annotated default value. For such a field `anns[name]` raises `KeyError`, and the model does not capture that error.
- `PageQuery` comes from `fastapi_dream_core.pagination` in `fastapi_dream_core/repository/base_repository.py:8`. The `pagination.py` at hand defines no `PageQuery`, and its `Page.create` takes `params` rather than the `page_query=` keyword that file passes. This is a version mismatch between the two files. The model gives `PageQuery` the same shape as `Params` and passes its page and size to `Page.create`.
- `InMemoryCache.InMemoryCacheDriver.Get`: time is an integer number of seconds passed as `now`. Sub-second elapsed times are not modelled.
- `InMemoryCache.InMemoryCacheDriver.Set`: the value is stored as the text `str(value)`. Its UTF-8 encoding to bytes is not modelled.
- `CsvExporter.Render`: `str(value)` is rendered exactly for `None`, text, integers and booleans. Any other value is given as its `str()` text.
- `CsvExporter.CSVExporter.ToCsvStreamingResponse`: the `StringIO` buffer and the streaming iterator are replaced by the finished text.
- `Readiness.Readiness.Ready`: each dependency's `readiness()` answer is a parameter, because the code it calls is not part of this model.
- The `SingletonMeta` metaclass and the class-level list are modelled as one `Readiness` object that every caller holds.
- `Text.Upper`: upper-casing is modelled for ASCII letters only. Python's full Unicode case mapping is not modelled.
- `get_boto3_by_environment` performs a dynamic import. `CacheEnvironments` and the `BASE_PATH`, `APP_TITLE`, `APP_HOST` and `APP_PORT` settings are not modelled either. The `/ready` handler does no computation outside lines 28-37.
- `redis_cache_driver.py` is not part of this model: it is a network client. The abstract interfaces, the middleware, the logger, the migration route and the application factory are not part of this model either.
