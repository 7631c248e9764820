# Household survey tables: ingest, join and merge

A model, in Dafny, of the data pipeline of a household survey analysis repository. The
pipeline has three parts.

- **Period ingestors.** `createSQLPyramids.py`, `createSQLPeople.py` and
  `createSQLIncome.py` are one algorithm with three configurations. Each walks a tree of
  directories named after a period (`Jan 2020`) and reads one CSV file from each. It tags
  every row with the directory's month and year, drops an incoming `id` column, and then
  changes one SQLite table. It creates the table on the first batch, with an
  auto-increment `id` followed by one typed column per CSV column. On later batches it
  adds only the columns the table lacks. Finally it appends the batch's rows.
- **Join builders.** `filterStates.py` and `filterStates2.py` build and run
  `CREATE TABLE new AS SELECT ... JOIN ... WHERE anchor.state IN (?, ...)`. The first
  table config is the anchor. Every later table is inner-joined to it on household id,
  month and year, each side using its own column names. The whole run is one
  transaction, committed or rolled back. The second variant is meant to alias the
  anchor's columns and to add a unique index on the anchor's key triple. As written, its
  select list is not SQL and every run rolls back (see "Findings"). Its transaction is
  modelled with the evidently intended select list, and the as-written list has a member
  of its own.
- **Database combiner.** `combine_databases` in `mergeDBs.py` copies every table but
  `sqlite_sequence` from each source database into a target. Each target table is
  dropped and recreated from the source's own `CREATE` statement. Rows are then copied
  in `LIMIT c OFFSET k*c` windows, with a commit after each window.

## How the model is built

- **The store (`store.dfy`).**
  - A database is a `Catalog`: a sequence of named tables, in `sqlite_master` order.
  - A table is its typed columns and its rows. A row is a positional sequence of
    values, and a field past a row's end reads as NULL. This is what SQLite does for
    records written before an `ALTER TABLE ADD COLUMN`.
  - SQLite compares identifiers ignoring ASCII case; Python compares names exactly. The
    model keeps the two apart (`SameIdent` against `==`).
  - `Database` is a class whose one field, `tables`, the join and merge methods
    reassign.
- **Period names (`period.dfy`).** `strptime(name, "%b %Y")` becomes `ParsePeriod`, over
  the twelve English month abbreviations. `%Y` takes four decimal digits of any script,
  as Python's `\d` does, and the model carries Unicode's table of decimal digit runs.
- **Ingestion.**
  - `schema.dfy` holds the dtype rule, the missing-column comprehension and the ALTER
    sequence.
  - `ingest.dfy` holds the batch preparation, the specification functions of one
    directory (`IngestSpec`) and of a whole walk (`ProcessSpec`), and the class
    `DatasetTable`. Each method of `DatasetTable` is proved against its specification
    function.
  - `ingest_props.dfy` holds the lemmas about those functions.
- **Join builders.**
  - `join_query.dfy` gives a `CREATE TABLE ... AS SELECT` statement as structured data
    (a `Plan`). It states which plans parse and resolves names the way SQLite does. Its
    evaluation is the nested loop of an inner join, followed by the `IN` filter. A
    reference row count says how many rows the join yields.
  - `filter_states.dfy` and `filter_states2.dfy` build the plan, and model the
    transaction as a method on `Database` proved against a specification function.
- **Database combiner (`merge.dfy`).** The copy is two nested loops over sources and
  tables, and an inner window loop. Its invariant is that the target holds exactly the
  first `min(k*c, total)` source rows.

Three behaviours of the scripts are easy to misread:

- **A failing batch stops the run.** A column name SQLite refuses raises an exception
  that nothing in the directory loop catches, so no later period is ingested. In
  `ProcessSpec` that failure is therefore the end of the run. ALTERs issued before the
  failing one persist, because Python's `sqlite3` commits DDL outside a transaction.
- **An existing result table is an error.** Both join builders issue a plain
  `CREATE TABLE new AS ...`. It fails when the name is taken, and the run then rolls
  back (`TableExists`); an earlier table of that name is never replaced.
- **The anchor must have a `state` key.** Both variants read it with `[...]` in the WHERE
  clause (filterStates.py:37, filterStates2.py:38). The `config.get("state", ...)` on
  line 21 is never used. An anchor without the key fails with `MissingStateKey`. Later
  configs may omit it.

## Model

| member | source | states |
|---|---|---|
| Period.ParsePeriod | createSQLPyramids.py:95-98 | A parsed name gives one of the twelve month abbreviations and a year written as `str(date.year)` writes it: one to four ASCII digits, no leading zero. |
| Period.MonthIndex | createSQLPyramids.py:96-97 | The month found is the one abbreviation the name's first three letters match, ignoring ASCII case; `None` means no abbreviation matches. |
| Period.MonthMatchUnique | createSQLPyramids.py:96 | At most one abbreviation matches a three-letter prefix. |
| Period.DigitValueSound | createSQLPyramids.py:96 | A character `%Y` accepts as a digit lies in one of the 68 runs of Unicode decimal digits, and its value is its place in that run. |
| Period.DigitValueComplete | createSQLPyramids.py:96 | Conversely, every digit of every run is accepted, with its place in the run as its value. |
| Period.RunsAscending | createSQLPyramids.py:96 | The digit runs do not overlap, so each digit has one value. |
| Period.DigitsValueBound | createSQLPyramids.py:96-98 | Four digits are worth less than 10000, so the year prints in at most four characters. |
| Period.YearTextRoundTrip | createSQLPyramids.py:98 | Reading an ASCII year without a leading zero and printing it back with `str` gives the same text. |
| Period.ParsedNameShape | createSQLPyramids.py:96-98 | An accepted name is a month, a run of whitespace and four decimal digits of any script worth at least 1, and the year tag is `str` of their value. |
| Period.ParsesEveryPeriodName | createSQLPyramids.py:96-98 | Conversely, every ASCII-case spelling of a month, whitespace run and four digits worth at least 1 parses, to the canonical abbreviation and that year. |
| Period.CanonicalNamesParse | createSQLPyramids.py:96-98 | A name written `Mon YYYY` returns exactly its own month and year. |
| Period.RejectedNames | createSQLPyramids.py:99-101 | A full month name, a missing space, a two-digit year, year 0000, a trailing space and a month spelled with the long s (`ſep`) are all rejected, so the directory is skipped. |
| Period.AcceptsCanonicalName | createSQLPyramids.py:96-98 | `Jan 2020` is tagged `Jan` and `2020`. |
| Period.AcceptsLowerCaseAndTab | createSQLPyramids.py:96-98 | The month is matched ignoring case, the gap may be any whitespace, and the tag is the canonical `Jan`. |
| Period.TagsYearWithoutLeadingZero | createSQLPyramids.py:98 | `str(date.year)` drops leading zeros: `Jan 0999` is tagged `Jan` and `999`. |
| Period.AcceptsFullwidthYear | createSQLPyramids.py:96-98 | Digits of other scripts are read by value: `Jan ２０２０` is tagged `Jan` and `2020`. |
| Schema.SqlTypeOf | createSQLPyramids.py:54-59 | The column type is INTEGER iff the dtype is int64, REAL iff float64, TEXT iff anything else. |
| Schema.CreateDefinitions | createSQLPeople.py:26-36 | One definition per batch column, in batch order, with the batch column's name; names on the TEXT-override list are TEXT, the rest follow the dtype rule. |
| Schema.CreateDefinitionNames | createSQLPyramids.py:26-38 | The created columns carry the batch's names, in batch order. |
| Schema.AlterDefinitions | createSQLPeople.py:56-62 | On alter, one column per new batch column with its name, typed by the plain dtype rule. |
| Schema.CreateMatchesAlterWithoutOverride | createSQLPyramids.py:28-33 | Without an override list, create and alter type every column identically (the pyramids and income scripts). |
| Schema.NewColumns | createSQLPyramids.py:48-49 | A batch column is new exactly when its name is not among the table's column names, compared exactly as Python's `in` does. |
| Schema.NewColumnsKeepBatchOrder | createSQLIncome.py:49 | The new columns keep the batch's order. |
| Schema.NoNewColumnsForKnownHeader | createSQLPeople.py:51-54 | A batch whose every column is already in the table asks for no ALTER. |
| Schema.AlterFrom | createSQLPyramids.py:51-64 | The ALTERs only append columns, after the existing ones and in order. On failure the columns added before the clash persist, and the clashing column's name is, ignoring case, already in the table. |
| Schema.AlterKeepsNamesDistinct | createSQLIncome.py:53-64 | Column names stay distinct ignoring case after any sequence of ALTERs. |
| Schema.AlterSucceedsIffNamesDistinct | createSQLPyramids.py:61-64 | Every ALTER succeeds exactly when the table's names and the new names are distinct ignoring case. |
| Ingest.ConfigsOk | createSQLPeople.py:107-108 | In each of the three configurations the period columns are two different names, neither of them `id`. |
| Ingest.SetColumnEffects | createSQLPyramids.py:106-107 | `df[name] = v` gives the frame a column `name` holding `v` in every row, and leaves every other column's values as they were. |
| Ingest.DropColumnEffects | createSQLPyramids.py:109-110 | After the drop the frame has no `id` column, and every other column keeps its values and its row count. |
| Ingest.PrepareBatchEffects | createSQLPeople.py:107-111 | A prepared batch has the raw batch's row count and no `id`. Every row holds the parsed month and year in the period columns, and the raw values in every other column. |
| Ingest.InsertSpec | createSQLPyramids.py:82-84 | The insert appends exactly one row per batch row and leaves the earlier rows as they were. |
| Ingest.StoreRow | createSQLPyramids.py:73-84 | A stored record has one field per table column. |
| Ingest.CreateKeepsInv | createSQLPyramids.py:35-42 | A created table has `id INTEGER` first, column names distinct ignoring case, and no rows. |
| Ingest.AlterKeepsInv | createSQLPyramids.py:61-64 | ALTERs keep that table invariant. |
| Ingest.InsertKeepsInv | createSQLPyramids.py:82-84 | Inserts keep that table invariant. |
| Ingest.CreateMakesReady | createSQLPyramids.py:112-122 | After a create, every batch column has a table column of its own to be stored in. |
| Ingest.AlterMakesReady | createSQLPyramids.py:112-122 | After a successful alter, likewise. |
| Ingest.NewColumnsCover | createSQLPyramids.py:48-49 | Every incoming column is either already in the table or among the new columns. |
| Ingest.DatasetTable.CreateTable | createSQLPyramids.py:23-43 | The table now has `id` and the batch columns as the create rule types them, or the create fails on a case-insensitive name clash and nothing changes. |
| Ingest.DatasetTable.AddMissingColumns | createSQLPyramids.py:47-66 | The columns and the outcome are those of the ALTER sequence over the new columns; the rows are unchanged. |
| Ingest.DatasetTable.InsertRows | createSQLPyramids.py:70-85 | The rows are the insert specification of the old rows and the batch; the columns are unchanged. |
| Ingest.DatasetTable.IngestBatch | createSQLPyramids.py:91-122 | The table and the outcome are those the one-directory specification gives for the old table. |
| Ingest.DatasetTable.ProcessDirectories | createSQLPyramids.py:89-122 | The table and the completion flag are those the walk specification gives, directory by directory, stopping at the first failure. |
| IngestProps.IngestKeepsInv | createSQLPyramids.py:95-122 | Every directory keeps the table invariant: `id` first, column names distinct, every column retained. |
| IngestProps.IngestEffects | createSQLPyramids.py:95-122 | A directory is skipped iff its name does not parse, and a skip changes nothing. Columns are only appended, never dropped or retyped, and the earlier rows are untouched. A failed directory adds no rows; a successful one adds exactly `len(df)`. |
| IngestProps.IngestCoversBatch | createSQLIncome.py:112-122 | After a successful directory the table has the two period columns and a column for every CSV column other than `id`. |
| IngestProps.StoreBatchCoversBatch | createSQLPyramids.py:112-122 | After a successful create-or-alter, every batch column is a table column. |
| IngestProps.StoreBatchReady | createSQLPyramids.py:112-122 | Every successful create-or-alter leaves every batch column stored in a column of its own. |
| IngestProps.InsertedRowsCarryBatch | createSQLPyramids.py:73-84 | The i-th inserted row gets the next id and holds, under each batch column's name, that column's value in batch row i (values matched by position to the named columns). |
| IngestProps.StoredRowsCarryBatch | createSQLPyramids.py:112-122 | Each row a successful store appends holds a fresh id and the batch's values under their names. |
| IngestProps.IngestedRowsCarryBatch | createSQLPyramids.py:97-122 | Every row a directory appends holds a fresh id, the parsed month and year in the period columns, and the CSV's value in every other CSV column except `id`. |
| IngestProps.StoreRowHoldsBatchValue | createSQLPyramids.py:73-84 | A stored record reads back, under each batch column's name, the batch's value. |
| IngestProps.StoreAbortsIffNameClash | createSQLPyramids.py:112-122 | A store fails exactly when SQLite rejects a column name: on create, when the names with `id` are not distinct ignoring case; on alter, when the table's names and the new ones are not. |
| IngestProps.IngestAbortsIffNameClash | createSQLPeople.py:113-123 | The same, for a directory whose name parses, in terms of its prepared batch. |
| IngestProps.UpperCaseIdAbortsCreate | createSQLPyramids.py:109-118 | A CSV column `ID` survives the exact-name drop and then collides with `id` in the CREATE, so the first directory fails. |
| IngestProps.ReingestSameHeader | createSQLPyramids.py:48-51 | Ingesting a period with an already ingested header adds no column and appends all of its rows, so re-ingesting a period duplicates its rows. |
| IngestProps.TagColumnsAreObjects | createSQLPyramids.py:106-107 | The period columns of a prepared batch have object dtype, so the plain rule makes them TEXT. |
| IngestProps.TagHeaderEntries | createSQLPyramids.py:106-107 | Tagging adds or replaces only the tagged column, which gets object dtype. |
| IngestProps.DropHeaderEntries | createSQLPyramids.py:109-110 | Dropping adds no column. |
| IngestProps.CreateTypesFollowDtypeRule | createSQLPeople.py:28-36 | An override list naming only the period columns types every column as the plain dtype rule does. |
| IngestProps.PeopleCreateTypesFollowDtypeRule | createSQLPeople.py:28-36 | For the people table the `month`/`year` TEXT override on create agrees with the alter rule. |
| IngestProps.StoreBatchEffects | createSQLPyramids.py:112-122 | Create-or-alter and insert for a prepared batch: existing columns and rows stay in place, a refused statement adds no rows, a successful one adds exactly one row per batch row and leaves the table present. |
| IngestProps.ProcessEffects | createSQLPyramids.py:89-122 | Over a whole walk the invariant holds, columns and rows are only appended, and a completed walk adds exactly the rows of its period directories. |
| IngestProps.ProcessCoversEveryBatch | createSQLIncome.py:89-122 | A completed walk leaves a column for every CSV column, other than `id`, of every period directory. |
| IngestProps.LookupUnique | createSQLPyramids.py:75-84 | A name resolves to its one column when the names are distinct ignoring case. |
| JoinQuery.CheckJoinQualifiers | filterStates.py:27-32 | No error iff every joined table whose ON clause uses its qualifier is the only table with that name. |
| JoinQuery.ResultTable | filterStates.py:40-50 | The created table has one row per row combination of the join. |
| JoinQuery.ScanLength | filterStates.py:27-32 | One inner-join step yields the matching rows times the combinations of the later tables. |
| JoinQuery.ExtensionsLength | filterStates.py:27-32 | The combinations for one anchor row number the product of the later tables' match counts. |
| JoinQuery.AnchorScanLength | filterStates.py:36-44 | The filtered scan yields the sum over anchor rows in the state list of that product. |
| JoinQuery.ResultCount | filterStates.py:40-54 | Without a uniqueness check, the created table's row count is the sum, over filtered anchor rows, of the product of the match counts. Duplicates and fan-out are kept. |
| JoinQuery.InScan | filterStates.py:27-32 | A combination comes from a step iff its first row is a matching row and the rest a later combination. |
| JoinQuery.InExtensions | filterStates.py:27-32 | A combination is produced iff it takes one matching row from each joined table, in order. |
| JoinQuery.InAnchorScan | filterStates.py:36-44 | It takes an anchor row whose state is in the list. |
| JoinQuery.InTuples | filterStates.py:40-45 | A row combination is in the result iff it has one row per table, its anchor row's state is in the list, and each joined row agrees with the anchor row on every ON pair, NULL never being equal. |
| JoinQuery.NoStatesNoRows | filterStates.py:35-38 | An empty state list lets no anchor row through. |
| JoinQuery.NullKeyNeverJoins | filterStates.py:29-31 | An anchor row with a NULL key matches no joined row. |
| JoinQuery.ResolveKeys | filterStates.py:29-31 | A resolved ON clause has one position pair per conjunct. |
| JoinQuery.ResolveKeysMeaning | filterStates.py:29-31 | An ON clause resolves iff each of its names is a column of its side, and then to those columns' positions. |
| JoinQuery.ResolveJoins | filterStates.py:27-32 | One resolved join per JOIN clause. |
| JoinQuery.ResolveJoinsSucceeds | filterStates.py:27-32 | The joins resolve iff every joined table exists and its ON clause resolves. |
| JoinQuery.ResolveJoinsMeaning | filterStates.py:27-32 | Each resolved join is the table its clause names, with its ON clause resolved. |
| JoinQuery.ResolveItems | filterStates2.py:24-28 | One position and one result column per select item. |
| JoinQuery.ResolveItemsMeaning | filterStates2.py:24-28 | A select list resolves iff each item names an anchor column; each result column has the item's alias and the column's type. |
| JoinQuery.ResolveSucceeds | filterStates.py:40-50 | The statement prepares and binds iff the anchor and every joined table exist, every ON column exists, no qualifier is ambiguous, the state column exists, every select item exists, and there is one parameter per placeholder. |
| JoinQuery.ResolveMeaning | filterStates.py:40-50 | A prepared statement reads the named tables, the resolved state column and the bound values, and `SELECT *` gives all columns of all tables in FROM order, while a column list (the form filterStates2.py builds) gives the anchor columns it names, under their aliases. |
| FilterStates.PlanShape | filterStates.py:16-38 | The plan exists iff there is a config and the anchor has a `state` key. It has one JOIN per later config, each with three key pairs, and one placeholder per state value. |
| FilterStates.LaterStatesIgnored | filterStates.py:16-38 | The `state` key of the later configs does not affect the statement. |
| FilterStates.CreateJoinedTable | filterStates.py:5-62 | The catalog and the result are those of the transaction specification: create and count, then commit, or roll back to the old catalog. |
| FilterStates.CommitOrRollback | filterStates.py:11-62 | A failed run leaves the catalog as it was. A successful one appends exactly the new table, which did not exist, with the reported row count as its `COUNT(*)`. |
| FilterStates.JoinedTableMeaning | filterStates.py:16-54 | A successful run joins the configured tables on each one's own configured key names, filters on the anchor's state column, and reports the reference count; the new table is the result table. |
| FilterStates.JoinedRowsAgreeOnKeys | filterStates.py:29-37 | Every row combination has its anchor state in the list, and agrees with the anchor on household id, month and year in every joined table. |
| FilterStates.NoStatesEmptyTable | filterStates.py:35-54 | With no state values a successful run reports 0 rows. |
| FilterStates2.AliasItems | filterStates2.py:24-28 | The intended select list has one aliased item per anchor column. |
| FilterStates2.AliasHeader | filterStates2.py:24-28 | It gives the new table one column per anchor column. |
| FilterStates2.AsWrittenItems | filterStates2.py:24-27 | The select list as written has one item per PRAGMA row. |
| FilterStates2.PragmaRowTextIsNoWord | filterStates2.py:24-27 | A formatted PRAGMA row starts with a parenthesis and is not an identifier. |
| FilterStates2.AsWrittenAlwaysRollsBack | filterStates2.py:16-73 | As written the statement never parses, so every run rolls back and leaves the catalog as it was. |
| FilterStates2.AliasesDistinct | filterStates2.py:25-32 | Distinct config positions get distinct aliases `t0`, `t1`, ... |
| FilterStates2.NatToStringInjective | filterStates2.py:25 | Different positions are written as different numerals. |
| FilterStates2.QualifiersNeverAmbiguous | filterStates2.py:28-36 | Unlike the first variant, no qualifier of the aliased statement is ambiguous, even when the same table is joined twice. |
| FilterStates2.ResolveIndexColumns | filterStates2.py:59-62 | The index columns resolve iff each is a column of the new table, and then to its position. |
| FilterStates2.IndexNeedsRoleNamedColumns | filterStates2.py:56-58 | The index finds `{anchor}_hh_id` (and likewise month and year) iff the anchor has a column literally named `hh_id`, whatever names its config gives. |
| FilterStates2.CreateJoinedTable | filterStates2.py:5-73 | With the corrected select list, the catalog and the result are those of the transaction specification (create, count, unique index, then commit, or roll back to the old catalog). |
| FilterStates2.CommitOrRollback | filterStates2.py:11-73 | With the corrected select list, a failed run leaves the catalog as it was; a successful one appends exactly the new table, with the reported count. |
| FilterStates2.CorrectedSelectsAnchorColumns | filterStates2.py:24-42 | With the select list built from the column names, the new table's header is `{anchor}_{col}` for each anchor column, and each one projects that anchor column. |
| FilterStates2.PlanShape | filterStates2.py:16-45 | The plan exists iff there is a config and the anchor has a `state` key. The anchor is aliased `t0` and selected through the corrected list; there is one JOIN per later config, the i-th aliased `t{i}` and equating the anchor's configured household id, month and year with that config's; the filter is on the anchor's configured state column with one placeholder per state value. |
| FilterStates2.JoinedQueryFollowsConfigs | filterStates2.py:30-49 | A prepared statement reads the anchor's table, joins each later config's table on the anchor's and its own configured key columns, filters on the anchor's configured state column, and binds `state_values` as text. |
| FilterStates2.JoinedTableMeaning | filterStates2.py:30-53 | With the corrected select list, a committed run reads the configured tables, joins each on its configured key names and filters on the anchor's state column bound to `state_values`; it holds, for each row combination of the join, its anchor row under the aliased header, and the reported count is the reference count. |
| FilterStates2.JoinedRowsAgreeOnKeys | filterStates2.py:30-45 | With the corrected select list, every row combination of a committed run has its anchor state in the list, and agrees with the anchor on household id, month and year in every joined table (NULL never agreeing). |
| FilterStates2.CommittedKeysUnique | filterStates2.py:56-65 | With the corrected select list, a committed table has the three index columns, and no two of its rows share a non-NULL (household id, month, year), which is why duplicates roll back. |
| FilterStates2.NoStatesEmptyTable | filterStates2.py:38-53 | With the corrected select list and no state values, a successful run reports 0 rows. |
| Merge.ChunksArePrefix | mergeDBs.py:54-64 | After k committed windows the target holds exactly the first min(k*c, total) source rows, in order. |
| Merge.ChunkCountIsCeiling | mergeDBs.py:54 | The number of offsets 0, c, 2c, ... below the total is the ceiling of total / c. |
| Merge.LeastCover | mergeDBs.py:54 | That number is the only window count that covers every row with a non-empty last window. |
| Merge.AllChunksCopyAll | mergeDBs.py:54-63 | The windows together are the whole source table, in order, with no row skipped or repeated. |
| Merge.RecreatedIsFound | mergeDBs.py:38-39 | After the drop and create, the table's name finds the new empty table. |
| Merge.CopyTable | mergeDBs.py:38-66 | The target is the one-table copy specification: recreated and filled with every source row for c > 0. It counts ceil(total / c) windows, and the progress counter reaches `total_rows`. |
| Merge.CopySource | mergeDBs.py:22-66 | The target and the go-on flag are those of copying one source's tables in catalog order, `sqlite_sequence` skipped, stopping at the first failed copy. |
| Merge.CombineDatabases | mergeDBs.py:6-66 | The target and the completion flag are those of the combine specification, over every source and every table in catalog order. |
| Merge.CopyAllKeeps | mergeDBs.py:22-39 | A target table that no table of the source names, ignoring case, stays as it was. |
| Merge.CopyAllPlaces | mergeDBs.py:22-63 | A copied table whose name no later table of the same source reuses ends up in the target as `CopyOf` its source table: all its source's rows when c > 0, none when c < 0. |
| Merge.OthersUnchanged | mergeDBs.py:12-39 | A target table named by no source table stays as it was. |
| Merge.LastSourceWins | mergeDBs.py:12-39 | A table whose name no later table reuses ends up as copied from its source, so the last source with a name wins. |
| Merge.CopyAllCompletes | mergeDBs.py:22-54 | A source is copied to the end iff the chunk size is not 0 or the source has only `sqlite_sequence`. |
| Merge.CombineCompletes | mergeDBs.py:12-54 | The whole run completes iff the chunk size is not 0 or no source has a table to copy. |
| Merge.CopyReadsAsSource | mergeDBs.py:42-62 | A copied table has the source's row count, and each field reads as in the source, values matched by position. |
| Store.Lookup | filterStates.py:29-31 | A name resolves to the first column equal to it ignoring case, and to none iff no column matches. |
| Store.LookupDistinct | filterStates2.py:59-62 | In distinct names, each name resolves to its own position. |
| Store.DropTable | mergeDBs.py:38 | `DROP TABLE IF EXISTS` keeps exactly the tables whose names differ from the dropped one ignoring case. |
| Store.FindAppended | filterStates.py:50-53 | A table created under a name no table has is the one that name then finds. |
| Store.NatToString | filterStates2.py:25 | The numeral is made of digits, with no leading zero. |

## Left out

- Connections, `print`, `tqdm` progress bars and `main` are left out. They are I/O with
  no effect on the tables; of the progress bar only its counter is modelled.
- `os.walk` is left out. The directories arrive as a sequence of (name, batch) entries,
  in walk order, each holding the dataset's CSV file.
- `pd.read_csv` and pandas dtype inference are foreign code. A batch comes with a dtype
  per column (int64, float64 or other), already read. Pandas' renaming of repeated
  header names is taken as given: batch names are distinct.
- REAL values are opaque tokens; no floating-point arithmetic is modelled.
- `strptime` is modelled with the C locale's English abbreviations. Other locales are
  left out.
- SQLite's type affinity is left out. Values are stored, and compared in `=` and `IN`,
  as they arrive; no conversion happens between TEXT and numbers. SQLite also compares
  an INTEGER and a REAL by numeric value; in the model an integer key and a REAL key
  never join, even when they are equal as numbers (`5` and `5.0`).
- FilterStates2.CreateJoinedTable, FilterStates2.CommitOrRollback,
  FilterStates2.JoinedTableMeaning, FilterStates2.JoinedRowsAgreeOnKeys,
  FilterStates2.CommittedKeysUnique and FilterStates2.NoStatesEmptyTable run the corrected select list of "Findings". For the
  script as written only FilterStates2.AsWrittenAlwaysRollsBack is stated: every run
  rolls back.
- The table of decimal digits is Unicode 15.0's, the one Python 3.12 carries; other
  Python versions accept a slightly different set of digit characters.
- SQL text is modelled as a `Plan`. A name pasted into the statement must be a bare
  identifier in the plan; quoting, keyword names and the rest of SQL's grammar are left
  out.
- `JoinQuery.ResultTable` gives result columns as SQLite names them, except for the
  `:1` suffix SQLite adds to a repeated name in `SELECT *`. Also, the join's rows come
  in nested-loop order, the anchor outermost. SQLite's query planner may choose
  another order.
- FilterStates2.CreateUniqueIndex does not model a clash with an existing index of the
  same name.
- The PRAGMA fields other than the name and the type are written as 0, `None`, 0: the
  default, not-null and key fields of an ordinary column.
- Merge.CombineDatabases takes table names as SQLite reads them unquoted. Names that
  need quoting are left out, and so are internal tables other than `sqlite_sequence`.
  A source's `CREATE` statement is modelled by the table it creates.
- Merge.CopyTable: chunk size 0 makes `range` raise `ValueError` after the drop and
  create, so the table stays recreated and empty and the run stops. A negative size
  gives an empty range and the same empty table, but the run goes on. The progress
  count is stated for positive sizes only.
- Durability of commits, concurrency and the SQLite file format are left out.
- `rename.py` and `filterColumn.py` are not part of this model.

## Findings

| source | as written | input that shows it | evidently intended | confidence | as-written member | corrected member |
|---|---|---|---|---|---|---|
| filterStates2.py:24-27 | The comprehension iterates over whole `PRAGMA table_info` rows, so each select item is `t0.(0, 'hh_id', 'INTEGER', 0, None, 0) AS table_(0, ...)`. That is not SQL, so every run raises and rolls back. | Any anchor table with at least one column, e.g. one with a column `hh_id`. | Use each row's name field: `t0.hh_id AS table_hh_id`. The statement then creates the aliased table, and the unique index admits it only when its key triples are unique. | not executed | FilterStates2.AsWrittenAlwaysRollsBack | FilterStates2.CommittedKeysUnique |
