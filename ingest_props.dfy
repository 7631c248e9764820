/** What the period ingestors promise about the table across directories: the schema
    only grows, rows are only appended and keep their ids, every ingested row carries
    its batch's values and its period, a run stops exactly at a name clash, and a batch
    with an already-seen header changes no schema. */
module IngestProps {
  import opened Store
  import opened Period
  import opened Schema
  import opened Ingest

  // ---------------------------------------------------------------------------
  // Resolving names

  /** In a list of distinct identifiers, any spelling of one of them resolves to it. */
  lemma LookupUnique(ns: seq<string>, j: nat, m: string)
    requires CiDistinct(ns) && j < |ns| && SameIdent(ns[j], m)
    ensures Lookup(ns, m) == Some(j)
  {
    assert CiMember(ns, m);
  }

  /** A stored batch row holds, under each batch column's name, the batch's value. */
  lemma StoreRowHoldsBatchValue(cols: seq<Column>, b: Batch, i: nat, id: int, n: string)
    requires InsertReady(cols, b) && i < |b.rows| && n in BatchNames(b.columns)
    ensures StoredValue(cols, StoreRow(cols, b.columns, b.rows[i], id), n) == ValueOf(b, i, n)
  {
    var bs := BatchNames(b.columns);
    var j := IndexOf(bs, n);
    assert b.columns[j].name == n;
    var k := Lookup(Names(cols), n).value;
    LookupUnique(bs, j, cols[k].name);
  }

  /** Row `k` of a table (the empty record past the end). */
  function RowAt(rows: seq<Row>, k: nat): Row
  {
    if k < |rows| then rows[k] else []
  }

  // ---------------------------------------------------------------------------
  // One directory

  /** Ingesting a directory keeps the table invariant: `id` first, distinct column
      names, no row wider than the table, ids 1..n in row order. */
  lemma IngestKeepsInv(cfg: IngestConfig, st: TableState, dirName: string, raw: Batch)
    requires TableInv(st) && WellFormed(raw)
    ensures TableInv(IngestSpec(cfg, st, dirName, raw).0)
  {
    if ParsePeriod(dirName).Some? {
      var b := PrepareBatch(cfg, raw, ParsePeriod(dirName).value);
      StoreBatchKeepsInv(cfg, st, b);
    }
  }

  lemma StoreBatchKeepsInv(cfg: IngestConfig, st: TableState, b: Batch)
    requires TableInv(st)
    ensures TableInv(StoreBatch(cfg, st, b).0)
  {
    if !st.present {
      if CreateSpec(cfg, b).Some? {
        CreateKeepsInv(cfg, b);
        InsertKeepsInv(TableState(true, CreateSpec(cfg, b).value, []), b);
      }
    } else {
      var pending := NewColumns(Names(st.columns), b.columns);
      AlterKeepsInv(st, pending);
      InsertKeepsInv(TableState(true, AlterFrom(st.columns, pending).0, st.rows), b);
    }
  }

  /** What a directory does to the table. A name that is not a period changes nothing.
      Otherwise the existing columns keep their places and types and the existing rows
      stay as they were; on success exactly the batch's rows are appended. */
  lemma IngestEffects(cfg: IngestConfig, st: TableState, dirName: string, raw: Batch)
    requires TableInv(st) && WellFormed(raw)
    ensures var (st', outcome) := IngestSpec(cfg, st, dirName, raw);
      && (outcome == Skipped <==> ParsePeriod(dirName).None?)
      && (outcome == Skipped ==> st' == st)
      && |st.columns| <= |st'.columns| && st'.columns[..|st.columns|] == st.columns
      && |st.rows| <= |st'.rows| && st'.rows[..|st.rows|] == st.rows
      && (outcome == Aborted ==> st'.rows == st.rows)
      && (outcome.Ingested? ==> outcome.rowCount == |raw.rows| && |st'.rows| == |st.rows| + |raw.rows|)
      && (outcome != Aborted ==> st'.present || outcome == Skipped)
  {
    if ParsePeriod(dirName).Some? {
      var b := PrepareBatch(cfg, raw, ParsePeriod(dirName).value);
      assert |b.rows| == |raw.rows|;
      StoreBatchEffects(cfg, st, b);
    }
  }

  /** Create-or-alter and insert, for a prepared batch: columns and rows are only ever
      appended, and the rows only when every statement succeeded. */
  lemma StoreBatchEffects(cfg: IngestConfig, st: TableState, b: Batch)
    requires TableInv(st)
    ensures var (st', outcome) := StoreBatch(cfg, st, b);
      && outcome != Skipped
      && |st.columns| <= |st'.columns| && st'.columns[..|st.columns|] == st.columns
      && |st.rows| <= |st'.rows| && st'.rows[..|st.rows|] == st.rows
      && (outcome == Aborted ==> st'.rows == st.rows)
      && (outcome.Ingested? ==> outcome.rowCount == |b.rows| && |st'.rows| == |st.rows| + |b.rows|)
      && (outcome != Aborted ==> st'.present)
  {
    if st.present {
      var alter := AlterFrom(st.columns, NewColumns(Names(st.columns), b.columns));
      assert alter.0[..|st.columns|] == st.columns;
    } else {
      assert st.columns == [] && st.rows == [];
    }
  }

  /** After a successful directory every batch column is a column of the table, under
      its exact name. */
  lemma StoreBatchCoversBatch(cfg: IngestConfig, st: TableState, b: Batch)
    requires TableInv(st)
    requires StoreBatch(cfg, st, b).1.Ingested?
    ensures forall j :: 0 <= j < |b.columns| ==> b.columns[j].name in Names(StoreBatch(cfg, st, b).0.columns)
  {
    var cols' := StoreBatch(cfg, st, b).0.columns;
    if !st.present {
      forall j | 0 <= j < |b.columns| ensures b.columns[j].name in Names(cols') {
        assert cols'[j + 1].name == b.columns[j].name;
      }
    } else {
      var pending := NewColumns(Names(st.columns), b.columns);
      assert cols' == st.columns + AlterDefinitions(pending);
      NamesAppend(st.columns, AlterDefinitions(pending));
      NewColumnsCover(Names(st.columns), b.columns);
    }
  }

  /** The store is ready for the batch whenever the directory succeeds. */
  lemma StoreBatchReady(cfg: IngestConfig, st: TableState, b: Batch)
    requires TableInv(st) && Distinct(BatchNames(b.columns)) && "id" !in BatchNames(b.columns)
    requires StoreBatch(cfg, st, b).1.Ingested?
    ensures InsertReady(StoreBatch(cfg, st, b).0.columns, b)
  {
    if !st.present {
      CreateMakesReady(cfg, b);
    } else {
      AlterMakesReady(st.columns, b);
    }
  }

  /** After a successful directory the table has a column for every column of the CSV file
      but `id`, and for both period columns. */
  lemma IngestCoversBatch(cfg: IngestConfig, st: TableState, dirName: string, raw: Batch)
    requires ConfigOk(cfg) && TableInv(st) && WellFormed(raw)
    requires IngestSpec(cfg, st, dirName, raw).1.Ingested?
    ensures var cols' := IngestSpec(cfg, st, dirName, raw).0.columns;
      && cfg.monthColumn in Names(cols') && cfg.yearColumn in Names(cols')
      && forall n :: n in BatchNames(raw.columns) && n != "id" ==> n in Names(cols')
  {
    var p := ParsePeriod(dirName).value;
    var b := PrepareBatch(cfg, raw, p);
    PrepareBatchEffects(cfg, raw, p);
    StoreBatchCoversBatch(cfg, st, b);
    var bs := BatchNames(b.columns);
    forall n | n in bs ensures n in Names(IngestSpec(cfg, st, dirName, raw).0.columns) {
      assert b.columns[IndexOf(bs, n)].name == n;
    }
  }

  /** Every row an insert appends holds a fresh id and, under each batch column's name,
      the batch's value. */
  lemma InsertedRowsCarryBatch(cols: seq<Column>, rows: seq<Row>, b: Batch, i: nat)
    requires |cols| >= 1 && InsertReady(cols, b) && i < |b.rows|
    ensures var r := InsertSpec(cols, rows, b)[|rows| + i];
      && Cell(r, 0) == Int(|rows| + 1 + i)
      && forall n :: n in BatchNames(b.columns) ==> StoredValue(cols, r, n) == ValueOf(b, i, n)
  {
    InsertedRow(cols, rows, b, i);
    forall n | n in BatchNames(b.columns)
      ensures StoredValue(cols, InsertSpec(cols, rows, b)[|rows| + i], n) == ValueOf(b, i, n)
    {
      StoreRowHoldsBatchValue(cols, b, i, |rows| + 1 + i, n);
    }
  }

  lemma StoreBatchInserts(cfg: IngestConfig, st: TableState, b: Batch)
    requires StoreBatch(cfg, st, b).1.Ingested?
    ensures StoreBatch(cfg, st, b).0.rows == InsertSpec(StoreBatch(cfg, st, b).0.columns, st.rows, b)
  {
  }

  lemma InsertedRow(cols: seq<Column>, rows: seq<Row>, b: Batch, i: nat)
    requires i < |b.rows|
    ensures InsertSpec(cols, rows, b)[|rows| + i] == StoreRow(cols, b.columns, b.rows[i], |rows| + 1 + i)
  {
  }

  /** A directory whose name parses stores its prepared batch. */
  lemma IngestStoresPrepared(cfg: IngestConfig, st: TableState, dirName: string, p: Period, raw: Batch)
    requires WellFormed(raw) && ParsePeriod(dirName) == Some(p)
    ensures IngestSpec(cfg, st, dirName, raw) == StoreBatch(cfg, st, PrepareBatch(cfg, raw, p))
  {
  }

  /** The rows a successful store appends are its batch, stored. */
  lemma StoredRowsCarryBatch(cfg: IngestConfig, st: TableState, b: Batch, i: nat)
    requires TableInv(st) && WellFormed(b) && "id" !in BatchNames(b.columns)
    requires StoreBatch(cfg, st, b).1.Ingested? && i < |b.rows|
    ensures |StoreBatch(cfg, st, b).0.rows| == |st.rows| + |b.rows|
    ensures var st' := StoreBatch(cfg, st, b).0;
      var r := RowAt(st'.rows, |st.rows| + i);
      && Cell(r, 0) == Int(|st.rows| + 1 + i)
      && forall n :: n in BatchNames(b.columns) ==> StoredValue(st'.columns, r, n) == ValueOf(b, i, n)
  {
    var st' := StoreBatch(cfg, st, b).0;
    StoreBatchReady(cfg, st, b);
    StoreBatchInserts(cfg, st, b);
    StoreBatchKeepsInv(cfg, st, b);
    assert st'.present;
    AppendedRowCarries(st'.columns, st.rows, st'.rows, b, i);
  }

  lemma AppendedRowCarries(cols: seq<Column>, before: seq<Row>, rows: seq<Row>, b: Batch, i: nat)
    requires rows == InsertSpec(cols, before, b)
    requires |cols| >= 1 && InsertReady(cols, b) && i < |b.rows|
    ensures |rows| == |before| + |b.rows|
    ensures var r := RowAt(rows, |before| + i);
      && Cell(r, 0) == Int(|before| + 1 + i)
      && forall n :: n in BatchNames(b.columns) ==> StoredValue(cols, r, n) == ValueOf(b, i, n)
  {
    InsertedRowsCarryBatch(cols, before, b, i);
    assert RowAt(rows, |before| + i) == rows[|before| + i];
  }

  /** Every row a directory appends holds a fresh id, the directory's period in the two
      period columns, and, in every other column of the CSV file, that file's value;
      a CSV `id` column is never stored. */
  lemma IngestedRowsCarryBatch(cfg: IngestConfig, st: TableState, dirName: string, raw: Batch, i: nat)
    requires ConfigOk(cfg) && TableInv(st) && WellFormed(raw)
    requires IngestSpec(cfg, st, dirName, raw).1.Ingested? && i < |raw.rows|
    ensures |IngestSpec(cfg, st, dirName, raw).0.rows| == |st.rows| + |raw.rows|
    ensures var st' := IngestSpec(cfg, st, dirName, raw).0;
      var p := ParsePeriod(dirName).value;
      var r := RowAt(st'.rows, |st.rows| + i);
      && Cell(r, 0) == Int(|st.rows| + 1 + i)
      && StoredValue(st'.columns, r, cfg.monthColumn) == Str(p.month)
      && StoredValue(st'.columns, r, cfg.yearColumn) == Str(p.year)
      && forall n :: n in BatchNames(raw.columns) && n != "id" && n != cfg.monthColumn && n != cfg.yearColumn ==>
           StoredValue(st'.columns, r, n) == ValueOf(raw, i, n)
  {
    var p := ParsePeriod(dirName).value;
    var b := PrepareBatch(cfg, raw, p);
    IngestStoresPrepared(cfg, st, dirName, p, raw);
    PrepareBatchEffects(cfg, raw, p);
    StoredRowsCarryBatch(cfg, st, b, i);
  }

  /** A store fails exactly when SQLite refuses a column: on CREATE, when two of the
      table's column names coincide ignoring case; on ALTER, when the missing columns
      clash ignoring case with the table's or with each other. */
  lemma StoreAbortsIffNameClash(cfg: IngestConfig, st: TableState, b: Batch)
    requires TableInv(st)
    ensures StoreBatch(cfg, st, b).1 == Aborted <==>
        if st.present then !CiDistinct(Names(st.columns) + BatchNames(NewColumns(Names(st.columns), b.columns)))
        else !CiDistinct(["id"] + BatchNames(b.columns))
  {
    if st.present {
      AlterSucceedsIffNamesDistinct(st.columns, NewColumns(Names(st.columns), b.columns));
    } else {
      CreateDefinitionNames(cfg.textOnCreate, b.columns);
      NamesAppend([IdColumn], CreateDefinitions(cfg.textOnCreate, b.columns));
      assert Names([IdColumn]) == ["id"];
    }
  }

  /** A directory whose name is a period fails exactly on such a clash of its prepared
      batch. */
  lemma IngestAbortsIffNameClash(cfg: IngestConfig, st: TableState, dirName: string, raw: Batch)
    requires TableInv(st) && WellFormed(raw) && ParsePeriod(dirName).Some?
    ensures var b := PrepareBatch(cfg, raw, ParsePeriod(dirName).value);
      IngestSpec(cfg, st, dirName, raw).1 == Aborted <==>
        if st.present then !CiDistinct(Names(st.columns) + BatchNames(NewColumns(Names(st.columns), b.columns)))
        else !CiDistinct(["id"] + BatchNames(b.columns))
  {
    var b := PrepareBatch(cfg, raw, ParsePeriod(dirName).value);
    assert IngestSpec(cfg, st, dirName, raw) == StoreBatch(cfg, st, b);
    StoreAbortsIffNameClash(cfg, st, b);
  }

  /** A CSV file with an upper-case `ID` column: the exact-name drop keeps it, and the
      CREATE then fails on the duplicate of `id`. */
  lemma UpperCaseIdAbortsCreate(cfg: IngestConfig, raw: Batch)
    requires ConfigOk(cfg) && WellFormed(raw) && "ID" in BatchNames(raw.columns)
    ensures IngestSpec(cfg, TableState(false, [], []), "Jan 2020", raw).1 == Aborted
  {
    var p := Period("Jan", "2020");
    AcceptsCanonicalName();
    IngestStoresPrepared(cfg, TableState(false, [], []), "Jan 2020", p, raw);
    PrepareBatchEffects(cfg, raw, p);
    CreateRefusesId(cfg, PrepareBatch(cfg, raw, p));
  }

  /** A batch with a column `ID` cannot be created: SQLite takes it for `id`. */
  lemma CreateRefusesId(cfg: IngestConfig, b: Batch)
    requires "ID" in BatchNames(b.columns)
    ensures CreateSpec(cfg, b).None?
  {
    var cols := [IdColumn] + CreateDefinitions(cfg.textOnCreate, b.columns);
    var q := IndexOf(BatchNames(b.columns), "ID");
    CreateDefinitionNames(cfg.textOnCreate, b.columns);
    NamesAppend([IdColumn], CreateDefinitions(cfg.textOnCreate, b.columns));
    assert Names(cols)[0] == "id" && Names(cols)[q + 1] == "ID";
    UpperIdIsId();
  }

  lemma UpperIdIsId()
    ensures SameIdent("ID", "id")
  {
    var u, l := Lower("ID"), Lower("id");
    assert LowerChar('I') == 'i' && LowerChar('D') == 'd';
    assert u[0] == 'i' && u[1] == 'd' && l[0] == 'i' && l[1] == 'd';
    assert u == l;
  }

  // ---------------------------------------------------------------------------
  // Re-ingesting a header

  /** A directory whose CSV file has the header of an already ingested one asks for no
      ALTER and appends its rows. */
  lemma ReingestSameHeader(cfg: IngestConfig, st: TableState, d1: string, raw1: Batch, d2: string, raw2: Batch)
    requires ConfigOk(cfg) && TableInv(st) && WellFormed(raw1) && WellFormed(raw2)
    requires raw2.columns == raw1.columns
    requires IngestSpec(cfg, st, d1, raw1).1.Ingested? && ParsePeriod(d2).Some?
    ensures var st1 := IngestSpec(cfg, st, d1, raw1).0;
      && IngestSpec(cfg, st1, d2, raw2).1 == Ingested(|raw2.rows|)
      && IngestSpec(cfg, st1, d2, raw2).0.columns == st1.columns
  {
    var st1 := IngestSpec(cfg, st, d1, raw1).0;
    var b1 := PrepareBatch(cfg, raw1, ParsePeriod(d1).value);
    var b2 := PrepareBatch(cfg, raw2, ParsePeriod(d2).value);
    PrepareBatchHeader(cfg, raw1, ParsePeriod(d1).value);
    PrepareBatchHeader(cfg, raw2, ParsePeriod(d2).value);
    assert b2.columns == b1.columns;
    StoreBatchCoversBatch(cfg, st, b1);
    IngestEffects(cfg, st, d1, raw1);
    NoNewColumnsForKnownHeader(Names(st1.columns), b2.columns);
    PrepareBatchEffects(cfg, raw2, ParsePeriod(d2).value);
  }

  // ---------------------------------------------------------------------------
  // The decision rule for CREATE types

  /** Tagging leaves the period columns as object columns. */
  lemma TagColumnsAreObjects(cfg: IngestConfig, raw: Batch, p: Period)
    requires ConfigOk(cfg) && WellFormed(raw)
    ensures var b := PrepareBatch(cfg, raw, p);
      forall j :: 0 <= j < |b.columns| && (b.columns[j].name == cfg.monthColumn || b.columns[j].name == cfg.yearColumn) ==>
        b.columns[j].dtype == Other
  {
    var m := SetColumn(raw, cfg.monthColumn, Str(p.month));
    TagHeaderEntries(raw.columns, cfg.monthColumn);
    TagHeaderEntries(m.columns, cfg.yearColumn);
    DropHeaderEntries(SetColumn(m, cfg.yearColumn, Str(p.year)).columns, "id");
  }

  lemma TagHeaderEntries(cols: seq<BatchColumn>, name: string)
    requires Distinct(BatchNames(cols))
    ensures forall c :: c in TagHeader(cols, name) ==> if c.name == name then c.dtype == Other else c in cols
  {
    var ns := BatchNames(cols);
    if name in ns {
      var k := IndexOf(ns, name);
      forall c | c in TagHeader(cols, name) ensures if c.name == name then c.dtype == Other else c in cols {
        var q :| 0 <= q < |cols| && TagHeader(cols, name)[q] == c;
        if q != k {
          assert c == cols[q];
          assert ns[q] != ns[k];
        }
      }
    }
  }

  lemma DropHeaderEntries(cols: seq<BatchColumn>, name: string)
    ensures forall c :: c in DropHeader(cols, name) ==> c in cols
  {
    var ns := BatchNames(cols);
    if name in ns {
      var k := IndexOf(ns, name);
      assert DropHeader(cols, name) == cols[..k] + cols[k + 1..];
    }
  }

  /** The TEXT-on-create list of the people ingestor names only the period columns,
      which tagging already made object columns: the CREATE types every column by the
      plain dtype rule, in all three ingestors alike. */
  lemma CreateTypesFollowDtypeRule(cfg: IngestConfig, raw: Batch, p: Period)
    requires ConfigOk(cfg) && WellFormed(raw)
    requires forall k :: 0 <= k < |cfg.textOnCreate| ==>
      cfg.textOnCreate[k] == cfg.monthColumn || cfg.textOnCreate[k] == cfg.yearColumn
    ensures var b := PrepareBatch(cfg, raw, p);
      CreateDefinitions(cfg.textOnCreate, b.columns) == AlterDefinitions(b.columns)
  {
    var b := PrepareBatch(cfg, raw, p);
    TagColumnsAreObjects(cfg, raw, p);
    var c, a := CreateDefinitions(cfg.textOnCreate, b.columns), AlterDefinitions(b.columns);
    forall j | 0 <= j < |b.columns| ensures c[j] == a[j] {
      if b.columns[j].name in cfg.textOnCreate {
        var k :| 0 <= k < |cfg.textOnCreate| && cfg.textOnCreate[k] == b.columns[j].name;
        assert b.columns[j].dtype == Other;
      }
    }
  }

  lemma PeopleCreateTypesFollowDtypeRule(raw: Batch, p: Period)
    requires WellFormed(raw)
    ensures var b := PrepareBatch(PeopleConfig, raw, p);
      CreateDefinitions(PeopleConfig.textOnCreate, b.columns) == AlterDefinitions(b.columns)
  {
    CreateTypesFollowDtypeRule(PeopleConfig, raw, p);
  }

  // ---------------------------------------------------------------------------
  // The directory loop

  /** The number of rows of the entries whose directory names are periods. */
  function PeriodRows(entries: seq<Entry>): nat
  {
    if entries == [] then 0
    else (if ParsePeriod(entries[0].dirName).Some? then |entries[0].batch.rows| else 0) + PeriodRows(entries[1..])
  }

  /** Over a whole run the invariant holds, the schema only grows, rows are only appended,
      and a run that completes appends exactly the rows of every period directory. */
  lemma {:induction false} ProcessEffects(cfg: IngestConfig, st: TableState, entries: seq<Entry>)
    requires TableInv(st) && EntriesOk(entries)
    ensures var (st', completed) := ProcessSpec(cfg, st, entries);
      && TableInv(st')
      && |st.columns| <= |st'.columns| && st'.columns[..|st.columns|] == st.columns
      && |st.rows| <= |st'.rows| && st'.rows[..|st.rows|] == st.rows
      && (completed ==> |st'.rows| == |st.rows| + PeriodRows(entries))
    decreases |entries|
  {
    if entries != [] {
      var e := entries[0];
      var step := IngestSpec(cfg, st, e.dirName, e.batch);
      IngestKeepsInv(cfg, st, e.dirName, e.batch);
      IngestEffects(cfg, st, e.dirName, e.batch);
      if step.1 != Aborted {
        EntriesOkTail(entries);
        ProcessEffects(cfg, step.0, entries[1..]);
        assert ProcessSpec(cfg, st, entries) == ProcessSpec(cfg, step.0, entries[1..]);
        var st' := ProcessSpec(cfg, step.0, entries[1..]).0;
        PrefixTrans(st.columns, step.0.columns, st'.columns);
        PrefixTrans(st.rows, step.0.rows, st'.rows);
      }
    }
  }

  lemma PrefixTrans<T>(a: seq<T>, b: seq<T>, c: seq<T>)
    requires |a| <= |b| <= |c| && b[..|a|] == a && c[..|b|] == b
    ensures c[..|a|] == a
  {
    assert c[..|a|] == c[..|b|][..|a|];
  }

  /** Every CSV column (but `id`) of the period directories among `entries` is a
      column of `cols`. */
  ghost predicate CoversEntries(cols: seq<Column>, entries: seq<Entry>)
  {
    forall k, n ::
      (0 <= k < |entries| && ParsePeriod(entries[k].dirName).Some? &&
       n in BatchNames(entries[k].batch.columns) && n != "id") ==> n in Names(cols)
  }

  /** A run that reaches the end has every CSV column (but `id`) of every period
      directory as a column of the table. */
  lemma {:induction false} ProcessCoversEveryBatch(cfg: IngestConfig, st: TableState, entries: seq<Entry>)
    requires ConfigOk(cfg) && TableInv(st) && EntriesOk(entries)
    requires ProcessSpec(cfg, st, entries).1
    ensures CoversEntries(ProcessSpec(cfg, st, entries).0.columns, entries)
    decreases |entries|
  {
    if entries != [] {
      var e := entries[0];
      var step := IngestSpec(cfg, st, e.dirName, e.batch);
      assert step.1 != Aborted;
      IngestKeepsInv(cfg, st, e.dirName, e.batch);
      EntriesOkTail(entries);
      var rest := ProcessSpec(cfg, step.0, entries[1..]);
      assert ProcessSpec(cfg, st, entries) == rest;
      ProcessCoversEveryBatch(cfg, step.0, entries[1..]);
      ProcessEffects(cfg, step.0, entries[1..]);
      FirstEntryCovered(cfg, st, e, rest.0.columns);
      TailCovered(rest.0.columns, entries);
    }
  }

  lemma FirstEntryCovered(cfg: IngestConfig, st: TableState, e: Entry, cols: seq<Column>)
    requires ConfigOk(cfg) && TableInv(st) && WellFormed(e.batch)
    requires IngestSpec(cfg, st, e.dirName, e.batch).1 != Aborted
    requires var c := IngestSpec(cfg, st, e.dirName, e.batch).0.columns; (|c| <= |cols| && cols[..|c|] == c)
    ensures ParsePeriod(e.dirName).Some? ==>
      forall n :: n in BatchNames(e.batch.columns) && n != "id" ==> n in Names(cols)
  {
    if ParsePeriod(e.dirName).Some? {
      assert IngestSpec(cfg, st, e.dirName, e.batch).1.Ingested? by {
        ParsedBatchIsStored(cfg, st, e.dirName, e.batch);
      }
      IngestCoversBatch(cfg, st, e.dirName, e.batch);
      PrefixCovers(IngestSpec(cfg, st, e.dirName, e.batch).0.columns, cols, BatchNames(e.batch.columns));
    }
  }

  lemma ParsedBatchIsStored(cfg: IngestConfig, st: TableState, dirName: string, raw: Batch)
    requires WellFormed(raw) && ParsePeriod(dirName).Some?
    ensures IngestSpec(cfg, st, dirName, raw).1 != Skipped
  {
  }

  lemma PrefixCovers(c: seq<Column>, cols: seq<Column>, ns: seq<string>)
    requires |c| <= |cols| && cols[..|c|] == c
    requires forall n :: n in ns && n != "id" ==> n in Names(c)
    ensures forall n :: n in ns && n != "id" ==> n in Names(cols)
  {
    forall n | n in ns && n != "id" ensures n in Names(cols) {
      var q := IndexOf(Names(c), n);
      assert Names(cols)[q] == n;
    }
  }

  lemma TailCovered(cols: seq<Column>, entries: seq<Entry>)
    requires entries != [] && CoversEntries(cols, entries[1..])
    requires ParsePeriod(entries[0].dirName).Some? ==>
      forall n :: n in BatchNames(entries[0].batch.columns) && n != "id" ==> n in Names(cols)
    ensures CoversEntries(cols, entries)
  {
    forall k, n | 0 <= k < |entries| && ParsePeriod(entries[k].dirName).Some? &&
      n in BatchNames(entries[k].batch.columns) && n != "id"
      ensures n in Names(cols)
    {
      if k > 0 {
        LaterEntryCovered(cols, entries, k, n);
      }
    }
  }

  lemma LaterEntryCovered(cols: seq<Column>, entries: seq<Entry>, k: nat, n: string)
    requires 0 < k < |entries| && CoversEntries(cols, entries[1..])
    requires ParsePeriod(entries[k].dirName).Some? && n in BatchNames(entries[k].batch.columns) && n != "id"
    ensures n in Names(cols)
  {
    var e := entries[1..][k - 1];
    assert e == entries[k];
    assert ParsePeriod(e.dirName).Some? && n in BatchNames(e.batch.columns);
  }
}
