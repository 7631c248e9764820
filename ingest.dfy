/** The evolving-schema period ingestor that createSQLPyramids.py, createSQLPeople.py
    and createSQLIncome.py each implement for one dataset table.

    For every directory holding the dataset's CSV file the script parses the directory
    name as a period and skips the directory if that fails; tags every row with the
    period's month and year; drops an incoming `id` column; creates the table
    (`id INTEGER PRIMARY KEY AUTOINCREMENT` plus one typed column per batch column) if
    it does not exist, or else adds the columns it lacks; and appends the rows,
    matching values to columns by the batch's own column list.

    The pure part (period parsing, tagging, the type rule, the missing columns) is in
    functions; what changes the table is in the methods of `DatasetTable`, each proved
    to produce the state that `IngestSpec` and its parts describe. */
module Ingest {
  import opened Store
  import opened Period
  import opened Schema

  /** What the three scripts differ in: the table, the names of the two period columns,
      and the column names that are TEXT on create whatever their dtype. */
  datatype IngestConfig = IngestConfig(
    tableName: string, monthColumn: string, yearColumn: string, textOnCreate: seq<string>)

  const PyramidsConfig := IngestConfig("consumption_pyramids", "DIR_MONTH", "DIR_YEAR", [])
  const PeopleConfig := IngestConfig("people_of_india", "month", "year", ["month", "year"])
  const IncomeConfig := IngestConfig("household_income", "DIR_MONTH", "DIR_YEAR", [])

  /** The period columns are two different names, neither of them `id`. */
  predicate ConfigOk(cfg: IngestConfig)
  {
    cfg.monthColumn != cfg.yearColumn && cfg.monthColumn != "id" && cfg.yearColumn != "id"
  }

  lemma ConfigsOk()
    ensures ConfigOk(PyramidsConfig) && ConfigOk(PeopleConfig) && ConfigOk(IncomeConfig)
  {
  }

  // ---------------------------------------------------------------------------
  // Batches: a CSV file as pandas holds it

  /** A data frame: a header of column names with their dtypes, and rows. */
  datatype Batch = Batch(columns: seq<BatchColumn>, rows: seq<Row>)

  predicate Distinct(ns: seq<string>)
  {
    forall i, j :: 0 <= i < j < |ns| ==> ns[i] != ns[j]
  }

  /** What `pd.read_csv` delivers: distinct column names (pandas renames repeated
      headers) and one value per column in every row. */
  predicate WellFormed(b: Batch)
  {
    && Distinct(BatchNames(b.columns))
    && forall i :: 0 <= i < |b.rows| ==> |b.rows[i]| == |b.columns|
  }

  function IndexOf(ns: seq<string>, n: string): (k: nat)
    requires n in ns
    ensures k < |ns| && ns[k] == n
    ensures forall j :: 0 <= j < k ==> ns[j] != n
  {
    if ns[0] == n then 0 else 1 + IndexOf(ns[1..], n)
  }

  lemma IndexOfDistinct(ns: seq<string>, k: nat)
    requires Distinct(ns) && k < |ns|
    ensures IndexOf(ns, ns[k]) == k
  {
  }

  /** `df[n][i]`: the value row `i` holds in the column named `n` (Null if the frame has
      no such column). */
  function ValueOf(b: Batch, i: nat, n: string): Value
    requires i < |b.rows|
  {
    var ns := BatchNames(b.columns);
    if n in ns then Cell(b.rows[i], IndexOf(ns, n)) else Null
  }

  /** The header after `df[name] = <string>`: an existing column keeps its place and
      becomes an object column, a new one is appended. */
  function TagHeader(cols: seq<BatchColumn>, name: string): seq<BatchColumn>
  {
    var ns := BatchNames(cols);
    if name in ns then cols[IndexOf(ns, name) := BatchColumn(name, Other)]
    else cols + [BatchColumn(name, Other)]
  }

  /** `df[name] = v` for a scalar string `v`. */
  function SetColumn(b: Batch, name: string, v: Value): (r: Batch)
    requires WellFormed(b)
    ensures r.columns == TagHeader(b.columns, name)
    ensures WellFormed(r) && |r.rows| == |b.rows|
  {
    var ns := BatchNames(b.columns);
    if name in ns then
      var k := IndexOf(ns, name);
      var r := Batch(b.columns[k := BatchColumn(name, Other)],
                     seq(|b.rows|, i requires 0 <= i < |b.rows| => b.rows[i][k := v]));
      assert BatchNames(r.columns) == ns;
      r
    else
      var r := Batch(b.columns + [BatchColumn(name, Other)],
                     seq(|b.rows|, i requires 0 <= i < |b.rows| => b.rows[i] + [v]));
      assert BatchNames(r.columns) == ns + [name];
      r
  }

  /** After `df[name] = v` the frame has the column `name`, holding `v` in every row, and
      every other column as before. */
  lemma SetColumnEffects(b: Batch, name: string, v: Value)
    requires WellFormed(b)
    ensures var r := SetColumn(b, name, v);
      && (forall n :: n in BatchNames(r.columns) <==> n in BatchNames(b.columns) || n == name)
      && (forall i :: 0 <= i < |r.rows| ==> ValueOf(r, i, name) == v)
      && (forall i, n :: 0 <= i < |r.rows| && n != name ==> ValueOf(r, i, n) == ValueOf(b, i, n))
  {
    var r := SetColumn(b, name, v);
    var ns := BatchNames(b.columns);
    if name in ns {
      assert BatchNames(r.columns) == ns;
    } else {
      assert BatchNames(r.columns) == ns + [name];
      forall n | n in ns ensures IndexOf(ns + [name], n) == IndexOf(ns, n) {
        IndexOfDistinct(ns + [name], IndexOf(ns, n));
      }
      IndexOfDistinct(ns + [name], |ns|);
    }
  }

  /** The header after `df.drop(name, axis=1)` when the column is present. */
  function DropHeader(cols: seq<BatchColumn>, name: string): seq<BatchColumn>
  {
    var ns := BatchNames(cols);
    if name in ns then
      var k := IndexOf(ns, name);
      cols[..k] + cols[k + 1..]
    else cols
  }

  lemma DropKeepsDistinct(cols: seq<BatchColumn>, k: nat)
    requires k < |cols| && Distinct(BatchNames(cols))
    ensures var ns, rs := BatchNames(cols), BatchNames(cols[..k] + cols[k + 1..]);
      && rs == ns[..k] + ns[k + 1..]
      && Distinct(rs)
      && forall q :: 0 <= q < |rs| ==> rs[q] == ns[if q < k then q else q + 1]
  {
    var ns, rs := BatchNames(cols), BatchNames(cols[..k] + cols[k + 1..]);
    assert rs == ns[..k] + ns[k + 1..];
    forall i, j | 0 <= i < j < |rs| ensures rs[i] != rs[j] {
      var i', j' := if i < k then i else i + 1, if j < k then j else j + 1;
      assert rs[i] == ns[i'] && rs[j] == ns[j'];
    }
  }

  /** `if name in df.columns: df = df.drop(name, axis=1)`. */
  function DropColumn(b: Batch, name: string): (r: Batch)
    requires WellFormed(b)
    ensures r.columns == DropHeader(b.columns, name)
    ensures WellFormed(r) && |r.rows| == |b.rows|
  {
    var ns := BatchNames(b.columns);
    if name in ns then
      var k := IndexOf(ns, name);
      DropKeepsDistinct(b.columns, k);
      Batch(b.columns[..k] + b.columns[k + 1..],
            seq(|b.rows|, i requires 0 <= i < |b.rows| => b.rows[i][..k] + b.rows[i][k + 1..]))
    else b
  }

  /** After the drop the frame has every column but `name`, with its values. */
  lemma DropColumnEffects(b: Batch, name: string)
    requires WellFormed(b)
    ensures var r := DropColumn(b, name);
      && (forall n :: n in BatchNames(r.columns) <==> n in BatchNames(b.columns) && n != name)
      && (forall i, n :: 0 <= i < |r.rows| && n != name ==> ValueOf(r, i, n) == ValueOf(b, i, n))
  {
    if name in BatchNames(b.columns) {
      DropColumnNames(b, name);
      DropColumnValues(b, name);
    }
  }

  lemma DropColumnNames(b: Batch, name: string)
    requires WellFormed(b) && name in BatchNames(b.columns)
    ensures forall n :: n in BatchNames(DropColumn(b, name).columns) <==> n in BatchNames(b.columns) && n != name
  {
    var ns := BatchNames(b.columns);
    var k := IndexOf(ns, name);
    DropKeepsDistinct(b.columns, k);
    assert BatchNames(DropColumn(b, name).columns) == ns[..k] + ns[k + 1..];
    DropNames(ns, k);
  }

  /** Removing position `k` of distinct names removes exactly the name at `k`. */
  lemma DropNames(ns: seq<string>, k: nat)
    requires Distinct(ns) && k < |ns|
    ensures forall n :: n in ns[..k] + ns[k + 1..] <==> n in ns && n != ns[k]
  {
    var rs := ns[..k] + ns[k + 1..];
    forall n | n in rs ensures n in ns && n != ns[k] {
      var q :| 0 <= q < |rs| && rs[q] == n;
      assert n == ns[if q < k then q else q + 1];
    }
    forall n | n in ns && n != ns[k] ensures n in rs {
      DropIndex(ns, k, n);
    }
  }

  lemma DropColumnValues(b: Batch, name: string)
    requires WellFormed(b) && name in BatchNames(b.columns)
    ensures var r := DropColumn(b, name);
      forall i, n :: 0 <= i < |r.rows| && n != name ==> ValueOf(r, i, n) == ValueOf(b, i, n)
  {
    var ns := BatchNames(b.columns);
    var k := IndexOf(ns, name);
    var r := DropColumn(b, name);
    assert BatchNames(r.columns) == ns[..k] + ns[k + 1..];
    forall i, n | 0 <= i < |r.rows| && n != name ensures ValueOf(r, i, n) == ValueOf(b, i, n) {
      DropNamedCell(ns, k, b.rows[i], n);
    }
  }

  /** One row: a name other than the dropped one reads the same cell before and after. */
  lemma DropNamedCell(ns: seq<string>, k: nat, row: Row, n: string)
    requires Distinct(ns) && k < |ns| == |row| && n != ns[k]
    ensures var rs, rr := ns[..k] + ns[k + 1..], row[..k] + row[k + 1..];
      (if n in rs then Cell(rr, IndexOf(rs, n)) else Null)
        == (if n in ns then Cell(row, IndexOf(ns, n)) else Null)
  {
    if n in ns {
      DropIndex(ns, k, n);
      DropRowCell(row, k, IndexOf(ns, n));
    } else {
      assert n !in ns[..k] + ns[k + 1..];
    }
  }

  /** Dropping position `k` of distinct names moves every other name one place down if it
      came after `k`. */
  lemma DropIndex(ns: seq<string>, k: nat, n: string)
    requires Distinct(ns) && k < |ns| && n in ns && n != ns[k]
    ensures var rs, p := ns[..k] + ns[k + 1..], IndexOf(ns, n);
      n in rs && IndexOf(rs, n) == (if p < k then p else p - 1)
  {
    var rs, p := ns[..k] + ns[k + 1..], IndexOf(ns, n);
    var q := if p < k then p else p - 1;
    assert rs[q] == n;
    assert Distinct(rs) by {
      forall i, j | 0 <= i < j < |rs| ensures rs[i] != rs[j] {
        assert rs[i] == ns[if i < k then i else i + 1] && rs[j] == ns[if j < k then j else j + 1];
      }
    }
    IndexOfDistinct(rs, q);
  }

  lemma DropRowCell(row: Row, k: nat, p: nat)
    requires k < |row| && p < |row| && p != k
    ensures Cell(row[..k] + row[k + 1..], if p < k then p else p - 1) == Cell(row, p)
  {
    var q := if p < k then p else p - 1;
    assert (row[..k] + row[k + 1..])[q] == row[p];
  }

  /** The batch as the scripts insert it: tagged with the period, `id` dropped. */
  function PrepareBatch(cfg: IngestConfig, raw: Batch, p: Period): (b: Batch)
    requires WellFormed(raw)
  {
    var tagged := SetColumn(SetColumn(raw, cfg.monthColumn, Str(p.month)), cfg.yearColumn, Str(p.year));
    DropColumn(tagged, "id")
  }

  /** The header of the prepared batch depends on the raw header alone. */
  function PrepareHeader(cfg: IngestConfig, cols: seq<BatchColumn>): seq<BatchColumn>
  {
    DropHeader(TagHeader(TagHeader(cols, cfg.monthColumn), cfg.yearColumn), "id")
  }

  lemma PrepareBatchHeader(cfg: IngestConfig, raw: Batch, p: Period)
    requires WellFormed(raw)
    ensures PrepareBatch(cfg, raw, p).columns == PrepareHeader(cfg, raw.columns)
  {
  }

  /** What tagging and the `id` drop do to a batch: same row count, no `id` column, both
      period columns present and holding the period in every row, every other column
      kept with its values. */
  lemma PrepareBatchEffects(cfg: IngestConfig, raw: Batch, p: Period)
    requires ConfigOk(cfg) && WellFormed(raw)
    ensures var b := PrepareBatch(cfg, raw, p);
      && WellFormed(b) && |b.rows| == |raw.rows|
      && "id" !in BatchNames(b.columns)
      && (forall n :: n in BatchNames(b.columns) <==>
            (n in BatchNames(raw.columns) && n != "id") || n == cfg.monthColumn || n == cfg.yearColumn)
      && (forall i :: 0 <= i < |b.rows| ==>
            ValueOf(b, i, cfg.monthColumn) == Str(p.month) && ValueOf(b, i, cfg.yearColumn) == Str(p.year))
      && (forall i, n :: 0 <= i < |b.rows| && n != "id" && n != cfg.monthColumn && n != cfg.yearColumn ==>
            ValueOf(b, i, n) == ValueOf(raw, i, n))
  {
    var m := SetColumn(raw, cfg.monthColumn, Str(p.month));
    SetColumnEffects(raw, cfg.monthColumn, Str(p.month));
    SetColumnEffects(m, cfg.yearColumn, Str(p.year));
    DropColumnEffects(SetColumn(m, cfg.yearColumn, Str(p.year)), "id");
  }

  // ---------------------------------------------------------------------------
  // The table and its specification

  const IdColumn := Column("id", Integer)

  /** One dataset table: whether it exists, its columns in table order, its rows. */
  datatype TableState = TableState(present: bool, columns: seq<Column>, rows: seq<Row>)

  /** What every state of a dataset table satisfies: an absent table is empty; a present
      one starts with the `id` key and has no two columns of the same name; no row is
      wider than the table; and the store-assigned ids are 1, 2, 3, ... in row order. */
  predicate TableInv(st: TableState)
  {
    && (!st.present ==> st.columns == [] && st.rows == [])
    && (st.present ==> |st.columns| >= 1 && st.columns[0] == IdColumn && CiDistinct(Names(st.columns)))
    && forall k :: 0 <= k < |st.rows| ==> 1 <= |st.rows[k]| <= |st.columns| && st.rows[k][0] == Int(k + 1)
  }

  /** `CREATE TABLE`: the `id` key followed by one column per batch column; SQLite
      refuses it if two of these names coincide (ignoring case). */
  function CreateSpec(cfg: IngestConfig, b: Batch): Option<seq<Column>>
  {
    var defs := [IdColumn] + CreateDefinitions(cfg.textOnCreate, b.columns);
    if CiDistinct(Names(defs)) then Some(defs) else None
  }

  /** The condition under which `INSERT INTO t (<batch columns>)` is reached: every batch
      column names a column of the table other than `id`, and no two name the same one. */
  predicate InsertReady(cols: seq<Column>, b: Batch)
  {
    && CiDistinct(BatchNames(b.columns))
    && forall j :: 0 <= j < |b.columns| ==>
         Lookup(Names(cols), b.columns[j].name).Some? && Lookup(Names(cols), b.columns[j].name).value >= 1
  }

  /** The record one batch row becomes: the new id in the key column, each batch value
      in the column its name resolves to, NULL in the columns the batch lacks. */
  function StoreRow(cols: seq<Column>, bcols: seq<BatchColumn>, r: Row, id: int): (s: Row)
    ensures |s| == |cols|
  {
    seq(|cols|, k requires 0 <= k < |cols| =>
      if k == 0 then Int(id)
      else match Lookup(BatchNames(bcols), cols[k].name)
        case Some(j) => Cell(r, j)
        case None => Null)
  }

  /** `executemany` of the batch rows: appended in batch order, ids continuing. */
  function InsertSpec(cols: seq<Column>, rows: seq<Row>, b: Batch): (r: seq<Row>)
    ensures |r| == |rows| + |b.rows| && r[..|rows|] == rows
  {
    rows + seq(|b.rows|, i requires 0 <= i < |b.rows| => StoreRow(cols, b.columns, b.rows[i], |rows| + 1 + i))
  }

  /** The value a stored row holds in the column named `n`. */
  function StoredValue(cols: seq<Column>, r: Row, n: string): Value
  {
    match Lookup(Names(cols), n)
    case Some(k) => Cell(r, k)
    case None => Null
  }

  datatype IngestOutcome = Skipped | Ingested(rowCount: nat) | Aborted

  /** One directory: parse, prepare, create or alter, insert. An error raised by SQLite
      (a duplicate column name) is not caught by the scripts and ends the run. */
  function IngestSpec(cfg: IngestConfig, st: TableState, dirName: string, raw: Batch): (TableState, IngestOutcome)
    requires WellFormed(raw)
  {
    match ParsePeriod(dirName)
    case None => (st, Skipped)
    case Some(p) => StoreBatch(cfg, st, PrepareBatch(cfg, raw, p))
  }

  /** Create-or-alter followed by the insert, for a prepared batch. */
  function StoreBatch(cfg: IngestConfig, st: TableState, b: Batch): (TableState, IngestOutcome)
  {
    if !st.present then
      match CreateSpec(cfg, b)
      case None => (st, Aborted)
      case Some(cols) => (TableState(true, cols, InsertSpec(cols, st.rows, b)), Ingested(|b.rows|))
    else
      var alter := AlterFrom(st.columns, NewColumns(Names(st.columns), b.columns));
      if alter.1 then (TableState(true, alter.0, InsertSpec(alter.0, st.rows, b)), Ingested(|b.rows|))
      else (TableState(true, alter.0, st.rows), Aborted)
  }

  /** A directory the walk found holding the dataset's CSV file: its name and its batch. */
  datatype Entry = Entry(dirName: string, batch: Batch)

  predicate EntriesOk(entries: seq<Entry>)
  {
    forall i :: 0 <= i < |entries| ==> WellFormed(entries[i].batch)
  }

  /** The directory loop: every entry in walk order, stopping at the first error.
      Returns the final state and whether the loop ran to its end. */
  function ProcessSpec(cfg: IngestConfig, st: TableState, entries: seq<Entry>): (TableState, bool)
    requires EntriesOk(entries)
    decreases |entries|
  {
    if entries == [] then (st, true)
    else
      var step := IngestSpec(cfg, st, entries[0].dirName, entries[0].batch);
      if step.1 == Aborted then (step.0, false)
      else
        EntriesOkTail(entries);
        ProcessSpec(cfg, step.0, entries[1..])
  }

  lemma EntriesOkTail(entries: seq<Entry>)
    requires EntriesOk(entries) && entries != []
    ensures EntriesOk(entries[1..])
  {
    forall i | 0 <= i < |entries| - 1 ensures WellFormed(entries[1..][i].batch) {
      assert entries[1..][i] == entries[i + 1];
    }
  }

  // ---------------------------------------------------------------------------
  // Step lemmas the methods rely on

  /** The walk from entry `i` on is entry `i`'s directory followed, unless it failed, by
      the walk from `i + 1`. */
  lemma ProcessStep(cfg: IngestConfig, st: TableState, entries: seq<Entry>, i: nat, st': TableState, o: IngestOutcome)
    requires i < |entries| && EntriesOk(entries[i..])
    requires WellFormed(entries[i].batch) && (st', o) == IngestSpec(cfg, st, entries[i].dirName, entries[i].batch)
    ensures EntriesOk(entries[i + 1..])
    ensures o == Aborted ==> ProcessSpec(cfg, st, entries[i..]) == (st', false)
    ensures o != Aborted ==> ProcessSpec(cfg, st, entries[i..]) == ProcessSpec(cfg, st', entries[i + 1..])
  {
    assert entries[i..][0] == entries[i];
    assert entries[i..][1..] == entries[i + 1..];
    EntriesOkTail(entries[i..]);
  }

  /** Inserting one more batch row appends its record. */
  lemma InsertSpecSnoc(cols: seq<Column>, rows: seq<Row>, b: Batch, i: nat)
    requires i < |b.rows|
    ensures var before := InsertSpec(cols, rows, Batch(b.columns, b.rows[..i]));
      InsertSpec(cols, rows, Batch(b.columns, b.rows[..i + 1]))
        == before + [StoreRow(cols, b.columns, b.rows[i], |before| + 1)]
  {
    var before := InsertSpec(cols, rows, Batch(b.columns, b.rows[..i]));
    var after := InsertSpec(cols, rows, Batch(b.columns, b.rows[..i + 1]));
    assert |before| == |rows| + i;
    forall t | 0 <= t < |after| ensures after[t] == (before + [StoreRow(cols, b.columns, b.rows[i], |before| + 1)])[t] {
      if t >= |rows| {
        assert b.rows[..i + 1][t - |rows|] == b.rows[t - |rows|];
        if t < |rows| + i {
          assert b.rows[..i][t - |rows|] == b.rows[t - |rows|];
        }
      }
    }
  }

  lemma CreateKeepsInv(cfg: IngestConfig, b: Batch)
    requires CreateSpec(cfg, b).Some?
    ensures TableInv(TableState(true, CreateSpec(cfg, b).value, []))
  {
  }

  lemma AlterKeepsInv(st: TableState, pending: seq<BatchColumn>)
    requires TableInv(st) && st.present
    ensures TableInv(TableState(true, AlterFrom(st.columns, pending).0, st.rows))
  {
    AlterKeepsNamesDistinct(st.columns, pending);
  }

  lemma InsertKeepsInv(st: TableState, b: Batch)
    requires TableInv(st) && st.present
    ensures TableInv(TableState(true, st.columns, InsertSpec(st.columns, st.rows, b)))
  {
    var r := InsertSpec(st.columns, st.rows, b);
    forall k | 0 <= k < |r| ensures 1 <= |r[k]| <= |st.columns| && r[k][0] == Int(k + 1) {
      if k >= |st.rows| {
        assert r[k] == StoreRow(st.columns, b.columns, b.rows[k - |st.rows|], k + 1);
      } else {
        assert r[k] == st.rows[k];
      }
    }
  }

  /** A batch whose every column is present by its exact name in a table of distinct
      names that starts with `id` can be inserted: each column resolves, past `id`, to
      the place where it stands, and the batch's own names are distinct ignoring case. */
  lemma PresentMakesReady(cols: seq<Column>, b: Batch)
    requires |cols| >= 1 && cols[0] == IdColumn && CiDistinct(Names(cols))
    requires Distinct(BatchNames(b.columns)) && "id" !in BatchNames(b.columns)
    requires forall j :: 0 <= j < |b.columns| ==> b.columns[j].name in Names(cols)
    ensures InsertReady(cols, b)
  {
    var ns, bs := Names(cols), BatchNames(b.columns);
    forall j | 0 <= j < |b.columns|
      ensures Lookup(ns, bs[j]) == Some(IndexOf(ns, bs[j])) && IndexOf(ns, bs[j]) >= 1
    {
      LookupDistinct(ns, IndexOf(ns, bs[j]));
    }
    forall i, j | 0 <= i < j < |bs| ensures !SameIdent(bs[i], bs[j]) {
      var p, q := IndexOf(ns, bs[i]), IndexOf(ns, bs[j]);
      if p < q {
        assert !SameIdent(ns[p], ns[q]);
      } else {
        assert p != q;
        assert !SameIdent(ns[q], ns[p]);
      }
    }
  }

  lemma CreateMakesReady(cfg: IngestConfig, b: Batch)
    requires CreateSpec(cfg, b).Some? && Distinct(BatchNames(b.columns)) && "id" !in BatchNames(b.columns)
    ensures InsertReady(CreateSpec(cfg, b).value, b)
  {
    var cols := CreateSpec(cfg, b).value;
    forall j | 0 <= j < |b.columns| ensures b.columns[j].name in Names(cols) {
      assert cols[j + 1].name == b.columns[j].name;
    }
    PresentMakesReady(cols, b);
  }

  /** Every incoming name is either already there or among the missing columns. */
  lemma NewColumnsCover(existing: seq<string>, incoming: seq<BatchColumn>)
    ensures forall j :: 0 <= j < |incoming| ==>
      incoming[j].name in existing + BatchNames(NewColumns(existing, incoming))
  {
    var pending := NewColumns(existing, incoming);
    forall j | 0 <= j < |incoming| ensures incoming[j].name in existing + BatchNames(pending) {
      if incoming[j].name !in existing {
        var q :| 0 <= q < |pending| && pending[q] == incoming[j];
        assert (existing + BatchNames(pending))[|existing| + q] == incoming[j].name;
      }
    }
  }

  lemma AlterMakesReady(cols: seq<Column>, b: Batch)
    requires |cols| >= 1 && cols[0] == IdColumn && CiDistinct(Names(cols))
    requires Distinct(BatchNames(b.columns)) && "id" !in BatchNames(b.columns)
    requires AlterFrom(cols, NewColumns(Names(cols), b.columns)).1
    ensures InsertReady(AlterFrom(cols, NewColumns(Names(cols), b.columns)).0, b)
  {
    var pending := NewColumns(Names(cols), b.columns);
    var cols' := AlterFrom(cols, pending).0;
    assert cols' == cols + AlterDefinitions(pending);
    AlterKeepsNamesDistinct(cols, pending);
    NamesAppend(cols, AlterDefinitions(pending));
    NewColumnsCover(Names(cols), b.columns);
    assert cols'[0] == IdColumn;
    PresentMakesReady(cols', b);
  }

  // ---------------------------------------------------------------------------
  // The table, as the scripts change it

  class DatasetTable {
    const config: IngestConfig
    var present: bool
    var columns: seq<Column>
    var rows: seq<Row>

    function State(): TableState
      reads this
    {
      TableState(present, columns, rows)
    }

    ghost predicate Valid()
      reads this
    {
      ConfigOk(config) && TableInv(State())
    }

    /** A database file in which the dataset's table does not exist yet. */
    constructor (cfg: IngestConfig)
      requires ConfigOk(cfg)
      ensures Valid() && config == cfg && State() == TableState(false, [], [])
    {
      config := cfg;
      present := false;
      columns := [];
      rows := [];
    }

    /** `create_table_if_not_exists`, called when the table does not exist: the column
        definitions are appended one per batch column. */
    method CreateTable(b: Batch) returns (ok: bool)
      requires Valid() && !present
      modifies this
      ensures Valid()
      ensures ok == CreateSpec(config, b).Some?
      ensures ok ==> State() == TableState(true, CreateSpec(config, b).value, old(rows))
      ensures !ok ==> State() == old(State())
    {
      var defs := [IdColumn];
      var i := 0;
      while i < |b.columns|
        invariant 0 <= i <= |b.columns|
        invariant defs == [IdColumn] + CreateDefinitions(config.textOnCreate, b.columns[..i])
      {
        var c := b.columns[i];
        var t := if c.name in config.textOnCreate then Text else SqlTypeOf(c.dtype);
        assert b.columns[..i + 1][..i] == b.columns[..i];
        defs := defs + [Column(c.name, t)];
        i := i + 1;
      }
      assert b.columns[..i] == b.columns;
      if !CiDistinct(Names(defs)) {
        return false;
      }
      CreateKeepsInv(config, b);
      present, columns := true, defs;
      ok := true;
    }

    /** `add_missing_columns`: one ALTER per column of the batch the table lacks, in batch
        order; stops at the first ALTER that SQLite refuses. */
    method AddMissingColumns(b: Batch) returns (ok: bool)
      requires Valid() && present
      modifies this
      ensures Valid() && present && rows == old(rows)
      ensures (columns, ok) == AlterFrom(old(columns), NewColumns(Names(old(columns)), b.columns))
    {
      var pending := NewColumns(Names(columns), b.columns);
      ghost var target := AlterFrom(columns, pending);
      AlterKeepsInv(State(), pending);
      var i := 0;
      while i < |pending|
        invariant 0 <= i <= |pending|
        invariant AlterFrom(columns, pending[i..]) == target
        invariant present && rows == old(rows)
      {
        var c := pending[i];
        if CiMember(Names(columns), c.name) {
          return false;
        }
        assert pending[i..][1..] == pending[i + 1..];
        columns := columns + [Column(c.name, SqlTypeOf(c.dtype))];
        i := i + 1;
      }
      assert pending[i..] == [];
      ok := true;
    }

    /** `insert_data`: every batch row becomes a record, appended in batch order. */
    method InsertRows(b: Batch)
      requires Valid() && present && InsertReady(columns, b)
      modifies this
      ensures Valid() && present && columns == old(columns)
      ensures rows == InsertSpec(old(columns), old(rows), b)
    {
      InsertKeepsInv(State(), b);
      var i := 0;
      while i < |b.rows|
        invariant 0 <= i <= |b.rows|
        invariant present && columns == old(columns)
        invariant rows == InsertSpec(columns, old(rows), Batch(b.columns, b.rows[..i]))
      {
        InsertSpecSnoc(columns, old(rows), b, i);
        rows := rows + [StoreRow(columns, b.columns, b.rows[i], |rows| + 1)];
        i := i + 1;
      }
      assert b.rows[..i] == b.rows;
    }

    /** The body of the directory loop for one directory. */
    method IngestBatch(dirName: string, raw: Batch) returns (outcome: IngestOutcome)
      requires Valid() && WellFormed(raw)
      modifies this
      ensures Valid()
      ensures (State(), outcome) == IngestSpec(config, old(State()), dirName, raw)
    {
      var period := ParsePeriod(dirName);
      if period.None? {
        return Skipped;
      }
      var b := PrepareBatch(config, raw, period.value);
      PrepareBatchEffects(config, raw, period.value);
      if !present {
        var ok := CreateTable(b);
        if !ok {
          return Aborted;
        }
        CreateMakesReady(config, b);
      } else {
        var ok := AddMissingColumns(b);
        if !ok {
          return Aborted;
        }
        AlterMakesReady(old(columns), b);
      }
      InsertRows(b);
      outcome := Ingested(|b.rows|);
    }

    /** `process_*_files`: the directories in walk order. */
    method ProcessDirectories(entries: seq<Entry>) returns (completed: bool)
      requires Valid() && EntriesOk(entries)
      modifies this
      ensures Valid()
      ensures (State(), completed) == ProcessSpec(config, old(State()), entries)
    {
      var i := 0;
      assert entries[0..] == entries;
      while i < |entries|
        invariant 0 <= i <= |entries| && Valid()
        invariant EntriesOk(entries[i..])
        invariant ProcessSpec(config, State(), entries[i..]) == ProcessSpec(config, old(State()), entries)
      {
        ghost var before := State();
        assert entries[i..][0] == entries[i];
        var outcome := IngestBatch(entries[i].dirName, entries[i].batch);
        ProcessStep(config, before, entries, i, State(), outcome);
        if outcome == Aborted {
          return false;
        }
        i := i + 1;
      }
      assert entries[i..] == [];
      completed := true;
    }
  }
}
