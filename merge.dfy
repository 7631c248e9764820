/** `combine_databases` of mergeDBs.py. Every table of every source database,
    `sqlite_sequence` excepted, is copied into the target in order, with the sources
    taken in list order. Each copy drops the target's table of that name, recreates it
    from the source's definition, and then copies the rows in windows of `chunk_size`,
    committing after each window.

    A source's tables are read from that source's catalog entry. Queries by name find
    that entry, because SQLite table names are distinct ignoring case. */
module Merge {
  import opened Store

  const SequenceTable: string := "sqlite_sequence"

  function Min(a: int, b: int): int
  {
    if a <= b then a else b
  }

  /** Rows as `SELECT *` returns them: each padded to the table's width. */
  function PadAll(rows: seq<Row>, width: nat): (p: seq<Row>)
    ensures |p| == |rows|
    ensures forall i :: 0 <= i < |rows| ==> p[i] == Pad(rows[i], width)
  {
    seq(|rows|, i requires 0 <= i < |rows| => Pad(rows[i], width))
  }

  lemma PadAllAppend(a: seq<Row>, b: seq<Row>, width: nat)
    ensures PadAll(a + b, width) == PadAll(a, width) + PadAll(b, width)
  {
  }

  /** `SELECT * FROM t LIMIT size OFFSET offset`. */
  function Window(t: Table, offset: nat, size: nat): seq<Row>
  {
    var n := |t.rows|;
    PadAll(t.rows[Min(offset, n)..Min(offset + size, n)], |t.columns|)
  }

  /** The first k windows of size c, concatenated: what the target holds after k commits. */
  function Chunks(t: Table, c: nat, k: nat): seq<Row>
    decreases k
  {
    if k == 0 then [] else Chunks(t, c, k - 1) + Window(t, (k - 1) * c, c)
  }

  /** After k windows the target holds exactly the first min(k * c, total) source rows,
      each once and in order. */
  lemma {:induction false} ChunksArePrefix(t: Table, c: nat, k: nat)
    ensures Chunks(t, c, k) == PadAll(t.rows[..Min(k * c, |t.rows|)], |t.columns|)
    decreases k
  {
    var n := |t.rows|;
    if k == 0 {
      assert t.rows[..0] == [];
    } else {
      ChunksArePrefix(t, c, k - 1);
      var o := (k - 1) * c;
      assert o + c == k * c;
      PrefixWindow(t, o, c);
    }
  }

  /** The rows up to a window's end are the rows before it, then the window. */
  lemma PrefixWindow(t: Table, o: nat, c: nat)
    ensures PadAll(t.rows[..Min(o + c, |t.rows|)], |t.columns|)
         == PadAll(t.rows[..Min(o, |t.rows|)], |t.columns|) + Window(t, o, c)
  {
    var n := |t.rows|;
    var a, b := Min(o, n), Min(o + c, n);
    assert t.rows[..b] == t.rows[..a] + t.rows[a..b];
    PadAllAppend(t.rows[..a], t.rows[a..b], |t.columns|);
  }

  /** The number of windows `range(0, total, c)` yields: offsets 0, c, 2c, ... below total. */
  function ChunkCount(total: nat, c: nat): nat
    requires c > 0
  {
    (total + c - 1) / c
  }

  /** ChunkCount is the ceiling of total / c: the fewest windows that cover every row. */
  lemma ChunkCountIsCeiling(total: nat, c: nat)
    requires c > 0
    ensures ChunkCount(total, c) * c >= total
    ensures ChunkCount(total, c) == 0 || (ChunkCount(total, c) - 1) * c < total
  {
    var k := ChunkCount(total, c);
    var m := total + c - 1;
    assert m == k * c + m % c;
    assert 0 <= m % c < c;
  }

  /** The ceiling windows cover the whole table. */
  lemma AllChunksCopyAll(t: Table, c: nat)
    requires c > 0
    ensures Chunks(t, c, ChunkCount(|t.rows|, c)) == PadAll(t.rows, |t.columns|)
  {
    ChunkCountIsCeiling(|t.rows|, c);
    ChunksArePrefix(t, c, ChunkCount(|t.rows|, c));
    assert t.rows[..|t.rows|] == t.rows;
  }

  // ---------------------------------------------------------------------------
  // One table

  /** The target's catalog after `DROP TABLE IF EXISTS name` and the source's CREATE: the
      new, empty table is listed last. */
  function Recreate(target: Catalog, name: string, src: Table): Catalog
  {
    DropTable(target, name) + [NamedTable(name, Table(src.columns, []))]
  }

  /** Copying one table: the catalog it leaves and whether the run goes on. A chunk size of
      0 makes `range` raise ValueError after the table was recreated. A negative one gives
      an empty range, which leaves the table empty. */
  function CopySpec(target: Catalog, name: string, src: Table, chunkSize: int): (Catalog, bool)
  {
    var rows := if chunkSize > 0 then PadAll(src.rows, |src.columns|) else [];
    (DropTable(target, name) + [NamedTable(name, Table(src.columns, rows))], chunkSize != 0)
  }

  /** The INSERT's target: after the recreate, the name finds the last table. */
  lemma RecreatedIsFound(target: Catalog, name: string, t: Table)
    ensures FindTable(DropTable(target, name) + [NamedTable(name, t)], name) == Some(|DropTable(target, name)|)
  {
    FindAppended(DropTable(target, name), name, t);
  }

  method CopyTable(db: Database, name: string, src: Table, chunkSize: int) returns (ok: bool, chunks: nat, progress: nat)
    modifies db
    ensures (db.tables, ok) == CopySpec(old(db.tables), name, src, chunkSize)
    ensures chunkSize > 0 ==> chunks == ChunkCount(|src.rows|, chunkSize) && progress == |src.rows|
  {
    db.tables := Recreate(db.tables, name, src);
    var base := DropTable(old(db.tables), name);
    if chunkSize == 0 {
      return false, 0, 0;
    }
    var total := |src.rows|;  // SELECT COUNT(*)
    chunks, progress := 0, 0;
    if chunkSize > 0 {
      var offset := 0;
      while offset < total
        invariant offset == chunks * chunkSize
        invariant chunks == 0 || (chunks - 1) * chunkSize < total
        invariant progress == Min(offset, total)
        invariant db.tables == base + [NamedTable(name, Table(src.columns, Chunks(src, chunkSize, chunks)))]
        decreases total - offset
      {
        var data := Window(src, offset, chunkSize);  // SELECT * ... LIMIT ... OFFSET ...
        RecreatedIsFound(old(db.tables), name, Table(src.columns, Chunks(src, chunkSize, chunks)));
        var k := FindTable(db.tables, name).value;  // INSERT INTO name, then commit
        CopyStep(src, chunkSize, chunks);
        AppendToLast(base, NamedTable(name, Table(src.columns, Chunks(src, chunkSize, chunks))),
          NamedTable(name, Table(src.columns, Chunks(src, chunkSize, chunks + 1))));
        db.tables := db.tables[k := NamedTable(name, Table(src.columns, db.tables[k].table.rows + data))];
        progress := progress + |data|;
        offset := offset + chunkSize;
        chunks := chunks + 1;
      }
      assert offset >= total;
      ChunkCountIsCeiling(total, chunkSize);
      assert chunks == ChunkCount(total, chunkSize) by {
        LeastCover(total, chunkSize, chunks);
      }
      AllChunksCopyAll(src, chunkSize);
    }
    ok := true;
  }

  /** One more window: it extends the copied rows by the next source rows, up to the end. */
  lemma CopyStep(t: Table, c: nat, k: nat)
    requires c > 0 && k * c < |t.rows|
    ensures Chunks(t, c, k + 1) == Chunks(t, c, k) + Window(t, k * c, c)
    ensures k * c + c == (k + 1) * c
    ensures Min(k * c, |t.rows|) + |Window(t, k * c, c)| == Min(k * c + c, |t.rows|)
  {
  }

  lemma AppendToLast(base: Catalog, last: NamedTable, last': NamedTable)
    ensures (base + [last])[|base| := last'] == base + [last']
  {
  }

  /** At most one number of windows covers the rows with the last one non-empty. */
  lemma LeastCover(total: nat, c: nat, k: nat)
    requires c > 0 && k * c >= total && (k == 0 || (k - 1) * c < total)
    ensures k == ChunkCount(total, c)
  {
    var n := ChunkCount(total, c);
    ChunkCountIsCeiling(total, c);
    if k < n {
      MulLe(k, n - 1, c);
      assert false;
    } else if n < k {
      MulLe(n, k - 1, c);
      assert false;
    }
  }

  lemma MulLe(a: nat, b: nat, c: nat)
    requires a <= b
    ensures a * c <= b * c
  {
    assert b * c == a * c + (b - a) * c;
  }

  // ---------------------------------------------------------------------------
  // Every table of every source

  /** One source's tables, in catalog order; a failure stops the run. */
  function CopyAll(target: Catalog, tables: Catalog, chunkSize: int): (Catalog, bool)
    decreases |tables|
  {
    if tables == [] then (target, true)
    else if tables[0].name == SequenceTable then CopyAll(target, tables[1..], chunkSize)
    else
      var (t, ok) := CopySpec(target, tables[0].name, tables[0].table, chunkSize);
      if !ok then (t, false) else CopyAll(t, tables[1..], chunkSize)
  }

  /** The sources after one of them was copied. */
  function Continue(r: (Catalog, bool), rest: seq<Catalog>, chunkSize: int): (Catalog, bool)
    decreases |rest|, 1
  {
    if !r.1 then r else CombineSpec(r.0, rest, chunkSize)
  }

  function CombineSpec(target: Catalog, sources: seq<Catalog>, chunkSize: int): (Catalog, bool)
    decreases |sources|, 0
  {
    if sources == [] then (target, true)
    else Continue(CopyAll(target, sources[0], chunkSize), sources[1..], chunkSize)
  }

  method CombineDatabases(db: Database, sources: seq<Catalog>, chunkSize: int) returns (completed: bool)
    modifies db
    ensures (db.tables, completed) == CombineSpec(old(db.tables), sources, chunkSize)
  {
    var i := 0;
    assert sources[0..] == sources;
    while i < |sources|
      invariant 0 <= i <= |sources|
      invariant CombineSpec(db.tables, sources[i..], chunkSize) == CombineSpec(old(db.tables), sources, chunkSize)
    {
      CombineStep(db.tables, sources, i, chunkSize);
      var ok := CopySource(db, sources[i], chunkSize);
      if !ok {
        return false;
      }
      i := i + 1;
    }
    assert sources[i..] == [];
    completed := true;
  }

  /** The inner loop of `combine_databases`: every table of one source, in catalog order. */
  method CopySource(db: Database, tables: Catalog, chunkSize: int) returns (ok: bool)
    modifies db
    ensures (db.tables, ok) == CopyAll(old(db.tables), tables, chunkSize)
  {
    var j := 0;
    assert tables[0..] == tables;
    while j < |tables|
      invariant 0 <= j <= |tables|
      invariant CopyAll(db.tables, tables[j..], chunkSize) == CopyAll(old(db.tables), tables, chunkSize)
    {
      ghost var before := db.tables;
      CopyAllStep(before, tables, j, chunkSize);
      if tables[j].name != SequenceTable {
        var copied, _, _ := CopyTable(db, tables[j].name, tables[j].table, chunkSize);
        if !copied {
          return false;
        }
      }
      j := j + 1;
    }
    assert tables[j..] == [];
    ok := true;
  }

  /** The next source of the run: its tables are copied, and then the sources after it. */
  lemma CombineStep(target: Catalog, sources: seq<Catalog>, i: nat, chunkSize: int)
    requires i < |sources|
    ensures CombineSpec(target, sources[i..], chunkSize)
         == Continue(CopyAll(target, sources[i], chunkSize), sources[i + 1..], chunkSize)
  {
    assert sources[i..][0] == sources[i];
    assert sources[i..][1..] == sources[i + 1..];
  }

  /** The next table of a source: skipped when it is `sqlite_sequence`, and otherwise copied,
      the run stopping if the copy failed. */
  lemma CopyAllStep(target: Catalog, tables: Catalog, j: nat, chunkSize: int)
    requires j < |tables|
    ensures tables[j].name == SequenceTable ==>
      CopyAll(target, tables[j..], chunkSize) == CopyAll(target, tables[j + 1..], chunkSize)
    ensures tables[j].name != SequenceTable ==>
      var r := CopySpec(target, tables[j].name, tables[j].table, chunkSize);
      CopyAll(target, tables[j..], chunkSize) == if !r.1 then (r.0, false) else CopyAll(r.0, tables[j + 1..], chunkSize)
  {
    assert tables[j..][0] == tables[j];
    assert tables[j..][1..] == tables[j + 1..];
  }

  // ---------------------------------------------------------------------------
  // What the combined target holds

  /** The copy a table receives when the run completes. */
  function CopyOf(nt: NamedTable, chunkSize: int): NamedTable
  {
    NamedTable(nt.name, Table(nt.table.columns, if chunkSize > 0 then PadAll(nt.table.rows, |nt.table.columns|) else []))
  }

  /** No table of `tables` but `sqlite_sequence` shares `name`, ignoring case. */
  predicate Untouched(tables: Catalog, name: string)
  {
    forall s :: s in tables && s.name != SequenceTable ==> !SameIdent(s.name, name)
  }

  /** A target table that no copied table shares a name with stays as it was. */
  lemma {:induction false} CopyAllKeeps(target: Catalog, tables: Catalog, chunkSize: int, t: NamedTable)
    requires t in target && Untouched(tables, t.name)
    ensures t in CopyAll(target, tables, chunkSize).0
    decreases |tables|
  {
    if tables != [] {
      assert tables[0] in tables;
      assert Untouched(tables[1..], t.name) by {
        forall s | s in tables[1..] ensures s in tables { }
      }
      if tables[0].name == SequenceTable {
        CopyAllKeeps(target, tables[1..], chunkSize, t);
      } else {
        var (next, ok) := CopySpec(target, tables[0].name, tables[0].table, chunkSize);
        assert t in next by {
          assert !SameIdent(t.name, tables[0].name) by {
            assert !SameIdent(tables[0].name, t.name);
          }
        }
        if ok {
          CopyAllKeeps(next, tables[1..], chunkSize, t);
        }
      }
    }
  }

  /** A copied table whose name no later table of the same source shares ends up in the
      target, with all its rows, when the copy completes. */
  lemma {:induction false} CopyAllPlaces(target: Catalog, tables: Catalog, chunkSize: int, k: nat)
    requires k < |tables| && tables[k].name != SequenceTable && Untouched(tables[k + 1..], tables[k].name)
    requires CopyAll(target, tables, chunkSize).1
    ensures CopyOf(tables[k], chunkSize) in CopyAll(target, tables, chunkSize).0
    decreases |tables|
  {
    var (next, ok) := if tables[0].name == SequenceTable then (target, true)
                      else CopySpec(target, tables[0].name, tables[0].table, chunkSize);
    assert CopyAll(target, tables, chunkSize) == CopyAll(next, tables[1..], chunkSize);
    if k == 0 {
      assert CopyOf(tables[0], chunkSize) in next;
      assert tables[1..] == tables[k + 1..];
      CopyAllKeeps(next, tables[1..], chunkSize, CopyOf(tables[0], chunkSize));
    } else {
      assert tables[1..][k - 1] == tables[k] && tables[1..][k..] == tables[k + 1..];
      CopyAllPlaces(next, tables[1..], chunkSize, k - 1);
    }
  }

  /** A target table no source table shares a name with stays as it is. */
  lemma {:induction false} OthersUnchanged(target: Catalog, sources: seq<Catalog>, chunkSize: int, t: NamedTable)
    requires t in target && forall i :: 0 <= i < |sources| ==> Untouched(sources[i], t.name)
    ensures t in CombineSpec(target, sources, chunkSize).0
    decreases |sources|
  {
    if sources != [] {
      CopyAllKeeps(target, sources[0], chunkSize, t);
      var r := CopyAll(target, sources[0], chunkSize);
      if r.1 {
        forall i | 0 <= i < |sources| - 1 ensures Untouched(sources[1..][i], t.name) {
          assert sources[1..][i] == sources[i + 1];
        }
        OthersUnchanged(r.0, sources[1..], chunkSize, t);
      }
    }
  }

  /** The last source wins: a table copied from a source, whose name no later table of that
      source or of a later source shares, is in the combined target with all its rows. */
  lemma {:induction false} LastSourceWins(target: Catalog, sources: seq<Catalog>, chunkSize: int, i: nat, k: nat)
    requires i < |sources| && k < |sources[i]| && sources[i][k].name != SequenceTable
    requires Untouched(sources[i][k + 1..], sources[i][k].name)
    requires forall j :: i < j < |sources| ==> Untouched(sources[j], sources[i][k].name)
    requires CombineSpec(target, sources, chunkSize).1
    ensures CopyOf(sources[i][k], chunkSize) in CombineSpec(target, sources, chunkSize).0
    decreases |sources|
  {
    var r := CopyAll(target, sources[0], chunkSize);
    assert r.1;
    if i == 0 {
      CopyAllPlaces(target, sources[0], chunkSize, k);
      forall j | 0 <= j < |sources| - 1 ensures Untouched(sources[1..][j], sources[0][k].name) {
        assert sources[1..][j] == sources[j + 1];
      }
      OthersUnchanged(r.0, sources[1..], chunkSize, CopyOf(sources[0][k], chunkSize));
    } else {
      assert sources[1..][i - 1] == sources[i];
      forall j | i - 1 < j < |sources| - 1 ensures Untouched(sources[1..][j], sources[i][k].name) {
        assert sources[1..][j] == sources[j + 1];
      }
      LastSourceWins(r.0, sources[1..], chunkSize, i - 1, k);
    }
  }

  /** The run completes exactly when the chunk size is not 0 or there is nothing to copy. */
  lemma {:induction false} CopyAllCompletes(target: Catalog, tables: Catalog, chunkSize: int)
    ensures CopyAll(target, tables, chunkSize).1 <==> chunkSize != 0 || forall s :: s in tables ==> s.name == SequenceTable
    decreases |tables|
  {
    if tables != [] {
      assert forall s :: s in tables <==> s == tables[0] || s in tables[1..];
      if tables[0].name == SequenceTable {
        CopyAllCompletes(target, tables[1..], chunkSize);
      } else if chunkSize != 0 {
        var (t, _) := CopySpec(target, tables[0].name, tables[0].table, chunkSize);
        CopyAllCompletes(t, tables[1..], chunkSize);
      }
    }
  }

  lemma {:induction false} CombineCompletes(target: Catalog, sources: seq<Catalog>, chunkSize: int)
    ensures CombineSpec(target, sources, chunkSize).1 <==>
      chunkSize != 0 || forall i, s :: 0 <= i < |sources| && s in sources[i] ==> s.name == SequenceTable
    decreases |sources|
  {
    if sources != [] {
      CopyAllCompletes(target, sources[0], chunkSize);
      var r := CopyAll(target, sources[0], chunkSize);
      if r.1 {
        CombineCompletes(r.0, sources[1..], chunkSize);
        assert (forall i, s :: 0 <= i < |sources| && s in sources[i] ==> s.name == SequenceTable) <==>
          (forall s :: s in sources[0] ==> s.name == SequenceTable) &&
          (forall i, s :: 0 <= i < |sources| - 1 && s in sources[1..][i] ==> s.name == SequenceTable)
        by {
          forall i | 0 <= i < |sources| - 1 ensures sources[1..][i] == sources[i + 1] { }
        }
      }
    }
  }

  /** The copy reads the same as its source: every field of every row, NULL past the end
      of a short row included. */
  lemma CopyReadsAsSource(nt: NamedTable, chunkSize: int, i: nat, col: nat)
    requires chunkSize > 0 && i < |nt.table.rows| && col < |nt.table.columns|
    ensures |CopyOf(nt, chunkSize).table.rows| == |nt.table.rows|
    ensures Cell(CopyOf(nt, chunkSize).table.rows[i], col) == Cell(nt.table.rows[i], col)
  {
  }
}
