/** `create_joined_table` of filterStates2.py. Every table gets an alias `t0`, `t1`, ...,
    and the anchor's columns are selected under `{table}_{column}` names. Inside the same
    transaction, a unique index is then built on the anchor's household id, month and
    year.

    The alias list is built from whole `PRAGMA table_info` rows rather than their name
    field. The statement text as written therefore never parses (`AsWritten...` below).
    The rest of the model uses the corrected builder, which takes each row's name. */
module FilterStates2 {
  import opened Store
  import opened JoinQuery
  import FilterStates

  /** The alias of the i-th config's table. */
  function Alias(i: nat): string
  {
    "t" + NatToString(i)
  }

  /** `PRAGMA table_info(table)`: the table's columns, or none for a table that does not
      exist. */
  function TableInfo(cat: Catalog, table: string): seq<Column>
  {
    var k := FindTable(cat, table);
    if k.Some? then cat[k.value].table.columns else []
  }

  function TypeName(t: SqlType): string
  {
    match t
    case Integer => "INTEGER"
    case Real => "REAL"
    case Text => "TEXT"
  }

  /** `f"{col}"` of a `PRAGMA table_info` row: Python's rendering of the tuple
      (cid, name, type, notnull, dflt_value, pk). */
  function PragmaRowText(cid: nat, c: Column): string
  {
    "(" + NatToString(cid) + ", '" + c.name + "', '" + TypeName(c.sqlType) + "', 0, None, 0)"
  }

  /** The anchor's select list as lines 24-27 write it, from whole PRAGMA rows. */
  function AsWrittenItems(table: string, cols: seq<Column>): (items: seq<SelectItem>)
    ensures |items| == |cols|
  {
    seq(|cols|, k requires 0 <= k < |cols| =>
      SelectItem(PragmaRowText(k, cols[k]), table + "_" + PragmaRowText(k, cols[k])))
  }

  /** The anchor's select list as intended, from the rows' name field: `t0.col AS table_col`. */
  function AliasItems(table: string, cols: seq<Column>): (items: seq<SelectItem>)
    ensures |items| == |cols|
  {
    seq(|cols|, k requires 0 <= k < |cols| => SelectItem(cols[k].name, table + "_" + cols[k].name))
  }

  /** The columns the intended select list gives the new table. */
  function AliasHeader(table: string, cols: seq<Column>): (h: seq<Column>)
    ensures |h| == |cols|
  {
    seq(|cols|, k requires 0 <= k < |cols| => Column(table + "_" + cols[k].name, cols[k].sqlType))
  }

  /** One aliased JOIN per config after the anchor. */
  function JoinClauses(configs: seq<TableConfig>): (js: seq<JoinClause>)
    requires |configs| >= 1
  {
    seq(|configs| - 1, i requires 0 <= i < |configs| - 1 =>
      JoinClause(Source(configs[i + 1].name, Some(Alias(i + 1))), FilterStates.AnchorKeys(configs[0], configs[i + 1])))
  }

  /** The statement of lines 16-45 with the anchor's select list `items`. Only
      `select_clauses[0]` reaches the query. An empty config list fails when line 38 reads
      `table_configs[0]`, and so does an anchor config without a `state` key. */
  function PlanWith(newTableName: string, configs: seq<TableConfig>, items: seq<SelectItem>, stateCount: nat): Result<Plan, Failure>
  {
    if configs == [] then Err(NoAnchor)
    else if configs[0].state.None? then Err(MissingStateKey)
    else Ok(Plan(newTableName, Source(configs[0].name, Some(Alias(0))), JoinClauses(configs), Columns(items),
                 configs[0].state.value, stateCount))
  }

  function BuildPlanAsWritten(cat: Catalog, newTableName: string, configs: seq<TableConfig>, stateCount: nat): Result<Plan, Failure>
  {
    var items := if configs == [] then [] else AsWrittenItems(configs[0].name, TableInfo(cat, configs[0].name));
    PlanWith(newTableName, configs, items, stateCount)
  }

  function BuildPlan(cat: Catalog, newTableName: string, configs: seq<TableConfig>, stateCount: nat): Result<Plan, Failure>
  {
    var items := if configs == [] then [] else AliasItems(configs[0].name, TableInfo(cat, configs[0].name));
    PlanWith(newTableName, configs, items, stateCount)
  }

  /** The plan exists iff there is a config and the anchor has a `state` key. The anchor is
      aliased `t0` and selected through the corrected list; there is one JOIN per later
      config, the i-th aliased `t{i}` and equating the anchor's configured household id,
      month and year with that config's; the filter is on the anchor's configured state
      column, with one placeholder per state value. */
  lemma PlanShape(cat: Catalog, newTableName: string, configs: seq<TableConfig>, stateCount: nat)
    ensures BuildPlan(cat, newTableName, configs, stateCount).Ok? <==> configs != [] && configs[0].state.Some?
    ensures BuildPlan(cat, newTableName, configs, stateCount).Ok? ==>
      var p := BuildPlan(cat, newTableName, configs, stateCount).value;
      && p.target == newTableName
      && p.anchor == Source(configs[0].name, Some(Alias(0)))
      && p.select == Columns(AliasItems(configs[0].name, TableInfo(cat, configs[0].name)))
      && p.stateColumn == configs[0].state.value
      && p.placeholders == stateCount
      && |p.joins| == |configs| - 1
      && forall i :: 0 <= i < |p.joins| ==>
           p.joins[i] == JoinClause(Source(configs[i + 1].name, Some(Alias(i + 1))), FilterStates.AnchorKeys(configs[0], configs[i + 1]))
  {
  }

  // ---------------------------------------------------------------------------
  // The unique index

  function IndexName(newTableName: string): string
  {
    "idx_" + newTableName + "_pk"
  }

  /** The index columns: the anchor's table name joined to the literal role names, never
      to the configured column names. */
  function IndexColumns(anchorTable: string): seq<string>
  {
    [anchorTable + "_hh_id", anchorTable + "_month", anchorTable + "_year"]
  }

  function ResolveIndexColumns(names: seq<string>, cols: seq<string>): (r: Result<seq<nat>, Failure>)
    ensures r.Ok? ==> |r.value| == |cols|
    ensures r.Ok? ==> forall k :: 0 <= k < |cols| ==> Lookup(names, cols[k]) == Some(r.value[k])
    ensures r.Err? <==> exists k :: 0 <= k < |cols| && !CiMember(names, cols[k])
    decreases |cols|
  {
    if cols == [] then Ok([])
    else
      var k := Lookup(names, cols[0]);
      if k.None? then Err(NoSuchColumn(cols[0]))
      else
        var rest := ResolveIndexColumns(names, cols[1..]);
        if rest.Err? then
          IndexColumnMissingLater(names, cols);
          rest
        else
          IndexColumnsCons(names, cols, k.value, rest.value);
          Ok([k.value] + rest.value)
  }

  lemma IndexColumnMissingLater(names: seq<string>, cols: seq<string>)
    requires cols != [] && exists j :: 0 <= j < |cols| - 1 && !CiMember(names, cols[1..][j])
    ensures exists j :: 0 <= j < |cols| && !CiMember(names, cols[j])
  {
    var j :| 0 <= j < |cols| - 1 && !CiMember(names, cols[1..][j]);
    assert cols[1..][j] == cols[j + 1];
  }

  lemma IndexColumnsCons(names: seq<string>, cols: seq<string>, x: nat, rest: seq<nat>)
    requires cols != [] && Lookup(names, cols[0]) == Some(x) && |rest| == |cols| - 1
    requires forall j :: 0 <= j < |cols| - 1 ==> Lookup(names, cols[1..][j]) == Some(rest[j])
    ensures forall j :: 0 <= j < |cols| ==> Lookup(names, cols[j]) == Some(([x] + rest)[j])
    ensures !exists j :: 0 <= j < |cols| && !CiMember(names, cols[j])
  {
    var r := [x] + rest;
    forall j | 0 <= j < |cols| ensures Lookup(names, cols[j]) == Some(r[j]) {
      if j > 0 {
        assert cols[j] == cols[1..][j - 1] && r[j] == rest[j - 1];
      }
    }
  }

  /** Two rows collide in a UNIQUE index when they agree on every key column and none of
      those values is NULL. */
  predicate SameKey(r: Row, s: Row, keys: seq<nat>)
  {
    forall k :: 0 <= k < |keys| ==> Cell(r, keys[k]) != Null && Cell(r, keys[k]) == Cell(s, keys[k])
  }

  predicate KeyClash(rows: seq<Row>, keys: seq<nat>)
  {
    exists i, j :: 0 <= i < j < |rows| && SameKey(rows[i], rows[j], keys)
  }

  /** `CREATE UNIQUE INDEX name ON table (cols)`: the error it raises, if any. */
  function CreateUniqueIndex(t: Table, indexName: string, cols: seq<string>): Option<Failure>
  {
    if !Word(indexName) || exists k :: 0 <= k < |cols| && !Word(cols[k]) then Some(SyntaxError)
    else
      var keys := ResolveIndexColumns(Names(t.columns), cols);
      if keys.Err? then Some(keys.error)
      else if KeyClash(t.rows, keys.value) then Some(UniqueViolation)
      else None
  }

  // ---------------------------------------------------------------------------
  // The transaction

  /** Create the table, count its rows, index it, and commit; any failure rolls back. */
  function TransactionSpec(cat: Catalog, newTableName: string, plan: Result<Plan, Failure>, stateValues: seq<string>)
    : (Catalog, Result<nat, Failure>)
  {
    if plan.Err? then (cat, Err(plan.error))
    else
      var created := CreateTableAs(cat, plan.value, FilterStates.StateParams(stateValues));
      if created.Err? then (cat, Err(created.error))
      else
        var index := CreateUniqueIndex(created.value, IndexName(newTableName), IndexColumns(plan.value.anchor.table));
        if index.Some? then (cat, Err(index.value))
        else (cat + [NamedTable(newTableName, created.value)], Ok(|created.value.rows|))
  }

  function JoinedTableSpecAsWritten(cat: Catalog, newTableName: string, configs: seq<TableConfig>, stateValues: seq<string>)
    : (Catalog, Result<nat, Failure>)
  {
    TransactionSpec(cat, newTableName, BuildPlanAsWritten(cat, newTableName, configs, |stateValues|), stateValues)
  }

  function JoinedTableSpec(cat: Catalog, newTableName: string, configs: seq<TableConfig>, stateValues: seq<string>)
    : (Catalog, Result<nat, Failure>)
  {
    TransactionSpec(cat, newTableName, BuildPlan(cat, newTableName, configs, |stateValues|), stateValues)
  }

  method CreateJoinedTable(db: Database, newTableName: string, configs: seq<TableConfig>, stateValues: seq<string>)
    returns (result: Result<nat, Failure>)
    modifies db
    ensures (db.tables, result) == JoinedTableSpec(old(db.tables), newTableName, configs, stateValues)
  {
    var saved := db.tables;  // BEGIN TRANSACTION
    var plan := BuildPlan(db.tables, newTableName, configs, |stateValues|);
    if plan.Err? {
      db.tables := saved;  // rollback
      return Err(plan.error);
    }
    var created := CreateTableAs(db.tables, plan.value, FilterStates.StateParams(stateValues));
    if created.Err? {
      db.tables := saved;
      return Err(created.error);
    }
    db.tables := db.tables + [NamedTable(newTableName, created.value)];
    FindAppended(saved, newTableName, created.value);
    var k := FindTable(db.tables, newTableName);  // SELECT COUNT(*) FROM the new table
    var rowCount := |db.tables[k.value].table.rows|;
    var index := CreateUniqueIndex(db.tables[k.value].table, IndexName(newTableName), IndexColumns(plan.value.anchor.table));
    if index.Some? {
      db.tables := saved;
      return Err(index.value);
    }
    result := Ok(rowCount);  // commit
  }

  // ---------------------------------------------------------------------------
  // The statement as written

  /** A PRAGMA row's text starts with a parenthesis, so it is no column name. */
  lemma PragmaRowTextIsNoWord(cid: nat, c: Column)
    ensures !Word(PragmaRowText(cid, c))
  {
    assert PragmaRowText(cid, c)[0] == '(';
  }

  /** As written, every run rolls back and leaves the catalog as it was. An anchor with
      columns yields a select item that is a PRAGMA row's text; an anchor without any (or
      a missing anchor, for which PRAGMA returns nothing) yields an empty select list. */
  lemma AsWrittenAlwaysRollsBack(cat: Catalog, newTableName: string, configs: seq<TableConfig>, stateValues: seq<string>)
    ensures JoinedTableSpecAsWritten(cat, newTableName, configs, stateValues).0 == cat
    ensures JoinedTableSpecAsWritten(cat, newTableName, configs, stateValues).1.Err?
  {
    var plan := BuildPlanAsWritten(cat, newTableName, configs, |stateValues|);
    if plan.Ok? {
      var p := plan.value;
      var items := p.select.items;
      if items != [] {
        PragmaRowTextIsNoWord(0, TableInfo(cat, configs[0].name)[0]);
        assert items[0].column in PlanWords(p) by {
          assert ItemWords(items)[0] == items[0].column;
          var w := [p.target, p.stateColumn] + SourceWords(p.anchor) + JoinWords(p.joins);
          assert PlanWords(p) == w + ItemWords(items);
          assert PlanWords(p)[|w|] == items[0].column;
        }
      }
      assert !Parses(p);
    }
  }

  // ---------------------------------------------------------------------------
  // The corrected statement

  lemma {:induction false} NatToStringInjective(n: nat, m: nat)
    requires NatToString(n) == NatToString(m)
    ensures n == m
    decreases n
  {
    if n >= 10 && m >= 10 {
      var s := NatToString(n);
      assert s[..|s| - 1] == NatToString(n / 10) && s[|s| - 1] == DigitChar(n % 10);
      var t := NatToString(m);
      assert t[..|t| - 1] == NatToString(m / 10) && t[|t| - 1] == DigitChar(m % 10);
      NatToStringInjective(n / 10, m / 10);
    } else if n < 10 && m < 10 {
      assert NatToString(n)[0] == DigitChar(n);
    }
  }

  lemma LowerOfDigits(s: string)
    requires forall i :: 0 <= i < |s| ==> '0' <= s[i] <= '9'
    ensures Lower(s) == s
  {
  }

  /** Distinct configs get distinct aliases, even when they name the same table. */
  lemma AliasesDistinct(i: nat, j: nat)
    requires i != j
    ensures !SameIdent(Alias(i), Alias(j))
  {
    LowerOfDigits(NatToString(i));
    LowerOfDigits(NatToString(j));
    assert Lower(Alias(i)) == "t" + NatToString(i) by {
      assert Lower(Alias(i)) == [LowerChar('t')] + Lower(NatToString(i));
    }
    assert Lower(Alias(j)) == "t" + NatToString(j) by {
      assert Lower(Alias(j)) == [LowerChar('t')] + Lower(NatToString(j));
    }
    if Lower(Alias(i)) == Lower(Alias(j)) {
      assert NatToString(i) == Lower(Alias(i))[1..];
      assert NatToString(j) == Lower(Alias(j))[1..];
      NatToStringInjective(i, j);
    }
  }

  /** Unlike the first variant, the aliased statement never has an ambiguous qualifier, so a
      table may be joined to itself. */
  lemma QualifiersNeverAmbiguous(cat: Catalog, newTableName: string, configs: seq<TableConfig>, stateCount: nat)
    requires BuildPlan(cat, newTableName, configs, stateCount).Ok?
    ensures CheckQualifiers(BuildPlan(cat, newTableName, configs, stateCount).value).None?
  {
    var p := BuildPlan(cat, newTableName, configs, stateCount).value;
    var ns := ExposedNames(p);
    forall k | 0 <= k < |ns| ensures ns[k] == Alias(k) {
      if k > 0 {
        assert ns[k] == Exposed(p.joins[k - 1].source);
      }
    }
    forall k | 0 <= k < |ns| ensures UniqueAt(ns, k) {
      forall j | 0 <= j < |ns| && j != k ensures !SameIdent(ns[j], ns[k]) {
        AliasesDistinct(j, k);
      }
    }
  }

  /** The query a successful run evaluates. */
  function JoinedQuery(cat: Catalog, newTableName: string, configs: seq<TableConfig>, stateValues: seq<string>): Query
    requires BuildPlan(cat, newTableName, configs, |stateValues|).Ok?
    requires Resolve(cat, BuildPlan(cat, newTableName, configs, |stateValues|).value, FilterStates.StateParams(stateValues)).Ok?
  {
    Resolve(cat, BuildPlan(cat, newTableName, configs, |stateValues|).value, FilterStates.StateParams(stateValues)).value
  }

  /** The prepared query reads the anchor's table, joins the i-th later config's table on
      the anchor's and that config's key names, resolves the anchor's configured state
      column, and binds the state values as text. */
  ghost predicate FollowsConfigs(cat: Catalog, configs: seq<TableConfig>, stateValues: seq<string>, q: Query)
    requires configs != [] && configs[0].state.Some?
  {
    && FindTable(cat, configs[0].name).Some?
    && q.anchor == cat[FindTable(cat, configs[0].name).value].table
    && |q.joins| == |configs| - 1
    && (forall i :: 0 <= i < |q.joins| ==>
          JoinResolves(cat, q.anchor.columns,
                       JoinClause(Source(configs[i + 1].name, Some(Alias(i + 1))), FilterStates.AnchorKeys(configs[0], configs[i + 1])),
                       q.joins[i]))
    && Lookup(Names(q.anchor.columns), configs[0].state.value) == Some(q.stateColumn)
    && q.values == FilterStates.StateParams(stateValues)
  }

  /** The query of a plan that prepares follows the configs. */
  lemma JoinedQueryFollowsConfigs(cat: Catalog, newTableName: string, configs: seq<TableConfig>, stateValues: seq<string>)
    requires BuildPlan(cat, newTableName, configs, |stateValues|).Ok?
    requires Resolve(cat, BuildPlan(cat, newTableName, configs, |stateValues|).value, FilterStates.StateParams(stateValues)).Ok?
    ensures configs != [] && configs[0].state.Some?
    ensures FollowsConfigs(cat, configs, stateValues, JoinedQuery(cat, newTableName, configs, stateValues))
  {
    var p := BuildPlan(cat, newTableName, configs, |stateValues|).value;
    ResolveMeaning(cat, p, FilterStates.StateParams(stateValues));
    assert p.joins == JoinClauses(configs);
  }

  /** A failed run leaves the catalog as it was. A successful one adds exactly one table
      under the new name, which no earlier table had. */
  lemma CommitOrRollback(cat: Catalog, newTableName: string, configs: seq<TableConfig>, stateValues: seq<string>)
    ensures var (cat', r) := JoinedTableSpec(cat, newTableName, configs, stateValues);
      && (r.Err? ==> cat' == cat)
      && (r.Ok? ==> FindTable(cat, newTableName).None? && |cat'| == |cat| + 1 && cat'[..|cat|] == cat
                    && cat'[|cat|].name == newTableName && |cat'[|cat|].table.rows| == r.value)
  {
    var (cat', r) := JoinedTableSpec(cat, newTableName, configs, stateValues);
    if r.Ok? {
      assert cat'[..|cat|] == cat;
    }
  }

  /** The corrected select list resolves to the anchor's columns in order, under the
      `{table}_{column}` names. */
  lemma CorrectedSelectsAnchorColumns(cat: Catalog, newTableName: string, configs: seq<TableConfig>, stateValues: seq<string>)
    requires BuildPlan(cat, newTableName, configs, |stateValues|).Ok?
    requires Resolve(cat, BuildPlan(cat, newTableName, configs, |stateValues|).value, FilterStates.StateParams(stateValues)).Ok?
    requires CiDistinct(Names(TableInfo(cat, configs[0].name)))
    ensures var q := JoinedQuery(cat, newTableName, configs, stateValues);
      && FindTable(cat, configs[0].name).Some?
      && q.anchor == cat[FindTable(cat, configs[0].name).value].table
      && q.header == AliasHeader(configs[0].name, q.anchor.columns)
      && q.projection.AnchorColumns?
      && |q.projection.indices| == |q.anchor.columns|
      && forall k :: 0 <= k < |q.anchor.columns| ==> q.projection.indices[k] == k
  {
    var p := BuildPlan(cat, newTableName, configs, |stateValues|).value;
    ResolveMeaning(cat, p, FilterStates.StateParams(stateValues));
    var q := JoinedQuery(cat, newTableName, configs, stateValues);
    assert p.select == Columns(AliasItems(configs[0].name, q.anchor.columns));
    AliasItemsResolve(configs[0].name, q.anchor.columns);
  }

  /** Over distinct column names, item k of the corrected select list is column k, and the
      result columns are the aliased header. */
  lemma AliasItemsResolve(table: string, cols: seq<Column>)
    requires CiDistinct(Names(cols))
    ensures var r := ResolveItems(cols, AliasItems(table, cols));
      && r.Ok? && |r.value.0| == |cols|
      && (forall k :: 0 <= k < |cols| ==> r.value.0[k] == k)
      && r.value.1 == AliasHeader(table, cols)
  {
    var items := AliasItems(table, cols);
    ResolveItemsMeaning(cols, items);
    assert ItemsExist(cols, items) by {
      forall k | 0 <= k < |items| ensures CiMember(Names(cols), items[k].column) {
        LookupDistinct(Names(cols), k);
      }
    }
    var r := ResolveItems(cols, items).value;
    forall k | 0 <= k < |cols| ensures r.0[k] == k && r.1[k] == AliasHeader(table, cols)[k] {
      LookupDistinct(Names(cols), k);
    }
  }

  /** A successful run reads the tables the configs name, joins each on the columns its
      config names for the three roles, and filters the anchor's configured state column
      against the state values. It stores, for each row combination of the join, its anchor
      row under the `{table}_{column}` names and the anchor's types, and reports the sum over
      filtered anchor rows of the products of the match counts. */
  lemma JoinedTableMeaning(cat: Catalog, newTableName: string, configs: seq<TableConfig>, stateValues: seq<string>)
    requires JoinedTableSpec(cat, newTableName, configs, stateValues).1.Ok?
    requires configs != [] && CiDistinct(Names(TableInfo(cat, configs[0].name)))
    ensures BuildPlan(cat, newTableName, configs, |stateValues|).Ok?
    ensures Resolve(cat, BuildPlan(cat, newTableName, configs, |stateValues|).value, FilterStates.StateParams(stateValues)).Ok?
    ensures var q := JoinedQuery(cat, newTableName, configs, stateValues);
      var t := JoinedTableSpec(cat, newTableName, configs, stateValues).0[|cat|].table;
      var ts := Tuples(q);
      && configs[0].state.Some?
      && FollowsConfigs(cat, configs, stateValues, q)
      && JoinedTableSpec(cat, newTableName, configs, stateValues).1.value == ExpectedCount(q, q.anchor.rows)
      && t.columns == AliasHeader(configs[0].name, q.anchor.columns)
      && |t.rows| == |ts|
      && forall k :: 0 <= k < |ts| ==> |ts[k]| >= 1 && t.rows[k] == Pad(ts[k][0], |q.anchor.columns|)
  {
    SuccessfulRun(cat, newTableName, configs, stateValues);
    JoinedQueryFollowsConfigs(cat, newTableName, configs, stateValues);
    CorrectedSelectsAnchorColumns(cat, newTableName, configs, stateValues);
    var q := JoinedQuery(cat, newTableName, configs, stateValues);
    ResultCount(q);
    AnchorRowsProjected(q);
  }

  /** Every row combination of a successful run agrees with its anchor row on household
      id, month and year in every joined table (NULLs never agree), and the anchor row's
      state is one of the state values. */
  lemma JoinedRowsAgreeOnKeys(cat: Catalog, newTableName: string, configs: seq<TableConfig>, stateValues: seq<string>,
                              t: seq<Row>, i: nat, k: nat)
    requires JoinedTableSpec(cat, newTableName, configs, stateValues).1.Ok?
    requires BuildPlan(cat, newTableName, configs, |stateValues|).Ok?
    requires Resolve(cat, BuildPlan(cat, newTableName, configs, |stateValues|).value, FilterStates.StateParams(stateValues)).Ok?
    requires t in Tuples(JoinedQuery(cat, newTableName, configs, stateValues))
    requires i < |configs| - 1 && k < 3
    ensures var q := JoinedQuery(cat, newTableName, configs, stateValues);
      && |q.joins| == |configs| - 1
      && |t| == |configs|
      && (exists s :: s in stateValues && Cell(t[0], q.stateColumn) == Str(s))
      && var pair := FilterStates.AnchorKeys(configs[0], configs[i + 1])[k];
         exists x, y ::
           && Lookup(Names(q.anchor.columns), pair.anchorColumn) == Some(x)
           && Lookup(Names(q.joins[i].table.columns), pair.joinedColumn) == Some(y)
           && SqlEq(Cell(t[0], x), Cell(t[i + 1], y))
  {
    var q := JoinedQuery(cat, newTableName, configs, stateValues);
    JoinedQueryFollowsConfigs(cat, newTableName, configs, stateValues);
    InTuples(q, t);
    assert Matches(q.joins[i].keys, t[0], t[i + 1]);
    var sv :| sv in q.values && Cell(t[0], q.stateColumn) == sv;
    var j :| 0 <= j < |stateValues| && FilterStates.StateParams(stateValues)[j] == sv;
    assert stateValues[j] in stateValues;
    var key := q.joins[i].keys[k];
    assert SqlEq(Cell(t[0], key.0), Cell(t[i + 1], key.1));
  }

  /** A successful run is the plan resolved and its result table appended. */
  lemma SuccessfulRun(cat: Catalog, newTableName: string, configs: seq<TableConfig>, stateValues: seq<string>)
    requires JoinedTableSpec(cat, newTableName, configs, stateValues).1.Ok?
    ensures BuildPlan(cat, newTableName, configs, |stateValues|).Ok?
    ensures Resolve(cat, BuildPlan(cat, newTableName, configs, |stateValues|).value, FilterStates.StateParams(stateValues)).Ok?
    ensures var t := ResultTable(JoinedQuery(cat, newTableName, configs, stateValues));
      && JoinedTableSpec(cat, newTableName, configs, stateValues).0 == cat + [NamedTable(newTableName, t)]
      && JoinedTableSpec(cat, newTableName, configs, stateValues).1 == Ok(|t.rows|)
  {
  }

  /** A query that selects the anchor columns in order stores each tuple's anchor row. */
  lemma AnchorRowsProjected(q: Query)
    requires q.projection.AnchorColumns? && |q.projection.indices| == |q.anchor.columns|
    requires forall k :: 0 <= k < |q.anchor.columns| ==> q.projection.indices[k] == k
    ensures var ts := Tuples(q);
      && |ResultTable(q).rows| == |ts|
      && forall k :: 0 <= k < |ts| ==> |ts[k]| >= 1 && ResultTable(q).rows[k] == Pad(ts[k][0], |q.anchor.columns|)
  {
    var ts := Tuples(q);
    forall k | 0 <= k < |ts| ensures |ts[k]| >= 1 && ResultTable(q).rows[k] == Pad(ts[k][0], |q.anchor.columns|) {
      InTuples(q, ts[k]);
    }
  }

  /** The committed table has no two rows with the same non-NULL (household id, month,
      year) key, under the role-named columns of the anchor. */
  lemma CommittedKeysUnique(cat: Catalog, newTableName: string, configs: seq<TableConfig>, stateValues: seq<string>)
    requires JoinedTableSpec(cat, newTableName, configs, stateValues).1.Ok?
    ensures configs != []
    ensures var t := JoinedTableSpec(cat, newTableName, configs, stateValues).0[|cat|].table;
      exists keys :: ResolveIndexColumns(Names(t.columns), IndexColumns(configs[0].name)) == Ok(keys) && !KeyClash(t.rows, keys)
  {
    var t := JoinedTableSpec(cat, newTableName, configs, stateValues).0[|cat|].table;
    var keys := ResolveIndexColumns(Names(t.columns), IndexColumns(configs[0].name)).value;
    assert !KeyClash(t.rows, keys);
  }

  /** The index finds an anchor column for a role exactly when the anchor has a column named
      after the role itself (ignoring case). An anchor whose month column is, say,
      `DIR_MONTH` therefore always rolls back. */
  lemma IndexNeedsRoleNamedColumns(table: string, cols: seq<Column>, role: string)
    ensures CiMember(Names(AliasHeader(table, cols)), table + "_" + role) <==> CiMember(Names(cols), role)
  {
    var h := Names(AliasHeader(table, cols));
    forall k | 0 <= k < |cols| ensures SameIdent(h[k], table + "_" + role) <==> SameIdent(cols[k].name, role) {
      LowerConcat(table + "_", cols[k].name);
      LowerConcat(table + "_", role);
      var pre := Lower(table + "_");
      if SameIdent(h[k], table + "_" + role) {
        assert Lower(cols[k].name) == (pre + Lower(cols[k].name))[|pre|..];
        assert Lower(role) == (pre + Lower(role))[|pre|..];
      }
    }
    if CiMember(Names(cols), role) {
      var k :| 0 <= k < |cols| && SameIdent(Names(cols)[k], role);
      assert SameIdent(h[k], table + "_" + role);
    }
    if CiMember(h, table + "_" + role) {
      var k :| 0 <= k < |h| && SameIdent(h[k], table + "_" + role);
      assert SameIdent(Names(cols)[k], role);
    }
  }

  lemma LowerConcat(a: string, b: string)
    ensures Lower(a + b) == Lower(a) + Lower(b)
  {
  }

  /** With no state values a successful run creates an empty, indexed table. */
  lemma NoStatesEmptyTable(cat: Catalog, newTableName: string, configs: seq<TableConfig>)
    ensures JoinedTableSpec(cat, newTableName, configs, []).1.Ok? ==> JoinedTableSpec(cat, newTableName, configs, []).1.value == 0
  {
    if JoinedTableSpec(cat, newTableName, configs, []).1.Ok? {
      var p := BuildPlan(cat, newTableName, configs, 0).value;
      ResolveMeaning(cat, p, []);
      var q := JoinedQuery(cat, newTableName, configs, []);
      ResultCount(q);
      NoStatesNoRows(q, q.anchor.rows);
    }
  }
}
