/** `create_joined_table` of filterStates.py. The anchor table (the first config) is read
    with `SELECT *`. Every later table is joined under its own name, on the anchor's
    household id, month and year against its own columns for the same roles. The
    anchor's state is filtered against the bound values, and the whole run is one
    transaction. */
module FilterStates {
  import opened Store
  import opened JoinQuery

  /** The ON clause that joins the table of config `c` to the anchor. Each role uses the
      column name that the table's own config gives it. */
  function AnchorKeys(anchor: TableConfig, c: TableConfig): seq<KeyPair>
  {
    [KeyPair(anchor.hhId, c.hhId), KeyPair(anchor.month, c.month), KeyPair(anchor.year, c.year)]
  }

  /** One JOIN per config after the anchor, in config order. */
  function JoinClauses(configs: seq<TableConfig>): (js: seq<JoinClause>)
    requires |configs| >= 1
  {
    seq(|configs| - 1, i requires 0 <= i < |configs| - 1 =>
      JoinClause(Source(configs[i + 1].name, None), AnchorKeys(configs[0], configs[i + 1])))
  }

  /** The statement the loop of lines 16-32 and lines 35-45 assemble. An empty config list
      leaves `base_table` unbound. The anchor's `state` is read with `[]`, so a missing
      key raises before anything runs; the `get` default of line 21 is never used. */
  function BuildPlan(newTableName: string, configs: seq<TableConfig>, stateCount: nat): Result<Plan, Failure>
  {
    if configs == [] then Err(NoAnchor)
    else if configs[0].state.None? then Err(MissingStateKey)
    else Ok(Plan(newTableName, Source(configs[0].name, None), JoinClauses(configs), Star,
                 configs[0].state.value, stateCount))
  }

  /** The bound parameters: the state names as text. */
  function StateParams(states: seq<string>): (vs: seq<Value>)
    ensures |vs| == |states|
    ensures forall i :: 0 <= i < |states| ==> vs[i] == Str(states[i])
  {
    seq(|states|, i requires 0 <= i < |states| => Str(states[i]))
  }

  /** The whole run: the catalog it leaves and the row count it reports, or the failure
      that rolled it back. */
  function JoinedTableSpec(cat: Catalog, newTableName: string, configs: seq<TableConfig>, stateValues: seq<string>)
    : (Catalog, Result<nat, Failure>)
  {
    var plan := BuildPlan(newTableName, configs, |stateValues|);
    if plan.Err? then (cat, Err(plan.error))
    else
      var created := CreateTableAs(cat, plan.value, StateParams(stateValues));
      if created.Err? then (cat, Err(created.error))
      else (cat + [NamedTable(newTableName, created.value)], Ok(|created.value.rows|))
  }

  method CreateJoinedTable(db: Database, newTableName: string, configs: seq<TableConfig>, stateValues: seq<string>)
    returns (result: Result<nat, Failure>)
    modifies db
    ensures (db.tables, result) == JoinedTableSpec(old(db.tables), newTableName, configs, stateValues)
  {
    var saved := db.tables;  // BEGIN TRANSACTION
    var plan := BuildPlan(newTableName, configs, |stateValues|);
    if plan.Err? {
      db.tables := saved;  // rollback
      return Err(plan.error);
    }
    var created := CreateTableAs(db.tables, plan.value, StateParams(stateValues));
    if created.Err? {
      db.tables := saved;
      return Err(created.error);
    }
    db.tables := db.tables + [NamedTable(newTableName, created.value)];
    FindAppended(saved, newTableName, created.value);
    var k := FindTable(db.tables, newTableName);  // SELECT COUNT(*) FROM the new table
    var rowCount := |db.tables[k.value].table.rows|;
    result := Ok(rowCount);  // commit
  }

  /** The query a successful run evaluates. */
  function JoinedQuery(cat: Catalog, newTableName: string, configs: seq<TableConfig>, stateValues: seq<string>): Query
    requires BuildPlan(newTableName, configs, |stateValues|).Ok?
    requires Resolve(cat, BuildPlan(newTableName, configs, |stateValues|).value, StateParams(stateValues)).Ok?
  {
    Resolve(cat, BuildPlan(newTableName, configs, |stateValues|).value, StateParams(stateValues)).value
  }

  /** The plan has one JOIN per table after the anchor, and the anchor has none. It has one
      placeholder per state value. The later configs' `state` keys play no part. */
  lemma PlanShape(newTableName: string, configs: seq<TableConfig>, stateCount: nat)
    ensures BuildPlan(newTableName, configs, stateCount).Ok? <==> configs != [] && configs[0].state.Some?
    ensures BuildPlan(newTableName, configs, stateCount).Ok? ==>
      var p := BuildPlan(newTableName, configs, stateCount).value;
      && |p.joins| == |configs| - 1
      && p.placeholders == stateCount
      && Exposed(p.anchor) == configs[0].name
      && forall i :: 0 <= i < |p.joins| ==> Exposed(p.joins[i].source) == configs[i + 1].name && |p.joins[i].on| == 3
  {
  }

  lemma LaterStatesIgnored(newTableName: string, configs: seq<TableConfig>, others: seq<TableConfig>, stateCount: nat)
    requires |others| == |configs| && (configs == [] || others[0] == configs[0])
    requires forall i :: 0 < i < |configs| ==> others[i] == configs[i].(state := others[i].state)
    ensures BuildPlan(newTableName, others, stateCount) == BuildPlan(newTableName, configs, stateCount)
  {
    if configs != [] {
      assert JoinClauses(others) == JoinClauses(configs);
    }
  }

  /** A failed run leaves the catalog as it was. A successful one adds exactly one table:
      it carries the new name, no earlier table had that name, and it has as many rows as
      the run reports. */
  lemma CommitOrRollback(cat: Catalog, newTableName: string, configs: seq<TableConfig>, stateValues: seq<string>)
    ensures var (cat', r) := JoinedTableSpec(cat, newTableName, configs, stateValues);
      && (r.Err? ==> cat' == cat)
      && (r.Ok? ==> FindTable(cat, newTableName).None? && |cat'| == |cat| + 1 && cat'[..|cat|] == cat
                    && cat'[|cat|].name == newTableName && |cat'[|cat|].table.rows| == r.value)
  {
    var (cat', r) := JoinedTableSpec(cat, newTableName, configs, stateValues);
    if r.Ok? {
      assert cat'[..|cat|] == cat;
    }
  }

  /** A successful run reads the tables the configs name, joins each on the columns its
      config names for the three roles, and filters the anchor's configured state column
      against the state values. It reports, over the anchor rows that pass the filter, the
      sum of the products of the match counts, and it stores the rows of that join. */
  lemma JoinedTableMeaning(cat: Catalog, newTableName: string, configs: seq<TableConfig>, stateValues: seq<string>)
    requires JoinedTableSpec(cat, newTableName, configs, stateValues).1.Ok?
    ensures BuildPlan(newTableName, configs, |stateValues|).Ok?
    ensures Resolve(cat, BuildPlan(newTableName, configs, |stateValues|).value, StateParams(stateValues)).Ok?
    ensures var q := JoinedQuery(cat, newTableName, configs, stateValues);
      && FindTable(cat, configs[0].name).Some?
      && q.anchor == cat[FindTable(cat, configs[0].name).value].table
      && |q.joins| == |configs| - 1
      && (forall i :: 0 <= i < |q.joins| ==>
            JoinResolves(cat, q.anchor.columns, JoinClause(Source(configs[i + 1].name, None), AnchorKeys(configs[0], configs[i + 1])), q.joins[i]))
      && Lookup(Names(q.anchor.columns), configs[0].state.value) == Some(q.stateColumn)
      && q.values == StateParams(stateValues)
      && JoinedTableSpec(cat, newTableName, configs, stateValues).1.value == ExpectedCount(q, q.anchor.rows)
      && JoinedTableSpec(cat, newTableName, configs, stateValues).0[|cat|].table == ResultTable(q)
  {
    SuccessfulRun(cat, newTableName, configs, stateValues);
    var p := BuildPlan(newTableName, configs, |stateValues|).value;
    var q := JoinedQuery(cat, newTableName, configs, stateValues);
    ResolveMeaning(cat, p, StateParams(stateValues));
    assert p.joins == JoinClauses(configs);
    ResultCount(q);
  }

  /** A successful run is the plan resolved and its result table appended. */
  lemma SuccessfulRun(cat: Catalog, newTableName: string, configs: seq<TableConfig>, stateValues: seq<string>)
    requires JoinedTableSpec(cat, newTableName, configs, stateValues).1.Ok?
    ensures BuildPlan(newTableName, configs, |stateValues|).Ok?
    ensures Resolve(cat, BuildPlan(newTableName, configs, |stateValues|).value, StateParams(stateValues)).Ok?
    ensures var t := ResultTable(JoinedQuery(cat, newTableName, configs, stateValues));
      && JoinedTableSpec(cat, newTableName, configs, stateValues).0 == cat + [NamedTable(newTableName, t)]
      && JoinedTableSpec(cat, newTableName, configs, stateValues).1 == Ok(|t.rows|)
  {
  }

  /** Every row combination of a successful run agrees with its anchor row on household
      id, month and year in every joined table (NULLs never agree). The anchor row's state
      is one of the state values. */
  lemma JoinedRowsAgreeOnKeys(cat: Catalog, newTableName: string, configs: seq<TableConfig>, stateValues: seq<string>,
                              t: seq<Row>, i: nat, k: nat)
    requires JoinedTableSpec(cat, newTableName, configs, stateValues).1.Ok?
    requires BuildPlan(newTableName, configs, |stateValues|).Ok?
    requires Resolve(cat, BuildPlan(newTableName, configs, |stateValues|).value, StateParams(stateValues)).Ok?
    requires t in Tuples(JoinedQuery(cat, newTableName, configs, stateValues))
    requires i < |configs| - 1 && k < 3
    ensures var q := JoinedQuery(cat, newTableName, configs, stateValues);
      var pair := AnchorKeys(configs[0], configs[i + 1])[k];
      && |t| == |configs|
      && (exists s :: s in stateValues && Cell(t[0], q.stateColumn) == Str(s))
      && exists x, y ::
           && Lookup(Names(q.anchor.columns), pair.anchorColumn) == Some(x)
           && Lookup(Names(q.joins[i].table.columns), pair.joinedColumn) == Some(y)
           && SqlEq(Cell(t[0], x), Cell(t[i + 1], y))
  {
    var q := JoinedQuery(cat, newTableName, configs, stateValues);
    JoinedTableMeaning(cat, newTableName, configs, stateValues);
    InTuples(q, t);
    assert Matches(q.joins[i].keys, t[0], t[i + 1]);
    var sv :| sv in q.values && Cell(t[0], q.stateColumn) == sv;
    var j :| 0 <= j < |stateValues| && StateParams(stateValues)[j] == sv;
    assert stateValues[j] in stateValues;
    var key := q.joins[i].keys[k];
    assert SqlEq(Cell(t[0], key.0), Cell(t[i + 1], key.1));
  }

  /** With no state values a run creates an empty table or rolls back. */
  lemma NoStatesEmptyTable(cat: Catalog, newTableName: string, configs: seq<TableConfig>)
    ensures JoinedTableSpec(cat, newTableName, configs, []).1.Ok? ==> JoinedTableSpec(cat, newTableName, configs, []).1.value == 0
  {
    if JoinedTableSpec(cat, newTableName, configs, []).1.Ok? {
      JoinedTableMeaning(cat, newTableName, configs, []);
      var q := JoinedQuery(cat, newTableName, configs, []);
      NoStatesNoRows(q, q.anchor.rows);
    }
  }
}
