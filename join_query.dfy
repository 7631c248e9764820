/** The `CREATE TABLE ... AS SELECT` statement both join scripts build, as structured data,
    and its meaning over a catalog.

    The statement is a star join. An anchor table comes first, and each later table is
    inner-joined by equating some of the anchor's columns with some of its own. A
    `WHERE anchor.state IN (?, ..., ?)` filter then keeps the rows whose anchor state is
    one of the bound values, and the result is either `SELECT *` or a list of anchor
    columns renamed with `AS`. Running a plan resolves every name against the catalog,
    as SQLite does when it prepares the statement, and then evaluates the join with
    SQLite's nested loops in FROM order. */
module JoinQuery {
  import opened Store

  /** One entry of `table_configs`: the table, the names of its household-id, month and
      year columns, and the optional `state` key. */
  datatype TableConfig = TableConfig(name: string, hhId: string, month: string, year: string, state: Option<string>)

  /** Why `create_joined_table` rolls back: a Python exception while the statement is
      built, or an error SQLite raises while it prepares or runs a statement. */
  datatype Failure =
    | NoAnchor                     // `table_configs` is empty
    | MissingStateKey              // the anchor config has no "state" key
    | SyntaxError                  // a pasted name is not a bare identifier
    | TableExists(name: string)
    | NoSuchTable(name: string)
    | NoSuchColumn(name: string)
    | AmbiguousName(name: string)  // a qualifier names two tables of the FROM clause
    | BindingCount                 // placeholders and bound values differ in number
    | UniqueViolation              // CREATE UNIQUE INDEX met two equal keys

  // ---------------------------------------------------------------------------
  // The plan

  /** `table` or `table alias` in a FROM or JOIN clause. */
  datatype Source = Source(table: string, alias: Option<string>)

  /** The name the clause's columns are qualified by. */
  function Exposed(s: Source): string
  {
    if s.alias.Some? then s.alias.value else s.table
  }

  /** One `anchor.anchorColumn = joined.joinedColumn` conjunct of an ON clause. */
  datatype KeyPair = KeyPair(anchorColumn: string, joinedColumn: string)

  datatype JoinClause = JoinClause(source: Source, on: seq<KeyPair>)

  /** `anchor.column AS alias`. */
  datatype SelectItem = SelectItem(column: string, alias: string)

  datatype SelectList = Star | Columns(items: seq<SelectItem>)

  /** `CREATE TABLE target AS SELECT select FROM anchor JOIN ... WHERE anchor.stateColumn
      IN (placeholders question marks)`. */
  datatype Plan = Plan(target: string, anchor: Source, joins: seq<JoinClause>, select: SelectList,
                       stateColumn: string, placeholders: nat)

  // ---------------------------------------------------------------------------
  // Parsing: the builders paste names into the SQL text unquoted

  predicate IdStart(c: char)
  {
    'a' <= c <= 'z' || 'A' <= c <= 'Z' || c == '_' || c >= '\U{80}'
  }

  predicate IdChar(c: char)
  {
    IdStart(c) || '0' <= c <= '9' || c == '$'
  }

  /** A bare identifier as SQLite's tokenizer reads one. */
  predicate Word(s: string)
  {
    |s| >= 1 && IdStart(s[0]) && forall i :: 1 <= i < |s| ==> IdChar(s[i])
  }

  function SourceWords(s: Source): seq<string>
  {
    [s.table] + (if s.alias.Some? then [s.alias.value] else [])
  }

  function KeyWords(on: seq<KeyPair>): seq<string>
    decreases |on|
  {
    if on == [] then [] else [on[0].anchorColumn, on[0].joinedColumn] + KeyWords(on[1..])
  }

  function JoinWords(js: seq<JoinClause>): seq<string>
    decreases |js|
  {
    if js == [] then [] else SourceWords(js[0].source) + KeyWords(js[0].on) + JoinWords(js[1..])
  }

  function ItemWords(items: seq<SelectItem>): seq<string>
    decreases |items|
  {
    if items == [] then [] else [items[0].column, items[0].alias] + ItemWords(items[1..])
  }

  /** Every name pasted into the statement's text. */
  function PlanWords(p: Plan): seq<string>
  {
    [p.target, p.stateColumn] + SourceWords(p.anchor) + JoinWords(p.joins)
      + (if p.select.Columns? then ItemWords(p.select.items) else [])
  }

  /** The statement's text parses: every pasted name is an identifier and the select list
      is not empty. */
  predicate Parses(p: Plan)
  {
    (forall w :: w in PlanWords(p) ==> Word(w)) && (p.select.Columns? ==> |p.select.items| >= 1)
  }

  // ---------------------------------------------------------------------------
  // The resolved query

  /** A joined table and its ON clause as pairs (anchor column, joined column) of positions. */
  datatype Join = Join(table: Table, keys: seq<(nat, nat)>)

  /** What the result holds: every column of every table, or chosen anchor columns. */
  datatype Projection = AllColumns | AnchorColumns(indices: seq<nat>)

  datatype Query = Query(anchor: Table, joins: seq<Join>, stateColumn: nat, values: seq<Value>,
                         header: seq<Column>, projection: Projection)

  /** The qualifier names exactly one table of the FROM clause. */
  predicate UniqueAt(names: seq<string>, k: nat)
    requires k < |names|
  {
    forall j :: 0 <= j < |names| && j != k ==> !SameIdent(names[j], names[k])
  }

  function ExposedNames(p: Plan): (ns: seq<string>)
    ensures |ns| == 1 + |p.joins|
    ensures ns[0] == Exposed(p.anchor)
    ensures forall i :: 0 <= i < |p.joins| ==> ns[i + 1] == Exposed(p.joins[i].source)
  {
    [Exposed(p.anchor)] + seq(|p.joins|, i requires 0 <= i < |p.joins| => Exposed(p.joins[i].source))
  }

  /** Every qualifier the statement uses is unambiguous: the anchor's (the WHERE clause
      always uses it) and that of every join with a non-empty ON clause. */
  function CheckQualifiers(p: Plan): Option<Failure>
  {
    var ns := ExposedNames(p);
    if !UniqueAt(ns, 0) then Some(AmbiguousName(ns[0])) else CheckJoinQualifiers(p, ns, 0)
  }

  function CheckJoinQualifiers(p: Plan, ns: seq<string>, i: nat): (r: Option<Failure>)
    requires ns == ExposedNames(p) && i <= |p.joins|
    ensures r.None? <==> forall j :: i <= j < |p.joins| && |p.joins[j].on| > 0 ==> UniqueAt(ns, j + 1)
    decreases |p.joins| - i
  {
    if i == |p.joins| then None
    else
      QualifiersFrom(p, ns, i);
      if |p.joins[i].on| > 0 && !UniqueAt(ns, i + 1) then Some(AmbiguousName(ns[i + 1]))
      else CheckJoinQualifiers(p, ns, i + 1)
  }

  /** The joins from `i` on use unambiguous qualifiers iff join `i` does and those after it do. */
  lemma QualifiersFrom(p: Plan, ns: seq<string>, i: nat)
    requires ns == ExposedNames(p) && i < |p.joins|
    ensures (forall j :: i <= j < |p.joins| && |p.joins[j].on| > 0 ==> UniqueAt(ns, j + 1)) <==>
      && (|p.joins[i].on| > 0 ==> UniqueAt(ns, i + 1))
      && (forall j :: i + 1 <= j < |p.joins| && |p.joins[j].on| > 0 ==> UniqueAt(ns, j + 1))
  {
  }

  /** The ON clause's column names, resolved against the anchor and the joined table. */
  function ResolveKeys(anchorCols: seq<Column>, joinCols: seq<Column>, on: seq<KeyPair>): (r: Result<seq<(nat, nat)>, Failure>)
    ensures r.Ok? ==> |r.value| == |on|
    decreases |on|
  {
    if on == [] then Ok([])
    else
      var a := Lookup(Names(anchorCols), on[0].anchorColumn);
      var b := Lookup(Names(joinCols), on[0].joinedColumn);
      if a.None? then Err(NoSuchColumn(on[0].anchorColumn))
      else if b.None? then Err(NoSuchColumn(on[0].joinedColumn))
      else
        var rest := ResolveKeys(anchorCols, joinCols, on[1..]);
        if rest.Err? then rest else Ok([(a.value, b.value)] + rest.value)
  }

  function ResolveJoins(cat: Catalog, anchorCols: seq<Column>, js: seq<JoinClause>): (r: Result<seq<Join>, Failure>)
    ensures r.Ok? ==> |r.value| == |js|
    decreases |js|
  {
    if js == [] then Ok([])
    else
      var k := FindTable(cat, js[0].source.table);
      if k.None? then Err(NoSuchTable(js[0].source.table))
      else
        var t := cat[k.value].table;
        var keys := ResolveKeys(anchorCols, t.columns, js[0].on);
        if keys.Err? then Err(keys.error)
        else
          var rest := ResolveJoins(cat, anchorCols, js[1..]);
          if rest.Err? then rest else Ok([Join(t, keys.value)] + rest.value)
  }

  /** The select list's anchor columns, resolved, with the result column each one gives. */
  function ResolveItems(anchorCols: seq<Column>, items: seq<SelectItem>): (r: Result<(seq<nat>, seq<Column>), Failure>)
    ensures r.Ok? ==> |r.value.0| == |items| && |r.value.1| == |items|
    decreases |items|
  {
    if items == [] then Ok(([], []))
    else
      var k := Lookup(Names(anchorCols), items[0].column);
      if k.None? then Err(NoSuchColumn(items[0].column))
      else
        var rest := ResolveItems(anchorCols, items[1..]);
        if rest.Err? then rest
        else Ok(([k.value] + rest.value.0, [Column(items[0].alias, anchorCols[k.value].sqlType)] + rest.value.1))
  }

  function JoinColumns(js: seq<Join>): seq<Column>
    decreases |js|
  {
    if js == [] then [] else js[0].table.columns + JoinColumns(js[1..])
  }

  /** Name resolution and parameter binding, in the order SQLite performs them when it
      prepares the statement and `execute` binds the values. */
  function Resolve(cat: Catalog, p: Plan, params: seq<Value>): Result<Query, Failure>
  {
    var a := FindTable(cat, p.anchor.table);
    if a.None? then Err(NoSuchTable(p.anchor.table))
    else
      var anchor := cat[a.value].table;
      var js := ResolveJoins(cat, anchor.columns, p.joins);
      if js.Err? then Err(js.error)
      else if CheckQualifiers(p).Some? then Err(CheckQualifiers(p).value)
      else
        var s := Lookup(Names(anchor.columns), p.stateColumn);
        if s.None? then Err(NoSuchColumn(p.stateColumn))
        else
          var sel := if p.select.Star? then Ok(([], anchor.columns + JoinColumns(js.value)))
                     else ResolveItems(anchor.columns, p.select.items);
          if sel.Err? then Err(sel.error)
          else if p.placeholders != |params| then Err(BindingCount)
          else
            var proj := if p.select.Star? then AllColumns else AnchorColumns(sel.value.0);
            Ok(Query(anchor, js.value, s.value, params, sel.value.1, proj))
  }

  // ---------------------------------------------------------------------------
  // Evaluation

  /** SQL `=`: NULL equals nothing, not even NULL. Values compare as stored. */
  predicate SqlEq(x: Value, y: Value)
  {
    x != Null && y != Null && x == y
  }

  /** `x IN (v1, ..., vn)`, which never holds for NULL, nor for an empty list. */
  predicate InList(x: Value, vs: seq<Value>)
  {
    x != Null && x in vs
  }

  /** The ON clause holds between an anchor row and a joined row. */
  predicate Matches(keys: seq<(nat, nat)>, a: Row, r: Row)
  {
    forall k :: 0 <= k < |keys| ==> SqlEq(Cell(a, keys[k].0), Cell(r, keys[k].1))
  }

  function Prefixed(r: Row, ts: seq<seq<Row>>): (us: seq<seq<Row>>)
    ensures |us| == |ts|
    ensures forall i :: 0 <= i < |ts| ==> us[i] == [r] + ts[i]
  {
    seq(|ts|, i requires 0 <= i < |ts| => [r] + ts[i])
  }

  /** For one anchor row, the nested loops over the joined tables: each table's rows are
      scanned in storage order and a row is kept where its ON clause holds. */
  function Extensions(a: Row, js: seq<Join>): seq<seq<Row>>
    decreases |js|, 0
  {
    if js == [] then [[]] else Scan(a, js[0].keys, js[0].table.rows, js[1..])
  }

  function Scan(a: Row, keys: seq<(nat, nat)>, rows: seq<Row>, rest: seq<Join>): seq<seq<Row>>
    decreases |rest|, 1, |rows|
  {
    if rows == [] then []
    else
      (if Matches(keys, a, rows[0]) then Prefixed(rows[0], Extensions(a, rest)) else [])
        + Scan(a, keys, rows[1..], rest)
  }

  /** The outer loop over the anchor's rows, with the WHERE filter on the anchor's state. */
  function AnchorScan(q: Query, rows: seq<Row>): seq<seq<Row>>
    decreases |rows|
  {
    if rows == [] then []
    else
      (if InList(Cell(rows[0], q.stateColumn), q.values) then Prefixed(rows[0], Extensions(rows[0], q.joins)) else [])
        + AnchorScan(q, rows[1..])
  }

  /** The joined row combinations the query yields: the anchor row first, then one row of
      each joined table. */
  function Tuples(q: Query): seq<seq<Row>>
  {
    AnchorScan(q, q.anchor.rows)
  }

  function Widths(js: seq<Join>): seq<nat>
    ensures |Widths(js)| == |js|
  {
    seq(|js|, i requires 0 <= i < |js| => |js[i].table.columns|)
  }

  /** `SELECT *`: each table's row padded to its width, concatenated in FROM order. */
  function Concat(t: seq<Row>, widths: seq<nat>): Row
    decreases |t|
  {
    if t == [] || widths == [] then [] else Pad(t[0], widths[0]) + Concat(t[1..], widths[1..])
  }

  function ProjectRow(q: Query, t: seq<Row>): Row
  {
    if t == [] then []
    else if q.projection.AllColumns? then Concat(t, [|q.anchor.columns|] + Widths(q.joins))
    else seq(|q.projection.indices|, k requires 0 <= k < |q.projection.indices| => Cell(t[0], q.projection.indices[k]))
  }

  /** The table the query creates. */
  function ResultTable(q: Query): (t: Table)
    ensures |t.rows| == |Tuples(q)|
  {
    var ts := Tuples(q);
    Table(q.header, seq(|ts|, k requires 0 <= k < |ts| => ProjectRow(q, ts[k])))
  }

  /** `cursor.execute(query, state_values)` on a CREATE TABLE AS plan: the table to add
      to the catalog, or the error SQLite raises. */
  function CreateTableAs(cat: Catalog, p: Plan, params: seq<Value>): Result<Table, Failure>
  {
    if !Parses(p) then Err(SyntaxError)
    else if FindTable(cat, p.target).Some? then Err(TableExists(p.target))
    else
      var q := Resolve(cat, p, params);
      if q.Err? then Err(q.error) else Ok(ResultTable(q.value))
  }

  // ---------------------------------------------------------------------------
  // The reference count: for each anchor row that passes the filter, the product over
  // the joined tables of the number of rows matching it

  function MatchCount(keys: seq<(nat, nat)>, a: Row, rows: seq<Row>): nat
    decreases |rows|
  {
    if rows == [] then 0
    else (if Matches(keys, a, rows[0]) then 1 else 0) + MatchCount(keys, a, rows[1..])
  }

  function Fanout(a: Row, js: seq<Join>): nat
    decreases |js|
  {
    if js == [] then 1 else MatchCount(js[0].keys, a, js[0].table.rows) * Fanout(a, js[1..])
  }

  function ExpectedCount(q: Query, rows: seq<Row>): nat
    decreases |rows|
  {
    if rows == [] then 0
    else
      (if InList(Cell(rows[0], q.stateColumn), q.values) then Fanout(rows[0], q.joins) else 0)
        + ExpectedCount(q, rows[1..])
  }

  lemma {:induction false} ScanLength(a: Row, keys: seq<(nat, nat)>, rows: seq<Row>, rest: seq<Join>)
    ensures |Scan(a, keys, rows, rest)| == MatchCount(keys, a, rows) * |Extensions(a, rest)|
    decreases |rows|
  {
    if rows != [] {
      ScanLength(a, keys, rows[1..], rest);
      ScanHead(a, keys, rows, rest);
      var m := if Matches(keys, a, rows[0]) then 1 else 0;
      Distribute(m, MatchCount(keys, a, rows[1..]), |Extensions(a, rest)|);
    }
  }

  lemma ScanHead(a: Row, keys: seq<(nat, nat)>, rows: seq<Row>, rest: seq<Join>)
    requires rows != []
    ensures |Scan(a, keys, rows, rest)|
         == (if Matches(keys, a, rows[0]) then 1 else 0) * |Extensions(a, rest)| + |Scan(a, keys, rows[1..], rest)|
    ensures MatchCount(keys, a, rows) == (if Matches(keys, a, rows[0]) then 1 else 0) + MatchCount(keys, a, rows[1..])
  {
  }

  lemma Distribute(m: nat, c: nat, e: nat)
    ensures (m + c) * e == m * e + c * e
  {
  }

  lemma {:induction false} ExtensionsLength(a: Row, js: seq<Join>)
    ensures |Extensions(a, js)| == Fanout(a, js)
    decreases |js|
  {
    if js != [] {
      ScanLength(a, js[0].keys, js[0].table.rows, js[1..]);
      ExtensionsLength(a, js[1..]);
    }
  }

  lemma {:induction false} AnchorScanLength(q: Query, rows: seq<Row>)
    ensures |AnchorScan(q, rows)| == ExpectedCount(q, rows)
    decreases |rows|
  {
    if rows != [] {
      ExtensionsLength(rows[0], q.joins);
      AnchorScanLength(q, rows[1..]);
    }
  }

  /** There is no uniqueness check: the result has one row per filtered anchor row and
      choice of matching rows, so duplicates and fan-out are kept. */
  lemma ResultCount(q: Query)
    ensures |ResultTable(q).rows| == ExpectedCount(q, q.anchor.rows)
  {
    AnchorScanLength(q, q.anchor.rows);
  }

  // ---------------------------------------------------------------------------
  // Membership: the declarative meaning of the inner join and the filter

  /** `t` picks one row of each joined table, each matching the anchor row `a`. */
  ghost predicate JoinsWith(a: Row, js: seq<Join>, t: seq<Row>)
  {
    |t| == |js| && forall i :: 0 <= i < |js| ==> t[i] in js[i].table.rows && Matches(js[i].keys, a, t[i])
  }

  lemma {:induction false} InScan(a: Row, keys: seq<(nat, nat)>, rows: seq<Row>, rest: seq<Join>, t: seq<Row>)
    ensures t in Scan(a, keys, rows, rest) <==>
      |t| >= 1 && t[0] in rows && Matches(keys, a, t[0]) && t[1..] in Extensions(a, rest)
    decreases |rows|
  {
    if rows != [] {
      InScan(a, keys, rows[1..], rest, t);
      var here := if Matches(keys, a, rows[0]) then Prefixed(rows[0], Extensions(a, rest)) else [];
      assert Scan(a, keys, rows, rest) == here + Scan(a, keys, rows[1..], rest);
      if t in here {
        var i :| 0 <= i < |here| && here[i] == t;
        assert t[1..] == Extensions(a, rest)[i];
      }
      if |t| >= 1 && t[0] == rows[0] && Matches(keys, a, t[0]) && t[1..] in Extensions(a, rest) {
        var i :| 0 <= i < |Extensions(a, rest)| && Extensions(a, rest)[i] == t[1..];
        assert here[i] == t;
      }
    }
  }

  lemma {:induction false} InExtensions(a: Row, js: seq<Join>, t: seq<Row>)
    ensures t in Extensions(a, js) <==> JoinsWith(a, js, t)
    decreases |js|
  {
    if js != [] {
      InScan(a, js[0].keys, js[0].table.rows, js[1..], t);
      if |t| >= 1 {
        InExtensions(a, js[1..], t[1..]);
        if JoinsWith(a, js[1..], t[1..]) && t[0] in js[0].table.rows && Matches(js[0].keys, a, t[0]) {
          forall i | 0 <= i < |js| ensures t[i] in js[i].table.rows && Matches(js[i].keys, a, t[i]) {
            if i > 0 {
              assert t[i] == t[1..][i - 1] && js[i] == js[1..][i - 1];
            }
          }
        }
        if JoinsWith(a, js, t) {
          forall i | 0 <= i < |js| - 1 ensures t[1..][i] in js[1..][i].table.rows && Matches(js[1..][i].keys, a, t[1..][i]) {
            assert t[1..][i] == t[i + 1] && js[1..][i] == js[i + 1];
          }
        }
      }
    } else {
      assert t in [[]] <==> t == [];
    }
  }

  lemma {:induction false} InAnchorScan(q: Query, rows: seq<Row>, t: seq<Row>)
    ensures t in AnchorScan(q, rows) <==>
      |t| >= 1 && t[0] in rows && InList(Cell(t[0], q.stateColumn), q.values) && JoinsWith(t[0], q.joins, t[1..])
    decreases |rows|
  {
    if rows != [] {
      InAnchorScan(q, rows[1..], t);
      var r := rows[0];
      var here := if InList(Cell(r, q.stateColumn), q.values) then Prefixed(r, Extensions(r, q.joins)) else [];
      assert AnchorScan(q, rows) == here + AnchorScan(q, rows[1..]);
      if t in here {
        var i :| 0 <= i < |here| && here[i] == t;
        assert t[1..] == Extensions(r, q.joins)[i];
        InExtensions(r, q.joins, t[1..]);
      }
      if |t| >= 1 && t[0] == r && InList(Cell(r, q.stateColumn), q.values) && JoinsWith(r, q.joins, t[1..]) {
        InExtensions(r, q.joins, t[1..]);
        var i :| 0 <= i < |Extensions(r, q.joins)| && Extensions(r, q.joins)[i] == t[1..];
        assert here[i] == t;
      }
    }
  }

  /** A row combination is in the result exactly when it takes a row of the anchor whose
      state is one of the bound values and, for each joined table, one of its rows whose
      ON clause holds against that anchor row. */
  lemma InTuples(q: Query, t: seq<Row>)
    ensures t in Tuples(q) <==>
      && |t| == 1 + |q.joins|
      && t[0] in q.anchor.rows && InList(Cell(t[0], q.stateColumn), q.values)
      && forall i :: 0 <= i < |q.joins| ==> t[i + 1] in q.joins[i].table.rows && Matches(q.joins[i].keys, t[0], t[i + 1])
  {
    InAnchorScan(q, q.anchor.rows, t);
    if |t| >= 1 {
      forall i | 0 <= i < |t| - 1 ensures t[1..][i] == t[i + 1] { }
    }
  }

  /** With no state values nothing passes the filter. */
  lemma {:induction false} NoStatesNoRows(q: Query, rows: seq<Row>)
    requires q.values == []
    ensures AnchorScan(q, rows) == []
    decreases |rows|
  {
    if rows != [] {
      NoStatesNoRows(q, rows[1..]);
    }
  }

  /** A NULL key never joins: an anchor row with NULL in a column its ON clause compares
      matches no row. */
  lemma {:induction false} NullKeyNeverJoins(keys: seq<(nat, nat)>, a: Row, rows: seq<Row>, k: nat)
    requires k < |keys| && Cell(a, keys[k].0) == Null
    ensures MatchCount(keys, a, rows) == 0
    decreases |rows|
  {
    if rows != [] {
      NullKeyNeverJoins(keys, a, rows[1..], k);
    }
  }

  // ---------------------------------------------------------------------------
  // Resolution: what a resolved query is made of

  /** The ON clause's names resolve, in order, to `keys`. */
  ghost predicate KeysResolve(anchorCols: seq<Column>, joinCols: seq<Column>, on: seq<KeyPair>, keys: seq<(nat, nat)>)
  {
    && |keys| == |on|
    && forall k :: 0 <= k < |on| ==>
         Lookup(Names(anchorCols), on[k].anchorColumn) == Some(keys[k].0)
         && Lookup(Names(joinCols), on[k].joinedColumn) == Some(keys[k].1)
  }

  ghost predicate KeysExist(anchorCols: seq<Column>, joinCols: seq<Column>, on: seq<KeyPair>)
  {
    forall k :: 0 <= k < |on| ==>
      CiMember(Names(anchorCols), on[k].anchorColumn) && CiMember(Names(joinCols), on[k].joinedColumn)
  }

  /** Resolving an ON clause succeeds exactly when each of its names is a column of its
      table (ignoring case), and then gives each name's position. */
  lemma {:induction false} ResolveKeysMeaning(anchorCols: seq<Column>, joinCols: seq<Column>, on: seq<KeyPair>)
    ensures ResolveKeys(anchorCols, joinCols, on).Ok? <==> KeysExist(anchorCols, joinCols, on)
    ensures ResolveKeys(anchorCols, joinCols, on).Ok? ==> KeysResolve(anchorCols, joinCols, on, ResolveKeys(anchorCols, joinCols, on).value)
    decreases |on|
  {
    if on != [] {
      ResolveKeysMeaning(anchorCols, joinCols, on[1..]);
      KeysExistCons(anchorCols, joinCols, on);
      var r := ResolveKeys(anchorCols, joinCols, on);
      if r.Ok? {
        var a := Lookup(Names(anchorCols), on[0].anchorColumn).value;
        var b := Lookup(Names(joinCols), on[0].joinedColumn).value;
        KeysResolveCons(anchorCols, joinCols, on, (a, b), ResolveKeys(anchorCols, joinCols, on[1..]).value);
      }
    }
  }

  lemma KeysExistCons(anchorCols: seq<Column>, joinCols: seq<Column>, on: seq<KeyPair>)
    requires on != []
    ensures KeysExist(anchorCols, joinCols, on) <==>
      && CiMember(Names(anchorCols), on[0].anchorColumn) && CiMember(Names(joinCols), on[0].joinedColumn)
      && KeysExist(anchorCols, joinCols, on[1..])
  {
    forall k | 0 <= k < |on| - 1 ensures on[1..][k] == on[k + 1] { }
  }

  lemma KeysResolveCons(anchorCols: seq<Column>, joinCols: seq<Column>, on: seq<KeyPair>, key: (nat, nat), rest: seq<(nat, nat)>)
    requires on != [] && KeysResolve(anchorCols, joinCols, on[1..], rest)
    requires Lookup(Names(anchorCols), on[0].anchorColumn) == Some(key.0)
    requires Lookup(Names(joinCols), on[0].joinedColumn) == Some(key.1)
    ensures KeysResolve(anchorCols, joinCols, on, [key] + rest)
  {
    var keys := [key] + rest;
    forall k | 0 <= k < |on|
      ensures Lookup(Names(anchorCols), on[k].anchorColumn) == Some(keys[k].0)
           && Lookup(Names(joinCols), on[k].joinedColumn) == Some(keys[k].1)
    {
      if k > 0 {
        assert on[k] == on[1..][k - 1] && keys[k] == rest[k - 1];
      }
    }
  }

  /** The joined table `clause` names and its resolved ON clause. */
  ghost predicate JoinResolves(cat: Catalog, anchorCols: seq<Column>, clause: JoinClause, j: Join)
  {
    && FindTable(cat, clause.source.table).Some?
    && j.table == cat[FindTable(cat, clause.source.table).value].table
    && KeysResolve(anchorCols, j.table.columns, clause.on, j.keys)
  }

  ghost predicate JoinExists(cat: Catalog, anchorCols: seq<Column>, clause: JoinClause)
  {
    && FindTable(cat, clause.source.table).Some?
    && KeysExist(anchorCols, cat[FindTable(cat, clause.source.table).value].table.columns, clause.on)
  }

  /** Resolving the JOIN clauses succeeds exactly when every joined table exists and each
      ON clause names columns it has. */
  lemma {:induction false} ResolveJoinsSucceeds(cat: Catalog, anchorCols: seq<Column>, js: seq<JoinClause>)
    ensures ResolveJoins(cat, anchorCols, js).Ok? <==> forall i :: 0 <= i < |js| ==> JoinExists(cat, anchorCols, js[i])
    decreases |js|
  {
    if js != [] {
      ResolveJoinsSucceeds(cat, anchorCols, js[1..]);
      var k := FindTable(cat, js[0].source.table);
      if k.Some? {
        ResolveKeysMeaning(anchorCols, cat[k.value].table.columns, js[0].on);
      }
      JoinsExistCons(cat, anchorCols, js);
    }
  }

  lemma JoinsExistCons(cat: Catalog, anchorCols: seq<Column>, js: seq<JoinClause>)
    requires js != []
    ensures (forall i :: 0 <= i < |js| ==> JoinExists(cat, anchorCols, js[i])) <==>
      JoinExists(cat, anchorCols, js[0]) && forall i :: 0 <= i < |js| - 1 ==> JoinExists(cat, anchorCols, js[1..][i])
  {
    if forall i :: 0 <= i < |js| ==> JoinExists(cat, anchorCols, js[i]) {
      forall i | 0 <= i < |js| - 1 ensures JoinExists(cat, anchorCols, js[1..][i]) {
        assert js[1..][i] == js[i + 1];
      }
    }
    if JoinExists(cat, anchorCols, js[0]) && forall i :: 0 <= i < |js| - 1 ==> JoinExists(cat, anchorCols, js[1..][i]) {
      forall i | 0 <= i < |js| ensures JoinExists(cat, anchorCols, js[i]) {
        if i > 0 {
          assert js[i] == js[1..][i - 1];
        }
      }
    }
  }

  /** Each resolved join is the table its clause names, with its ON clause resolved. */
  lemma {:induction false} ResolveJoinsMeaning(cat: Catalog, anchorCols: seq<Column>, js: seq<JoinClause>)
    requires ResolveJoins(cat, anchorCols, js).Ok?
    ensures forall i :: 0 <= i < |js| ==> JoinResolves(cat, anchorCols, js[i], ResolveJoins(cat, anchorCols, js).value[i])
    decreases |js|
  {
    if js != [] {
      ResolveJoinsMeaning(cat, anchorCols, js[1..]);
      var k := FindTable(cat, js[0].source.table).value;
      ResolveKeysMeaning(anchorCols, cat[k].table.columns, js[0].on);
      var keys := ResolveKeys(anchorCols, cat[k].table.columns, js[0].on).value;
      JoinsResolveCons(cat, anchorCols, js, Join(cat[k].table, keys), ResolveJoins(cat, anchorCols, js[1..]).value);
    }
  }

  lemma JoinsResolveCons(cat: Catalog, anchorCols: seq<Column>, js: seq<JoinClause>, j: Join, rest: seq<Join>)
    requires js != [] && |rest| == |js| - 1 && JoinResolves(cat, anchorCols, js[0], j)
    requires forall i :: 0 <= i < |js| - 1 ==> JoinResolves(cat, anchorCols, js[1..][i], rest[i])
    ensures forall i :: 0 <= i < |js| ==> JoinResolves(cat, anchorCols, js[i], ([j] + rest)[i])
  {
    forall i | 0 <= i < |js| ensures JoinResolves(cat, anchorCols, js[i], ([j] + rest)[i]) {
      if i > 0 {
        assert js[i] == js[1..][i - 1] && ([j] + rest)[i] == rest[i - 1];
      }
    }
  }

  ghost predicate ItemsExist(anchorCols: seq<Column>, items: seq<SelectItem>)
  {
    forall k :: 0 <= k < |items| ==> CiMember(Names(anchorCols), items[k].column)
  }

  /** Resolving the select list succeeds exactly when every item names an anchor column;
      each result column takes the item's alias and its column's type. */
  lemma {:induction false} ResolveItemsMeaning(anchorCols: seq<Column>, items: seq<SelectItem>)
    ensures ResolveItems(anchorCols, items).Ok? <==> ItemsExist(anchorCols, items)
    ensures ResolveItems(anchorCols, items).Ok? ==> ItemsResolve(anchorCols, items, ResolveItems(anchorCols, items).value)
    decreases |items|
  {
    if items != [] {
      ResolveItemsMeaning(anchorCols, items[1..]);
      ItemsExistCons(anchorCols, items);
      var r := ResolveItems(anchorCols, items);
      if r.Ok? {
        var k := Lookup(Names(anchorCols), items[0].column).value;
        ItemsResolveCons(anchorCols, items, k, ResolveItems(anchorCols, items[1..]).value);
      }
    }
  }

  ghost predicate ItemsResolve(anchorCols: seq<Column>, items: seq<SelectItem>, r: (seq<nat>, seq<Column>))
  {
    && |r.0| == |items| && |r.1| == |items|
    && forall k :: 0 <= k < |items| ==>
         && Lookup(Names(anchorCols), items[k].column) == Some(r.0[k])
         && r.0[k] < |anchorCols|
         && r.1[k] == Column(items[k].alias, anchorCols[r.0[k]].sqlType)
  }

  lemma ItemsExistCons(anchorCols: seq<Column>, items: seq<SelectItem>)
    requires items != []
    ensures ItemsExist(anchorCols, items) <==>
      CiMember(Names(anchorCols), items[0].column) && ItemsExist(anchorCols, items[1..])
  {
    forall k | 0 <= k < |items| - 1 ensures items[1..][k] == items[k + 1] { }
  }

  lemma ItemsResolveCons(anchorCols: seq<Column>, items: seq<SelectItem>, k0: nat, rest: (seq<nat>, seq<Column>))
    requires items != [] && ItemsResolve(anchorCols, items[1..], rest)
    requires Lookup(Names(anchorCols), items[0].column) == Some(k0)
    ensures k0 < |anchorCols|
    ensures ItemsResolve(anchorCols, items, ([k0] + rest.0, [Column(items[0].alias, anchorCols[k0].sqlType)] + rest.1))
  {
    var r := ([k0] + rest.0, [Column(items[0].alias, anchorCols[k0].sqlType)] + rest.1);
    forall k | 0 <= k < |items|
      ensures && Lookup(Names(anchorCols), items[k].column) == Some(r.0[k])
              && r.0[k] < |anchorCols|
              && r.1[k] == Column(items[k].alias, anchorCols[r.0[k]].sqlType)
    {
      if k > 0 {
        assert items[k] == items[1..][k - 1] && r.0[k] == rest.0[k - 1] && r.1[k] == rest.1[k - 1];
      }
    }
  }

  /** The statement prepares and binds exactly when every table and every column it names
      exists, every qualifier it uses is unambiguous, and one value is bound per
      placeholder. */
  lemma ResolveSucceeds(cat: Catalog, p: Plan, params: seq<Value>)
    ensures Resolve(cat, p, params).Ok? <==>
      && FindTable(cat, p.anchor.table).Some?
      && var anchorCols := cat[FindTable(cat, p.anchor.table).value].table.columns;
      && (forall i :: 0 <= i < |p.joins| ==> JoinExists(cat, anchorCols, p.joins[i]))
      && CheckQualifiers(p).None?
      && CiMember(Names(anchorCols), p.stateColumn)
      && (p.select.Columns? ==> ItemsExist(anchorCols, p.select.items))
      && p.placeholders == |params|
  {
    var a := FindTable(cat, p.anchor.table);
    if a.Some? {
      var anchorCols := cat[a.value].table.columns;
      ResolveJoinsSucceeds(cat, anchorCols, p.joins);
      if p.select.Columns? {
        ResolveItemsMeaning(anchorCols, p.select.items);
      }
    }
  }

  /** A resolved query reads the tables the plan names, resolves its columns by name and
      binds the given values. */
  lemma ResolveMeaning(cat: Catalog, p: Plan, params: seq<Value>)
    requires Resolve(cat, p, params).Ok?
    ensures var q := Resolve(cat, p, params).value;
      && FindTable(cat, p.anchor.table).Some?
      && q.anchor == cat[FindTable(cat, p.anchor.table).value].table
      && |q.joins| == |p.joins|
      && (forall i :: 0 <= i < |p.joins| ==> JoinResolves(cat, q.anchor.columns, p.joins[i], q.joins[i]))
      && Lookup(Names(q.anchor.columns), p.stateColumn) == Some(q.stateColumn)
      && q.values == params
      && (p.select.Star? ==> q.projection == AllColumns && q.header == q.anchor.columns + JoinColumns(q.joins))
      && (p.select.Columns? ==>
            && ResolveItems(q.anchor.columns, p.select.items).Ok?
            && q.projection == AnchorColumns(ResolveItems(q.anchor.columns, p.select.items).value.0)
            && q.header == ResolveItems(q.anchor.columns, p.select.items).value.1)
  {
    var anchorCols := cat[FindTable(cat, p.anchor.table).value].table.columns;
    ResolveJoinsMeaning(cat, anchorCols, p.joins);
  }
}
