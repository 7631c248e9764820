/** The abstract relational store shared by the ingestors, the join scripts and the
    database combiner: values, rows, typed columns, tables, and a catalog of named
    tables kept in creation order (the order in which SQLite lists them). Identifiers
    are compared the way SQLite compares them: ASCII case-insensitively. */
module Store {

  datatype Option<T> = None | Some(value: T)

  datatype Result<T, E> = Ok(value: T) | Err(error: E)

  /** A stored value. REAL payloads are opaque tokens: nothing here does float arithmetic. */
  datatype Value = Null | Int(i: int) | Float(token: string) | Str(s: string)

  /** A stored record, positional over the table's column list. A record written before an
      `ALTER TABLE ... ADD COLUMN` is shorter than the column list; the missing trailing
      fields read as NULL, as they do in SQLite. */
  type Row = seq<Value>

  /** The value a row holds in column `k`. */
  function Cell(r: Row, k: nat): Value
  {
    if k < |r| then r[k] else Null
  }

  /** The row as `SELECT *` returns it from a table of `width` columns. */
  function Pad(r: Row, width: nat): (p: Row)
    ensures |p| == width
    ensures forall k :: 0 <= k < width ==> p[k] == Cell(r, k)
  {
    seq(width, k requires 0 <= k < width => Cell(r, k))
  }

  /** The three storage classes a column is declared with. */
  datatype SqlType = Integer | Real | Text

  datatype Column = Column(name: string, sqlType: SqlType)

  datatype Table = Table(columns: seq<Column>, rows: seq<Row>)

  function Names(cols: seq<Column>): (ns: seq<string>)
    ensures |ns| == |cols|
    ensures forall i :: 0 <= i < |cols| ==> ns[i] == cols[i].name
  {
    seq(|cols|, i requires 0 <= i < |cols| => cols[i].name)
  }

  lemma NamesAppend(a: seq<Column>, b: seq<Column>)
    ensures Names(a + b) == Names(a) + Names(b)
  {
  }

  // ---------------------------------------------------------------------------
  // Identifiers

  function LowerChar(c: char): char
  {
    if 'A' <= c <= 'Z' then (c as int + 32) as char else c
  }

  function Lower(s: string): (t: string)
    ensures |t| == |s|
  {
    seq(|s|, i requires 0 <= i < |s| => LowerChar(s[i]))
  }

  /** SQLite's identifier equality: ASCII letters fold to lower case, nothing else does. */
  predicate SameIdent(a: string, b: string)
  {
    Lower(a) == Lower(b)
  }

  /** No two names denote the same SQLite identifier. */
  predicate CiDistinct(ns: seq<string>)
  {
    forall i, j :: 0 <= i < j < |ns| ==> !SameIdent(ns[i], ns[j])
  }

  predicate CiMember(ns: seq<string>, n: string)
  {
    exists i :: 0 <= i < |ns| && SameIdent(ns[i], n)
  }

  /** Resolves an identifier against a list of names: the first name that denotes it. */
  function Lookup(ns: seq<string>, n: string): (r: Option<nat>)
    ensures r.Some? ==> r.value < |ns| && SameIdent(ns[r.value], n)
    ensures r.Some? ==> forall j :: 0 <= j < r.value ==> !SameIdent(ns[j], n)
    ensures r.None? <==> !CiMember(ns, n)
  {
    LookupFrom(ns, n, 0)
  }

  function LookupFrom(ns: seq<string>, n: string, i: nat): (r: Option<nat>)
    requires i <= |ns|
    requires forall j :: 0 <= j < i ==> !SameIdent(ns[j], n)
    ensures r.Some? ==> i <= r.value < |ns| && SameIdent(ns[r.value], n)
    ensures r.Some? ==> forall j :: 0 <= j < r.value ==> !SameIdent(ns[j], n)
    ensures r.None? <==> !CiMember(ns, n)
    decreases |ns| - i
  {
    if i == |ns| then None
    else if SameIdent(ns[i], n) then Some(i)
    else LookupFrom(ns, n, i + 1)
  }

  /** In a list of distinct identifiers, a name resolves to the position where it stands. */
  lemma LookupDistinct(ns: seq<string>, k: nat)
    requires CiDistinct(ns) && k < |ns|
    ensures Lookup(ns, ns[k]) == Some(k)
  {
    assert CiMember(ns, ns[k]);
  }

  // ---------------------------------------------------------------------------
  // Decimal rendering

  function DigitChar(d: nat): char
    requires d < 10
  {
    ('0' as int + d) as char
  }

  /** Python's `str` of a non-negative int: decimal, no leading zeros. */
  function NatToString(n: nat): (s: string)
    ensures |s| >= 1
    ensures forall i :: 0 <= i < |s| ==> '0' <= s[i] <= '9'
    ensures n >= 10 ==> s[0] != '0'
  {
    if n < 10 then [DigitChar(n)] else NatToString(n / 10) + [DigitChar(n % 10)]
  }

  // ---------------------------------------------------------------------------
  // Catalog: the tables of one database, in sqlite_master order

  datatype NamedTable = NamedTable(name: string, table: Table)

  type Catalog = seq<NamedTable>

  function TableNames(cat: Catalog): (ns: seq<string>)
    ensures |ns| == |cat|
    ensures forall i :: 0 <= i < |cat| ==> ns[i] == cat[i].name
  {
    seq(|cat|, i requires 0 <= i < |cat| => cat[i].name)
  }

  /** The position of the table a (case-insensitive) name refers to. */
  function FindTable(cat: Catalog, name: string): Option<nat>
  {
    Lookup(TableNames(cat), name)
  }

  /** A table appended under a name no earlier table has is the one that name finds. */
  lemma FindAppended(cat: Catalog, name: string, t: Table)
    requires FindTable(cat, name).None?
    ensures FindTable(cat + [NamedTable(name, t)], name) == Some(|cat|)
  {
    var c := cat + [NamedTable(name, t)];
    assert TableNames(c) == TableNames(cat) + [name];
    assert CiMember(TableNames(c), name) by {
      assert SameIdent(TableNames(c)[|cat|], name);
    }
  }

  /** `DROP TABLE IF EXISTS name`: every other table stays, in order. */
  function DropTable(cat: Catalog, name: string): (r: Catalog)
    ensures forall t :: t in r <==> t in cat && !SameIdent(t.name, name)
    ensures |r| <= |cat|
  {
    if cat == [] then []
    else if SameIdent(cat[0].name, name) then DropTable(cat[1..], name)
    else [cat[0]] + DropTable(cat[1..], name)
  }

  /** The live state of one SQLite database file. */
  class Database {
    var tables: Catalog

    constructor (initial: Catalog)
      ensures tables == initial
    {
      tables := initial;
    }
  }
}
