/** Schema reconciliation for the three period ingestors: the dtype to column-type rule,
    the column definitions of a CREATE, the columns a later batch is missing, and the
    sequence of `ALTER TABLE ... ADD COLUMN` statements that adds them. */
module Schema {
  import opened Store

  /** The dtype pandas inferred for a CSV column; every dtype but int64 and float64
      (object, bool, ...) is `Other`. */
  datatype DType = Int64 | Float64 | Other

  datatype BatchColumn = BatchColumn(name: string, dtype: DType)

  function BatchNames(cols: seq<BatchColumn>): (ns: seq<string>)
    ensures |ns| == |cols|
    ensures forall i :: 0 <= i < |cols| ==> ns[i] == cols[i].name
  {
    seq(|cols|, i requires 0 <= i < |cols| => cols[i].name)
  }

  /** The declared type of a column: INTEGER for int64, REAL for float64, TEXT otherwise. */
  function SqlTypeOf(d: DType): (t: SqlType)
    ensures t == Integer <==> d == Int64
    ensures t == Real <==> d == Float64
    ensures t == Text <==> d == Other
  {
    match d
    case Int64 => Integer
    case Float64 => Real
    case Other => Text
  }

  /** The type a column is created with. Names listed in `textOnCreate` are TEXT whatever
      their dtype; the others follow the dtype rule. */
  function CreateType(textOnCreate: seq<string>, c: BatchColumn): SqlType
  {
    if c.name in textOnCreate then Text else SqlTypeOf(c.dtype)
  }

  /** The column definitions of a CREATE, appended one per batch column. */
  function CreateDefinitions(textOnCreate: seq<string>, cols: seq<BatchColumn>): (defs: seq<Column>)
    ensures |defs| == |cols|
    ensures forall i :: 0 <= i < |cols| ==>
      defs[i].name == cols[i].name && defs[i].sqlType == CreateType(textOnCreate, cols[i])
  {
    if cols == [] then []
    else
      var last := cols[|cols| - 1];
      CreateDefinitions(textOnCreate, cols[..|cols| - 1]) + [Column(last.name, CreateType(textOnCreate, last))]
  }

  lemma CreateDefinitionNames(textOnCreate: seq<string>, cols: seq<BatchColumn>)
    ensures Names(CreateDefinitions(textOnCreate, cols)) == BatchNames(cols)
  {
  }

  /** Without an override, CREATE and ALTER type every column alike. */
  lemma {:induction false} CreateMatchesAlterWithoutOverride(cols: seq<BatchColumn>)
    ensures CreateDefinitions([], cols) == AlterDefinitions(cols)
  {
    var c, a := CreateDefinitions([], cols), AlterDefinitions(cols);
    forall i | 0 <= i < |cols| ensures c[i] == a[i] {
      assert cols[i].name !in [];
    }
  }

  /** The definitions of the columns added by ALTER: the plain dtype rule, no override. */
  function AlterDefinitions(cols: seq<BatchColumn>): (defs: seq<Column>)
    ensures |defs| == |cols|
    ensures Names(defs) == BatchNames(cols)
  {
    seq(|cols|, i requires 0 <= i < |cols| => Column(cols[i].name, SqlTypeOf(cols[i].dtype)))
  }

  /** `[col for col in df.columns if col not in existing_columns]`. */
  function NewColumns(existing: seq<string>, incoming: seq<BatchColumn>): (r: seq<BatchColumn>)
    ensures forall c :: c in r <==> c in incoming && c.name !in existing
    ensures |r| <= |incoming|
  {
    if incoming == [] then []
    else if incoming[0].name in existing then NewColumns(existing, incoming[1..])
    else [incoming[0]] + NewColumns(existing, incoming[1..])
  }

  /** `a` is `b` with some elements left out, the rest keeping their order. */
  ghost predicate IsSubsequence<T>(a: seq<T>, b: seq<T>)
  {
    if a == [] then true
    else if b == [] then false
    else (a[0] == b[0] && IsSubsequence(a[1..], b[1..])) || IsSubsequence(a, b[1..])
  }

  /** The missing columns are listed in the batch's own order. */
  lemma {:induction false} NewColumnsKeepBatchOrder(existing: seq<string>, incoming: seq<BatchColumn>)
    ensures IsSubsequence(NewColumns(existing, incoming), incoming)
  {
    if incoming != [] {
      NewColumnsKeepBatchOrder(existing, incoming[1..]);
      var rest := NewColumns(existing, incoming[1..]);
      if incoming[0].name !in existing {
        assert ([incoming[0]] + rest)[1..] == rest;
      } else {
        SubsequenceOfTail(rest, incoming);
      }
    }
  }

  lemma SubsequenceOfTail<T>(a: seq<T>, b: seq<T>)
    requires b != [] && IsSubsequence(a, b[1..])
    ensures IsSubsequence(a, b)
  {
  }

  /** Re-ingesting a header whose columns all exist asks for no new column. */
  lemma NoNewColumnsForKnownHeader(existing: seq<string>, incoming: seq<BatchColumn>)
    requires forall i :: 0 <= i < |incoming| ==> incoming[i].name in existing
    ensures NewColumns(existing, incoming) == []
  {
  }

  lemma CiDistinctSnoc(ns: seq<string>, n: string)
    ensures CiDistinct(ns + [n]) <==> CiDistinct(ns) && !CiMember(ns, n)
  {
    var s := ns + [n];
    if CiDistinct(s) {
      forall i, j | 0 <= i < j < |ns| ensures !SameIdent(ns[i], ns[j]) {
        assert s[i] == ns[i] && s[j] == ns[j];
      }
      forall i | 0 <= i < |ns| ensures !SameIdent(ns[i], n) {
        assert s[i] == ns[i] && s[|ns|] == n;
      }
    }
  }

  /** A name that collides with an earlier one breaks distinctness. */
  lemma CollisionBreaksDistinct(ns: seq<string>, rest: seq<string>)
    requires rest != [] && CiMember(ns, rest[0])
    ensures !CiDistinct(ns + rest)
  {
    var i :| 0 <= i < |ns| && SameIdent(ns[i], rest[0]);
    assert (ns + rest)[i] == ns[i] && (ns + rest)[|ns|] == rest[0];
  }

  /** What a run of ALTER statements over `pending` can leave: the columns of `cols`,
      then the definitions of a prefix of `pending`, in order; all of `pending` when every
      ALTER succeeded, and otherwise a prefix stopped by a column whose name the table
      already has (ignoring case). */
  ghost predicate AppendsAlters(cols: seq<Column>, pending: seq<BatchColumn>, r: (seq<Column>, bool))
  {
    && |cols| <= |r.0| <= |cols| + |pending|
    && r.0 == cols + AlterDefinitions(pending[..|r.0| - |cols|])
    && (r.1 ==> |r.0| == |cols| + |pending|)
    && (!r.1 ==> |r.0| < |cols| + |pending| && CiMember(Names(r.0), pending[|r.0| - |cols|].name))
  }

  /** The ALTER statements for `pending`, one at a time; SQLite rejects a column whose
      name the table already has (ignoring case), and the columns added before the
      rejected one stay. Returns the new column list and whether every ALTER succeeded.
      Existing columns are never dropped, moved or retyped. */
  function AlterFrom(cols: seq<Column>, pending: seq<BatchColumn>): (r: (seq<Column>, bool))
    ensures AppendsAlters(cols, pending, r)
    decreases |pending|
  {
    if pending == [] then
      assert cols + AlterDefinitions(pending[..0]) == cols;
      (cols, true)
    else if CiMember(Names(cols), pending[0].name) then
      assert cols + AlterDefinitions(pending[..0]) == cols;
      (cols, false)
    else
      var r := AlterFrom(cols + [Column(pending[0].name, SqlTypeOf(pending[0].dtype))], pending[1..]);
      AlterStep(cols, pending, r);
      r
  }

  /** One successful ALTER: what the rest of the sequence leaves on the extended table,
      the whole sequence leaves on the original one. */
  lemma AlterStep(cols: seq<Column>, pending: seq<BatchColumn>, r: (seq<Column>, bool))
    requires pending != []
    requires AppendsAlters(cols + [Column(pending[0].name, SqlTypeOf(pending[0].dtype))], pending[1..], r)
    ensures AppendsAlters(cols, pending, r)
  {
    var k := |r.0| - |cols| - 1;
    AlterDefinitionsShift(cols, pending, k);
    if !r.1 {
      assert pending[k + 1] == pending[1..][k];
    }
  }

  lemma AlterDefinitionsShift(cols: seq<Column>, pending: seq<BatchColumn>, k: nat)
    requires k < |pending|
    ensures (cols + [Column(pending[0].name, SqlTypeOf(pending[0].dtype))]) + AlterDefinitions(pending[1..][..k])
         == cols + AlterDefinitions(pending[..k + 1])
  {
    var x := AlterDefinitions(pending[1..][..k]);
    var c := Column(pending[0].name, SqlTypeOf(pending[0].dtype));
    AlterDefinitionsCons(pending, k);
    assert (cols + [c]) + x == cols + ([c] + x);
  }

  lemma AlterDefinitionsCons(pending: seq<BatchColumn>, k: nat)
    requires 0 <= k < |pending|
    ensures AlterDefinitions(pending[..k + 1])
         == [Column(pending[0].name, SqlTypeOf(pending[0].dtype))] + AlterDefinitions(pending[1..][..k])
  {
    assert pending[1..][..k] == pending[1..k + 1];
  }

  /** The ALTER sequence never gives the table two columns of the same name. */
  lemma {:induction false} AlterKeepsNamesDistinct(cols: seq<Column>, pending: seq<BatchColumn>)
    requires CiDistinct(Names(cols))
    ensures CiDistinct(Names(AlterFrom(cols, pending).0))
    decreases |pending|
  {
    if pending != [] && !CiMember(Names(cols), pending[0].name) {
      var c := Column(pending[0].name, SqlTypeOf(pending[0].dtype));
      CiDistinctSnoc(Names(cols), c.name);
      assert Names(cols + [c]) == Names(cols) + [c.name];
      AlterKeepsNamesDistinct(cols + [c], pending[1..]);
    }
  }

  /** Every ALTER succeeds exactly when the missing columns' names are new to the table
      and to each other. */
  lemma {:induction false} AlterSucceedsIffNamesDistinct(cols: seq<Column>, pending: seq<BatchColumn>)
    requires CiDistinct(Names(cols))
    ensures AlterFrom(cols, pending).1 <==> CiDistinct(Names(cols) + BatchNames(pending))
    decreases |pending|
  {
    if pending == [] {
      assert Names(cols) + BatchNames(pending) == Names(cols);
    } else if CiMember(Names(cols), pending[0].name) {
      CollisionBreaksDistinct(Names(cols), BatchNames(pending));
    } else {
      var c := Column(pending[0].name, SqlTypeOf(pending[0].dtype));
      assert Names(cols + [c]) + BatchNames(pending[1..]) == Names(cols) + BatchNames(pending);
      CiDistinctSnoc(Names(cols), c.name);
      assert Names(cols + [c]) == Names(cols) + [c.name];
      AlterSucceedsIffNamesDistinct(cols + [c], pending[1..]);
    }
  }
}
