/**
 * `DatabaseSchemaComparatorCore`: the ordered list of differences between a
 * current and a target schema, ignoring a configured set of tables.
 */
module Comparator {
  import opened Wrappers
  import opened Seqs
  import opened Sorting
  import opened TableSchema
  import opened DatabaseSchema
  import opened Differences

  /** A comparator holds only the fully qualified names of the tables it ignores. */
  datatype Comparator = Comparator(ignoreTables: seq<string>)

  /**
   * The constructor: each configured table name gets the database prefix;
   * without an `ignoreTables` parameter nothing is ignored.
   */
  function NewComparator(prefix: string, ignoreTables: Option<seq<string>>): (c: Comparator)
    ensures ignoreTables.None? ==> c.ignoreTables == []
    ensures ignoreTables.Some? ==>
      && |c.ignoreTables| == |ignoreTables.value|
      && forall i :: 0 <= i < |c.ignoreTables| ==> c.ignoreTables[i] == prefix + ignoreTables.value[i]
  {
    match ignoreTables
    case None => Comparator([])
    case Some(names) => Comparator(seq(|names|, i requires 0 <= i < |names| => prefix + names[i]))
  }

  /** The tables of `s` that are not ignored, sorted by name with `strcmp`. */
  function GetTables(c: Comparator, s: Schema): (r: seq<Table>)
    ensures forall t :: t in r <==> t in s.Tables() && t.name !in c.ignoreTables
    ensures SortedBy(r, TableName)
    ensures DistinctBy(s.Tables(), TableName) ==> StrictlySortedBy(r, TableName)
  {
    var keep := (t: Table) => t.name !in c.ignoreTables;
    var kept := Filter(s.Tables(), keep);
    FilterDistinctBy(s.Tables(), keep, TableName);
    var r := Sort(kept, TableName);
    assert forall t :: t in r <==> t in kept by {
      forall t ensures t in r <==> t in kept {
        assert t in r <==> t in multiset(r);
        assert t in kept <==> t in multiset(kept);
      }
    }
    r
  }

  /** The columns of `target` whose names `current` lacks, in `target`'s order. */
  function MissingColumns(current: Table, target: Table): (r: seq<Column>)
    ensures forall col :: col in r <==> col in target.Columns() && !current.HasColumn(col.name)
    ensures IsSubsequence(r, target.Columns())
    ensures DistinctBy(target.Columns(), ColumnName) ==> DistinctBy(r, ColumnName)
  {
    var missing := (col: Column) => !current.HasColumn(col.name);
    FilterDistinctBy(target.Columns(), missing, ColumnName);
    Filter(target.Columns(), missing)
  }

  /** The keys of `target` whose names `current` lacks, in `target`'s order. */
  function MissingKeys(current: Table, target: Table): (r: seq<Key>)
    ensures forall k :: k in r <==> k in target.Keys() && !current.HasKey(k.name)
    ensures IsSubsequence(r, target.Keys())
    ensures DistinctBy(target.Keys(), KeyName) ==> DistinctBy(r, KeyName)
  {
    var missing := (k: Key) => !current.HasKey(k.name);
    FilterDistinctBy(target.Keys(), missing, KeyName);
    Filter(target.Keys(), missing)
  }

  /** Whether two columns disagree on one attribute; a null default differs from ''. */
  predicate Differs(a: Attribute, current: Column, target: Column) {
    match a
    case DataType => current.dataType != target.dataType
    case DefaultValue => current.defaultValue != target.defaultValue
    case Nullable => current.nullable != target.nullable
    case AutoIncrement => current.autoIncrement != target.autoIncrement
  }

  /** Every attribute, in the order the comparator checks them. */
  const AllAttributes: seq<Attribute> := [DataType, DefaultValue, Nullable, AutoIncrement]

  /** The attributes of `attrs` on which the two columns disagree, in the order of `attrs`. */
  function MismatchesIn(attrs: seq<Attribute>, current: Column, target: Column): seq<Attribute> {
    if attrs == [] then []
    else (if Differs(attrs[0], current, target) then [attrs[0]] else []) + MismatchesIn(attrs[1..], current, target)
  }

  /** Exactly the attributes of `attrs` on which the columns disagree are reported. */
  lemma {:induction false} MismatchesMembers(attrs: seq<Attribute>, current: Column, target: Column)
    ensures forall a :: a in MismatchesIn(attrs, current, target) <==> a in attrs && Differs(a, current, target)
  {
    if attrs != [] {
      MismatchesMembers(attrs[1..], current, target);
      assert attrs == [attrs[0]] + attrs[1..];
    }
  }

  /** The attributes on which the two columns disagree, in checking order. */
  function Mismatches(current: Column, target: Column): seq<Attribute> {
    MismatchesIn(AllAttributes, current, target)
  }

  /** The difference record reporting attribute `a`. */
  function AttributeDifference(a: Attribute, table: Table, target: Column, current: Column): (d: Difference)
    ensures d.IsColumnAttribute() && AttributeOf(d) == a
    ensures d.table == table && d.target == target && d.current == current
  {
    match a
    case DataType => DifferentDataType(table, target, current)
    case DefaultValue => DifferentDefaultValue(table, target, current)
    case Nullable => DifferentNullable(table, target, current)
    case AutoIncrement => DifferentAutoIncrement(table, target, current)
  }

  /** One record per attribute of `attrs`, in that order. */
  function Reported(attrs: seq<Attribute>, table: Table, target: Column, current: Column): (r: seq<Difference>)
    ensures |r| == |attrs|
    ensures forall i :: 0 <= i < |r| ==> r[i] == AttributeDifference(attrs[i], table, target, current)
  {
    seq(|attrs|, i requires 0 <= i < |attrs| => AttributeDifference(attrs[i], table, target, current))
  }

  /** The record for one attribute, present exactly when the columns disagree on it. */
  function CheckAttribute(a: Attribute, table: Table, current: Column, target: Column): (r: seq<Difference>)
    ensures r == Reported(if Differs(a, current, target) then [a] else [], table, target, current)
  {
    if Differs(a, current, target) then [AttributeDifference(a, table, target, current)] else []
  }

  lemma ReportedConcat(x: seq<Attribute>, y: seq<Attribute>, table: Table, target: Column, current: Column)
    ensures Reported(x + y, table, target, current)
      == Reported(x, table, target, current) + Reported(y, table, target, current)
  {
  }

  /** Every reported record names one attribute of `attrs`, for the given table and columns. */
  lemma ReportedMembers(attrs: seq<Attribute>, table: Table, target: Column, current: Column)
    ensures forall d :: d in Reported(attrs, table, target, current) ==>
      && d.IsColumnAttribute() && d.table == table && d.target == target && d.current == current
      && AttributeOf(d) in attrs
  {
    var r := Reported(attrs, table, target, current);
    forall d | d in r
      ensures d.IsColumnAttribute() && d.table == table && d.target == target && d.current == current
      ensures AttributeOf(d) in attrs
    {
      var i :| 0 <= i < |r| && r[i] == d;
      assert d == AttributeDifference(attrs[i], table, target, current);
    }
  }

  /** The four checks of `getColumnDifferences` report exactly the mismatching attributes. */
  lemma ChecksReportMismatches(table: Table, current: Column, target: Column)
    ensures CheckAttribute(DataType, table, current, target)
      + (CheckAttribute(DefaultValue, table, current, target)
      + (CheckAttribute(Nullable, table, current, target)
      + CheckAttribute(AutoIncrement, table, current, target)))
      == Reported(Mismatches(current, target), table, target, current)
  {
    var a := if Differs(DataType, current, target) then [DataType] else [];
    var b := if Differs(DefaultValue, current, target) then [DefaultValue] else [];
    var c := if Differs(Nullable, current, target) then [Nullable] else [];
    var d := if Differs(AutoIncrement, current, target) then [AutoIncrement] else [];
    assert Mismatches(current, target) == a + (b + (c + d)) by {
      var s1: seq<Attribute> := [DefaultValue, Nullable, AutoIncrement];
      var s2: seq<Attribute> := [Nullable, AutoIncrement];
      var s3: seq<Attribute> := [AutoIncrement];
      assert AllAttributes[1..] == s1 && s1[1..] == s2 && s2[1..] == s3 && s3[1..] == [];
      assert MismatchesIn(AllAttributes, current, target) == a + MismatchesIn(s1, current, target);
      assert MismatchesIn(s1, current, target) == b + MismatchesIn(s2, current, target);
      assert MismatchesIn(s2, current, target) == c + MismatchesIn(s3, current, target);
      assert MismatchesIn(s3, current, target) == d + MismatchesIn([], current, target);
    }
    ReportedConcat(c, d, table, target, current);
    ReportedConcat(b, c + d, table, target, current);
    ReportedConcat(a, b + (c + d), table, target, current);
  }

  /**
   * `getColumnDifferences`: exactly one record per attribute on which the
   * columns disagree, in the order dataType, default, nullable, autoIncrement.
   */
  function ColumnDifferences(table: Table, current: Column, target: Column): (r: seq<Difference>)
    ensures r == Reported(Mismatches(current, target), table, target, current)
    ensures forall d :: d in r ==>
      && d.IsColumnAttribute() && d.table == table && d.target == target && d.current == current
      && Differs(AttributeOf(d), current, target)
  {
    ChecksReportMismatches(table, current, target);
    ReportedMembers(Mismatches(current, target), table, target, current);
    MismatchesMembers(AllAttributes, current, target);
    CheckAttribute(DataType, table, current, target)
    + (CheckAttribute(DefaultValue, table, current, target)
    + (CheckAttribute(Nullable, table, current, target)
    + CheckAttribute(AutoIncrement, table, current, target)))
  }

  /** Step 2 of a table comparison: attribute differences of the columns of `cols` that `current` also has. */
  function ChangedColumns(current: Table, target: Table, cols: seq<Column>): (r: seq<Difference>)
    ensures forall d :: d in r ==>
      && d.IsColumnAttribute()
      && d.table == target
      && d.target in cols
      && current.GetColumn(d.target.name) == Some(d.current)
      && Differs(AttributeOf(d), d.current, d.target)
  {
    if cols == [] then []
    else
      (match current.GetColumn(cols[0].name)
       case None => []
       case Some(cc) => ColumnDifferences(target, cc, cols[0]))
      + ChangedColumns(current, target, cols[1..])
  }

  /** Whether a same-named key changed: its type, or its column sequence (order matters). */
  predicate KeyChanged(current: Key, target: Key) {
    current.kind != target.kind || current.columns != target.columns
  }

  /** Step 5 of a table comparison: the keys of `keys` that `current` has in a different form. */
  function ChangedKeys(current: Table, target: Table, keys: seq<Key>): (r: seq<Difference>)
    ensures forall d :: d in r ==>
      && d.DifferentKey?
      && d.table == target
      && d.targetKey in keys
      && current.GetKey(d.targetKey.name) == Some(d.currentKey)
      && KeyChanged(d.currentKey, d.targetKey)
  {
    if keys == [] then []
    else
      (match current.GetKey(keys[0].name)
       case None => []
       case Some(ck) => if KeyChanged(ck, keys[0]) then [DifferentKey(target, keys[0], ck)] else [])
      + ChangedKeys(current, target, keys[1..])
  }

  function MissingColumnDifferences(table: Table, cols: seq<Column>): (r: seq<Difference>)
    ensures |r| == |cols| && forall i :: 0 <= i < |r| ==> r[i] == MissingColumn(table, cols[i])
    ensures forall d :: d in r <==> d.MissingColumn? && d.table == table && d.column in cols
    ensures PhasesWithin(r, 1, 1)
  {
    seq(|cols|, i requires 0 <= i < |cols| => MissingColumn(table, cols[i]))
  }

  function ExtraColumnDifferences(table: Table, cols: seq<Column>): (r: seq<Difference>)
    ensures |r| == |cols| && forall i :: 0 <= i < |r| ==> r[i] == ExtraColumn(table, cols[i])
    ensures forall d :: d in r <==> d.ExtraColumn? && d.table == table && d.column in cols
    ensures PhasesWithin(r, 3, 3)
  {
    seq(|cols|, i requires 0 <= i < |cols| => ExtraColumn(table, cols[i]))
  }

  function MissingKeyDifferences(table: Table, keys: seq<Key>): (r: seq<Difference>)
    ensures |r| == |keys| && forall i :: 0 <= i < |r| ==> r[i] == MissingKey(table, keys[i])
    ensures forall d :: d in r <==> d.MissingKey? && d.table == table && d.key in keys
    ensures PhasesWithin(r, 4, 4)
  {
    seq(|keys|, i requires 0 <= i < |keys| => MissingKey(table, keys[i]))
  }

  function ExtraKeyDifferences(table: Table, keys: seq<Key>): (r: seq<Difference>)
    ensures |r| == |keys| && forall i :: 0 <= i < |r| ==> r[i] == ExtraKey(table, keys[i])
    ensures forall d :: d in r <==> d.ExtraKey? && d.table == table && d.key in keys
    ensures PhasesWithin(r, 6, 6)
  {
    seq(|keys|, i requires 0 <= i < |keys| => ExtraKey(table, keys[i]))
  }

  function EngineDifference(current: Table, target: Table): (r: seq<Difference>)
    ensures PhasesWithin(r, 0, 0)
  {
    if current.engine != target.engine then [DifferentEngine(target, current.engine)] else []
  }

  /** Steps 1 to 4 of a table comparison: engine, then columns missing, changed and extra. */
  function ColumnPart(current: Table, target: Table): (r: seq<Difference>)
    ensures PhasesWithin(r, 0, 3)
  {
    ColumnPhases(current, target);
    EngineDifference(current, target)
    + (MissingColumnDifferences(target, MissingColumns(current, target))
    + (ChangedColumns(current, target, target.Columns())
    + ExtraColumnDifferences(current, MissingColumns(target, current))))
  }

  lemma ColumnPhases(current: Table, target: Table)
    ensures PhasesWithin(
      EngineDifference(current, target)
      + (MissingColumnDifferences(target, MissingColumns(current, target))
      + (ChangedColumns(current, target, target.Columns())
      + ExtraColumnDifferences(current, MissingColumns(target, current)))), 0, 3)
  {
    var changedColumns := ChangedColumns(current, target, target.Columns());
    ChangedColumnsPhase(current, target, target.Columns());
    PhaseRuns(
      EngineDifference(current, target),
      MissingColumnDifferences(target, MissingColumns(current, target)),
      changedColumns,
      ExtraColumnDifferences(current, MissingColumns(target, current)),
      0);
  }

  /** Every attribute difference of changed columns belongs to step 2. */
  lemma ChangedColumnsPhase(current: Table, target: Table, cols: seq<Column>)
    ensures PhasesWithin(ChangedColumns(current, target, cols), 2, 2)
  {
    var ds := ChangedColumns(current, target, cols);
    forall d | d in ds ensures Phase(d) == 2 {
      AttributePhase(d);
    }
    ChangedPhases(ds, 2);
  }

  /** Four runs of differences of consecutive steps `k` to `k + 3`, in order, are ordered by step. */
  lemma PhaseRuns(a: seq<Difference>, b: seq<Difference>, c: seq<Difference>, d: seq<Difference>, k: nat)
    requires PhasesWithin(a, k, k) && PhasesWithin(b, k + 1, k + 1)
    requires PhasesWithin(c, k + 2, k + 2) && PhasesWithin(d, k + 3, k + 3)
    ensures PhasesWithin(a + (b + (c + d)), k, k + 3)
  {
    PhasesConcat(c, d, k + 2, k + 3, k + 3);
    PhasesConcat(b, c + d, k + 1, k + 2, k + 3);
    PhasesConcat(a, b + (c + d), k, k + 1, k + 3);
  }

  /** Steps 5 to 7 of a table comparison: keys missing, changed and extra. */
  function KeyPart(current: Table, target: Table): (r: seq<Difference>)
    ensures PhasesWithin(r, 4, 6)
  {
    KeyPhases(current, target);
    MissingKeyDifferences(target, MissingKeys(current, target))
    + (ChangedKeys(current, target, target.Keys())
    + ExtraKeyDifferences(current, MissingKeys(target, current)))
  }

  lemma KeyPhases(current: Table, target: Table)
    ensures PhasesWithin(
      MissingKeyDifferences(target, MissingKeys(current, target))
      + (ChangedKeys(current, target, target.Keys())
      + ExtraKeyDifferences(current, MissingKeys(target, current))), 4, 6)
  {
    ChangedKeysPhase(current, target, target.Keys());
    PhaseRuns3(
      MissingKeyDifferences(target, MissingKeys(current, target)),
      ChangedKeys(current, target, target.Keys()),
      ExtraKeyDifferences(current, MissingKeys(target, current)),
      4);
  }

  /** Every changed key belongs to step 5. */
  lemma ChangedKeysPhase(current: Table, target: Table, keys: seq<Key>)
    ensures PhasesWithin(ChangedKeys(current, target, keys), 5, 5)
  {
    ChangedPhases(ChangedKeys(current, target, keys), 5);
  }

  /** Three runs of differences of consecutive steps `k` to `k + 2`, in order, are ordered by step. */
  lemma PhaseRuns3(a: seq<Difference>, b: seq<Difference>, c: seq<Difference>, k: nat)
    requires PhasesWithin(a, k, k) && PhasesWithin(b, k + 1, k + 1) && PhasesWithin(c, k + 2, k + 2)
    ensures PhasesWithin(a + (b + c), k, k + 2)
  {
    PhasesConcat(b, c, k + 1, k + 2, k + 2);
    PhasesConcat(a, b + c, k, k + 1, k + 2);
  }

  /**
   * `getTableDifferences`: engine, missing columns, changed columns, extra
   * columns, missing keys, changed keys, extra keys, in that order.
   */
  function TableDifferences(current: Table, target: Table): (r: seq<Difference>)
    ensures PhasesWithin(r, 0, 6)
  {
    var columns := ColumnPart(current, target);
    var keys := KeyPart(current, target);
    PhasesConcat(columns, keys, 0, 4, 6);
    columns + keys
  }

  lemma ChangedPhases(ds: seq<Difference>, k: nat)
    requires forall d :: d in ds ==> Phase(d) == k
    ensures PhasesWithin(ds, k, k)
  {
    forall i, j | 0 <= i < j < |ds| ensures Phase(ds[i]) == Phase(ds[j]) {
      assert ds[i] in ds && ds[j] in ds;
    }
  }

  /** One target table: missing from `current`, or compared with its namesake there. */
  function TableEntry(t: Table, current: Schema): (r: seq<Difference>)
    ensures !current.HasTable(t.name) ==> r == [MissingTable(t)]
    ensures current.HasTable(t.name) ==> forall d :: d in r ==> !d.MissingTable?
    ensures forall d :: d in r ==> !d.ExtraTable?
  {
    match current.GetTable(t.name)
    case None => [MissingTable(t)]
    case Some(ct) => TableLevelAbsent(TableDifferences(ct, t)); TableDifferences(ct, t)
  }

  /** Records of phases 0 to 6 are never about whole tables. */
  lemma TableLevelAbsent(ds: seq<Difference>)
    requires PhasesWithin(ds, 0, 6)
    ensures forall d :: d in ds ==> !d.MissingTable? && !d.ExtraTable?
  {
  }

  /** The first loop of `getDifferences`, over the target tables in order. */
  function TargetDriven(tables: seq<Table>, current: Schema): (r: seq<Difference>)
    ensures forall d :: d in r ==> !d.ExtraTable?
  {
    if tables == [] then [] else TableEntry(tables[0], current) + TargetDriven(tables[1..], current)
  }

  /** The second loop of `getDifferences`: current tables the target lacks. */
  function ExtraTables(tables: seq<Table>, target: Schema): (r: seq<Difference>)
    ensures forall d :: d in r ==> d.ExtraTable? && d.table in tables && !target.HasTable(d.table.name)
    ensures forall t :: t in tables && !target.HasTable(t.name) ==> ExtraTable(t) in r
  {
    if tables == [] then []
    else
      (if target.HasTable(tables[0].name) then [] else [ExtraTable(tables[0])])
      + ExtraTables(tables[1..], target)
  }

  /**
   * `getDifferences`: the differences driven by the target tables, then the
   * extra tables of the current schema.
   */
  function GetDifferences(c: Comparator, current: Schema, target: Schema): (r: seq<Difference>)
    ensures ExtraTablesLast(r)
  {
    var a := TargetDriven(GetTables(c, target), current);
    var b := ExtraTables(GetTables(c, current), target);
    ExtraTablesLastConcat(a, b);
    a + b
  }
}
