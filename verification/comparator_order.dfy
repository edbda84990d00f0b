/**
 * Order and multiplicity of the comparator's records: changed columns and
 * changed keys are reported in the target table's own order, one table
 * comparison never reports a record twice, and a missing or extra table is
 * reported exactly once.
 */
module ComparatorOrder {
  import opened Wrappers
  import opened Seqs
  import opened Sorting
  import opened TableSchema
  import opened DatabaseSchema
  import opened Differences
  import opened Comparator
  import opened ComparatorProperties

  // ---------------------------------------------------------------------
  // Changed columns and keys split over concatenation
  // ---------------------------------------------------------------------

  /** The attribute differences of one target column against its namesake in `current`. */
  function ColumnEntry(current: Table, target: Table, col: Column): (r: seq<Difference>)
    ensures current.GetColumn(col.name).None? ==> r == []
    ensures forall d :: d in r ==> d.IsColumnAttribute() && d.target == col
    ensures forall i, j :: 0 <= i < j < |r| ==> Rank(AttributeOf(r[i])) < Rank(AttributeOf(r[j]))
  {
    match current.GetColumn(col.name)
    case None => []
    case Some(cc) => ColumnDifferencesOrdered(target, cc, col); ColumnDifferences(target, cc, col)
  }

  /** The record of one target key that changed against its namesake in `current`. */
  function KeyEntry(current: Table, target: Table, key: Key): (r: seq<Difference>)
    ensures |r| <= 1
    ensures forall d :: d in r ==> d.DifferentKey? && d.targetKey == key
    ensures r != [] <==> current.HasKey(key.name) && KeyChanged(current.GetKey(key.name).value, key)
  {
    match current.GetKey(key.name)
    case None => []
    case Some(ck) => if KeyChanged(ck, key) then [DifferentKey(target, key, ck)] else []
  }

  lemma ChangedColumnsCons(current: Table, target: Table, cols: seq<Column>)
    requires cols != []
    ensures ChangedColumns(current, target, cols)
      == ColumnEntry(current, target, cols[0]) + ChangedColumns(current, target, cols[1..])
  {
  }

  lemma ChangedKeysCons(current: Table, target: Table, keys: seq<Key>)
    requires keys != []
    ensures ChangedKeys(current, target, keys)
      == KeyEntry(current, target, keys[0]) + ChangedKeys(current, target, keys[1..])
  {
  }

  /** Checking `a` then `b` reports what checking each reports, in that order. */
  lemma {:induction false} ChangedColumnsConcat(current: Table, target: Table, a: seq<Column>, b: seq<Column>)
    ensures ChangedColumns(current, target, a + b)
      == ChangedColumns(current, target, a) + ChangedColumns(current, target, b)
  {
    if a != [] {
      assert (a + b)[0] == a[0] && (a + b)[1..] == a[1..] + b;
      ChangedColumnsCons(current, target, a + b);
      ChangedColumnsCons(current, target, a);
      ChangedColumnsConcat(current, target, a[1..], b);
      AppendAssoc(ColumnEntry(current, target, a[0]), ChangedColumns(current, target, a[1..]),
        ChangedColumns(current, target, b));
    } else {
      assert a + b == b;
    }
  }

  /** Checking `a` then `b` reports what checking each reports, in that order. */
  lemma {:induction false} ChangedKeysConcat(current: Table, target: Table, a: seq<Key>, b: seq<Key>)
    ensures ChangedKeys(current, target, a + b)
      == ChangedKeys(current, target, a) + ChangedKeys(current, target, b)
  {
    if a != [] {
      assert (a + b)[0] == a[0] && (a + b)[1..] == a[1..] + b;
      ChangedKeysCons(current, target, a + b);
      ChangedKeysCons(current, target, a);
      ChangedKeysConcat(current, target, a[1..], b);
      AppendAssoc(KeyEntry(current, target, a[0]), ChangedKeys(current, target, a[1..]),
        ChangedKeys(current, target, b));
    } else {
      assert a + b == b;
    }
  }

  // ---------------------------------------------------------------------
  // Changed columns follow the target's column order
  // ---------------------------------------------------------------------

  /**
   * Of any two attribute records, the later one is about a later column of
   * `cols`, or about the same column and a later attribute in checking order.
   */
  ghost predicate InColumnOrder(r: seq<Difference>, cols: seq<Column>) {
    forall i, j :: 0 <= i < j < |r| && r[i].IsColumnAttribute() && r[j].IsColumnAttribute() ==>
      || IndexOf(cols, r[i].target) < IndexOf(cols, r[j].target)
      || (r[i].target == r[j].target && Rank(AttributeOf(r[i])) < Rank(AttributeOf(r[j])))
  }

  lemma ColumnOrderCons(h: seq<Difference>, t: seq<Difference>, cols: seq<Column>)
    requires cols != [] && cols[0] !in cols[1..]
    requires forall d :: d in h ==> d.IsColumnAttribute() && d.target == cols[0]
    requires forall i, j :: 0 <= i < j < |h| ==>
      h[i].IsColumnAttribute() && h[j].IsColumnAttribute() && Rank(AttributeOf(h[i])) < Rank(AttributeOf(h[j]))
    requires forall d :: d in t && d.IsColumnAttribute() ==> d.target in cols[1..]
    requires InColumnOrder(t, cols[1..])
    ensures InColumnOrder(h + t, cols)
  {
    var r := h + t;
    forall i, j | 0 <= i < j < |r| && r[i].IsColumnAttribute() && r[j].IsColumnAttribute()
      ensures || IndexOf(cols, r[i].target) < IndexOf(cols, r[j].target)
              || (r[i].target == r[j].target && Rank(AttributeOf(r[i])) < Rank(AttributeOf(r[j])))
    {
      if j < |h| {
        assert r[i] == h[i] && r[j] == h[j];
      } else if i < |h| {
        assert r[i] == h[i] && h[i] in h && r[j] == t[j - |h|] && t[j - |h|] in t;
        assert r[j].target != cols[0];
      } else {
        assert r[i] == t[i - |h|] && t[i - |h|] in t && r[j] == t[j - |h|] && t[j - |h|] in t;
        assert r[i].target != cols[0] && r[j].target != cols[0];
      }
    }
  }

  /** `ChangedColumns` reports its columns in the order given, each one's attributes in checking order. */
  lemma {:induction false} ChangedColumnsOrdered(current: Table, target: Table, cols: seq<Column>)
    requires Distinct(cols)
    ensures InColumnOrder(ChangedColumns(current, target, cols), cols)
  {
    if cols != [] {
      DistinctHeadTail(cols);
      ChangedColumnsCons(current, target, cols);
      ChangedColumnsOrdered(current, target, cols[1..]);
      ColumnOrderCons(ColumnEntry(current, target, cols[0]), ChangedColumns(current, target, cols[1..]), cols);
    }
  }

  lemma ColumnOrderFrame(a: seq<Difference>, c: seq<Difference>, b: seq<Difference>, cols: seq<Column>)
    requires forall d :: d in a ==> Phase(d) < 2
    requires forall d :: d in b ==> 2 < Phase(d)
    requires InColumnOrder(c, cols)
    ensures InColumnOrder(a + c + b, cols)
  {
    var r := a + c + b;
    forall i, j | 0 <= i < j < |r| && r[i].IsColumnAttribute() && r[j].IsColumnAttribute()
      ensures || IndexOf(cols, r[i].target) < IndexOf(cols, r[j].target)
              || (r[i].target == r[j].target && Rank(AttributeOf(r[i])) < Rank(AttributeOf(r[j])))
    {
      AttributePhase(r[i]);
      AttributePhase(r[j]);
      assert |a| <= i && j < |a| + |c|;
      assert r[i] == c[i - |a|] && r[j] == c[j - |a|];
    }
  }

  /**
   * In `getTableDifferences` of a well-formed target table, the attribute
   * records come in the order of the target's columns, and for one column
   * in the order data type, default, nullable, auto-increment.
   */
  lemma TableDifferencesColumnOrder(current: Table, target: Table)
    requires target.Valid()
    ensures InColumnOrder(TableDifferences(current, target), target.Columns())
  {
    var e := EngineDifference(current, target);
    var m := MissingColumnDifferences(target, MissingColumns(current, target));
    var c := ChangedColumns(current, target, target.Columns());
    var x := ExtraColumnDifferences(current, MissingColumns(target, current));
    var k := KeyPart(current, target);
    assert TableDifferences(current, target) == e + (m + (c + x)) + k;
    AppendAssoc(e, m, c + x);
    AppendAssoc(e + m, c, x);
    AppendAssoc((e + m) + c, x, k);
    TableNamed(target);
    DistinctByDistinct(target.Columns(), ColumnName);
    ChangedColumnsOrdered(current, target, target.Columns());
    ColumnOrderFrame(e + m, c, x + k, target.Columns());
  }

  // ---------------------------------------------------------------------
  // Changed keys follow the target's key order
  // ---------------------------------------------------------------------

  /** Of any two changed-key records, the later one is about a later key of `keys`. */
  ghost predicate InKeyOrder(r: seq<Difference>, keys: seq<Key>) {
    forall i, j :: 0 <= i < j < |r| && r[i].DifferentKey? && r[j].DifferentKey? ==>
      IndexOf(keys, r[i].targetKey) < IndexOf(keys, r[j].targetKey)
  }

  lemma KeyOrderCons(h: seq<Difference>, t: seq<Difference>, keys: seq<Key>)
    requires keys != [] && keys[0] !in keys[1..]
    requires |h| <= 1 && forall d :: d in h ==> d.DifferentKey? && d.targetKey == keys[0]
    requires forall d :: d in t && d.DifferentKey? ==> d.targetKey in keys[1..]
    requires InKeyOrder(t, keys[1..])
    ensures InKeyOrder(h + t, keys)
  {
    var r := h + t;
    forall i, j | 0 <= i < j < |r| && r[i].DifferentKey? && r[j].DifferentKey?
      ensures IndexOf(keys, r[i].targetKey) < IndexOf(keys, r[j].targetKey)
    {
      if i < |h| {
        assert r[i] == h[i] && h[i] in h && r[j] == t[j - |h|] && t[j - |h|] in t;
        assert r[j].targetKey != keys[0];
      } else {
        assert r[i] == t[i - |h|] && t[i - |h|] in t && r[j] == t[j - |h|] && t[j - |h|] in t;
        assert r[i].targetKey != keys[0] && r[j].targetKey != keys[0];
      }
    }
  }

  /** `ChangedKeys` reports its keys in the order given, at most once each. */
  lemma {:induction false} ChangedKeysOrdered(current: Table, target: Table, keys: seq<Key>)
    requires Distinct(keys)
    ensures InKeyOrder(ChangedKeys(current, target, keys), keys)
  {
    if keys != [] {
      DistinctHeadTail(keys);
      ChangedKeysCons(current, target, keys);
      ChangedKeysOrdered(current, target, keys[1..]);
      KeyOrderCons(KeyEntry(current, target, keys[0]), ChangedKeys(current, target, keys[1..]), keys);
    }
  }

  lemma KeyOrderFrame(a: seq<Difference>, c: seq<Difference>, b: seq<Difference>, keys: seq<Key>)
    requires forall d :: d in a ==> Phase(d) < 5
    requires forall d :: d in b ==> 5 < Phase(d)
    requires InKeyOrder(c, keys)
    ensures InKeyOrder(a + c + b, keys)
  {
    var r := a + c + b;
    forall i, j | 0 <= i < j < |r| && r[i].DifferentKey? && r[j].DifferentKey?
      ensures IndexOf(keys, r[i].targetKey) < IndexOf(keys, r[j].targetKey)
    {
      assert Phase(r[i]) == 5 && Phase(r[j]) == 5;
      assert |a| <= i && j < |a| + |c|;
      assert r[i] == c[i - |a|] && r[j] == c[j - |a|];
    }
  }

  /** In `getTableDifferences` of a well-formed target table, changed keys follow the target's key order. */
  lemma TableDifferencesKeyOrder(current: Table, target: Table)
    requires target.Valid()
    ensures InKeyOrder(TableDifferences(current, target), target.Keys())
  {
    var p := ColumnPart(current, target);
    var m := MissingKeyDifferences(target, MissingKeys(current, target));
    var c := ChangedKeys(current, target, target.Keys());
    var x := ExtraKeyDifferences(current, MissingKeys(target, current));
    assert TableDifferences(current, target) == p + (m + (c + x));
    AppendAssoc(p, m, c + x);
    AppendAssoc(p + m, c, x);
    ChangedKeysPhase(current, target, target.Keys());
    TableNamed(target);
    DistinctByDistinct(target.Keys(), KeyName);
    ChangedKeysOrdered(current, target, target.Keys());
    KeyOrderFrame(p + m, c, x, target.Keys());
  }

  // ---------------------------------------------------------------------
  // A table comparison reports each record at most once
  // ---------------------------------------------------------------------

  lemma ColumnOrderDistinct(r: seq<Difference>, cols: seq<Column>)
    requires forall d :: d in r ==> d.IsColumnAttribute()
    requires InColumnOrder(r, cols)
    ensures Distinct(r)
  {
    forall i, j | 0 <= i < j < |r| ensures r[i] != r[j] {
      assert r[i] in r && r[j] in r;
    }
  }

  lemma KeyOrderDistinct(r: seq<Difference>, keys: seq<Key>)
    requires forall d :: d in r ==> d.DifferentKey?
    requires InKeyOrder(r, keys)
    ensures Distinct(r)
  {
    forall i, j | 0 <= i < j < |r| ensures r[i] != r[j] {
      assert r[i] in r && r[j] in r;
    }
  }

  /** Runs of records of increasing phases, each free of repetitions, concatenate without repetitions. */
  lemma DistinctPhases(a: seq<Difference>, b: seq<Difference>, k: nat)
    requires Distinct(a) && Distinct(b)
    requires forall d :: d in a ==> Phase(d) <= k
    requires forall d :: d in b ==> k < Phase(d)
    ensures Distinct(a + b)
  {
    DistinctConcat(a, b);
  }

  lemma MissingColumnsDistinct(current: Table, target: Table)
    requires target.Valid()
    ensures Distinct(MissingColumnDifferences(target, MissingColumns(current, target)))
  {
    var cols := MissingColumns(current, target);
    var r := MissingColumnDifferences(target, cols);
    TableNamed(target);
    forall i, j | 0 <= i < j < |r| ensures r[i] != r[j] {
      assert ColumnName(cols[i]) != ColumnName(cols[j]);
    }
  }

  lemma ExtraColumnsDistinct(current: Table, target: Table)
    requires current.Valid()
    ensures Distinct(ExtraColumnDifferences(current, MissingColumns(target, current)))
  {
    var cols := MissingColumns(target, current);
    var r := ExtraColumnDifferences(current, cols);
    TableNamed(current);
    forall i, j | 0 <= i < j < |r| ensures r[i] != r[j] {
      assert ColumnName(cols[i]) != ColumnName(cols[j]);
    }
  }

  lemma MissingKeysDistinct(current: Table, target: Table)
    requires target.Valid()
    ensures Distinct(MissingKeyDifferences(target, MissingKeys(current, target)))
  {
    var keys := MissingKeys(current, target);
    var r := MissingKeyDifferences(target, keys);
    TableNamed(target);
    forall i, j | 0 <= i < j < |r| ensures r[i] != r[j] {
      assert KeyName(keys[i]) != KeyName(keys[j]);
    }
  }

  lemma ExtraKeysDistinct(current: Table, target: Table)
    requires current.Valid()
    ensures Distinct(ExtraKeyDifferences(current, MissingKeys(target, current)))
  {
    var keys := MissingKeys(target, current);
    var r := ExtraKeyDifferences(current, keys);
    TableNamed(current);
    forall i, j | 0 <= i < j < |r| ensures r[i] != r[j] {
      assert KeyName(keys[i]) != KeyName(keys[j]);
    }
  }

  lemma ColumnPartDistinct(current: Table, target: Table)
    requires current.Valid() && target.Valid()
    ensures Distinct(ColumnPart(current, target))
  {
    var e := EngineDifference(current, target);
    var m := MissingColumnDifferences(target, MissingColumns(current, target));
    var c := ChangedColumns(current, target, target.Columns());
    var x := ExtraColumnDifferences(current, MissingColumns(target, current));
    MissingColumnsDistinct(current, target);
    ExtraColumnsDistinct(current, target);
    TableNamed(target);
    DistinctByDistinct(target.Columns(), ColumnName);
    ChangedColumnsOrdered(current, target, target.Columns());
    ColumnOrderDistinct(c, target.Columns());
    ChangedColumnsPhase(current, target, target.Columns());
    DistinctPhases(c, x, 2);
    DistinctPhases(m, c + x, 1);
    DistinctPhases(e, m + (c + x), 0);
  }

  lemma KeyPartDistinct(current: Table, target: Table)
    requires current.Valid() && target.Valid()
    ensures Distinct(KeyPart(current, target))
  {
    var m := MissingKeyDifferences(target, MissingKeys(current, target));
    var c := ChangedKeys(current, target, target.Keys());
    var x := ExtraKeyDifferences(current, MissingKeys(target, current));
    MissingKeysDistinct(current, target);
    ExtraKeysDistinct(current, target);
    TableNamed(target);
    DistinctByDistinct(target.Keys(), KeyName);
    ChangedKeysOrdered(current, target, target.Keys());
    KeyOrderDistinct(c, target.Keys());
    ChangedKeysPhase(current, target, target.Keys());
    DistinctPhases(c, x, 5);
    DistinctPhases(m, c + x, 4);
  }

  /** Comparing two well-formed tables reports no record twice. */
  lemma TableDifferencesDistinct(current: Table, target: Table)
    requires current.Valid() && target.Valid()
    ensures Distinct(TableDifferences(current, target))
    ensures forall d :: multiset(TableDifferences(current, target))[d] <= 1
  {
    var p := ColumnPart(current, target);
    var k := KeyPart(current, target);
    ColumnPartDistinct(current, target);
    KeyPartDistinct(current, target);
    DistinctPhases(p, k, 3);
    forall d ensures multiset(TableDifferences(current, target))[d] <= 1 {
      DistinctCount(TableDifferences(current, target), d);
    }
  }

  // ---------------------------------------------------------------------
  // Missing and extra tables are reported exactly once
  // ---------------------------------------------------------------------

  lemma {:induction false} TargetDrivenMissingCount(tables: seq<Table>, current: Schema, t: Table)
    requires Distinct(tables)
    ensures multiset(TargetDriven(tables, current))[MissingTable(t)]
      == if t in tables && !current.HasTable(t.name) then 1 else 0
  {
    if tables != [] {
      var e := TableEntry(tables[0], current);
      var rest := TargetDriven(tables[1..], current);
      assert TargetDriven(tables, current) == e + rest;
      DistinctHeadTail(tables);
      TargetDrivenMissingCount(tables[1..], current, t);
      if current.HasTable(tables[0].name) {
        assert MissingTable(t) !in e;
      } else if tables[0] != t {
        assert e == [MissingTable(tables[0])];
      }
      assert multiset(e + rest) == multiset(e) + multiset(rest);
    }
  }

  lemma {:induction false} ExtraTablesCount(tables: seq<Table>, target: Schema, t: Table)
    requires Distinct(tables)
    ensures multiset(ExtraTables(tables, target))[ExtraTable(t)]
      == if t in tables && !target.HasTable(t.name) then 1 else 0
  {
    if tables != [] {
      var e := if target.HasTable(tables[0].name) then [] else [ExtraTable(tables[0])];
      var rest := ExtraTables(tables[1..], target);
      assert ExtraTables(tables, target) == e + rest;
      DistinctHeadTail(tables);
      ExtraTablesCount(tables[1..], target, t);
      assert multiset(e + rest) == multiset(e) + multiset(rest);
    }
  }

  /**
   * `getDifferences` on well-formed schemas reports a target table that is
   * not ignored and that the current schema lacks exactly once, and no other
   * table as missing.
   */
  lemma MissingTableOnce(c: Comparator, current: Schema, target: Schema, t: Table)
    requires current.Valid() && target.Valid()
    ensures multiset(GetDifferences(c, current, target))[MissingTable(t)]
      == if t in target.Tables() && t.name !in c.ignoreTables && !current.HasTable(t.name) then 1 else 0
  {
    var tables := GetTables(c, target);
    var a := TargetDriven(tables, current);
    var b := ExtraTables(GetTables(c, current), target);
    assert GetDifferences(c, current, target) == a + b;
    SchemaNamed(target);
    StrictlySortedDistinct(tables, TableName);
    TargetDrivenMissingCount(tables, current, t);
    assert MissingTable(t) !in b;
    assert multiset(a + b) == multiset(a) + multiset(b);
  }

  /**
   * `getDifferences` on well-formed schemas reports a current table that is
   * not ignored and that the target schema lacks exactly once, and no other
   * table as extra.
   */
  lemma ExtraTableOnce(c: Comparator, current: Schema, target: Schema, t: Table)
    requires current.Valid() && target.Valid()
    ensures multiset(GetDifferences(c, current, target))[ExtraTable(t)]
      == if t in current.Tables() && t.name !in c.ignoreTables && !target.HasTable(t.name) then 1 else 0
  {
    var tables := GetTables(c, current);
    var a := TargetDriven(GetTables(c, target), current);
    var b := ExtraTables(tables, target);
    assert GetDifferences(c, current, target) == a + b;
    SchemaNamed(current);
    StrictlySortedDistinct(tables, TableName);
    ExtraTablesCount(tables, target, t);
    assert ExtraTable(t) !in a;
    assert multiset(a + b) == multiset(a) + multiset(b);
  }
}
