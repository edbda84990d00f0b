/**
 * Properties of the schema comparator: exactness of each kind of record,
 * reflexivity, the ignore list, name ordering, and independence from the
 * insertion order of tables.
 */
module ComparatorProperties {
  import opened Wrappers
  import opened Strings
  import opened Seqs
  import opened Sorting
  import opened TableSchema
  import opened DatabaseSchema
  import opened Differences
  import opened Comparator

  // ---------------------------------------------------------------------
  // One pair of columns
  // ---------------------------------------------------------------------

  /** The position of an attribute in the comparator's checking order. */
  function Rank(a: Attribute): nat {
    match a
    case DataType => 0
    case DefaultValue => 1
    case Nullable => 2
    case AutoIncrement => 3
  }

  ghost predicate RankIncreasing(attrs: seq<Attribute>) {
    forall i, j :: 0 <= i < j < |attrs| ==> Rank(attrs[i]) < Rank(attrs[j])
  }

  lemma {:induction false} MismatchesRanked(attrs: seq<Attribute>, current: Column, target: Column)
    requires RankIncreasing(attrs)
    ensures RankIncreasing(MismatchesIn(attrs, current, target))
  {
    if attrs != [] {
      var tail := attrs[1..];
      TailRanked(attrs);
      MismatchesRanked(tail, current, target);
      MismatchesMembers(tail, current, target);
      var rest := MismatchesIn(tail, current, target);
      forall a | a in rest ensures Rank(attrs[0]) < Rank(a) {
        var k :| 0 <= k < |tail| && tail[k] == a;
        assert attrs[k + 1] == a;
      }
      if Differs(attrs[0], current, target) {
        ConsRanked(attrs[0], rest);
        assert MismatchesIn(attrs, current, target) == [attrs[0]] + rest;
      } else {
        assert MismatchesIn(attrs, current, target) == rest;
      }
    }
  }

  lemma TailRanked(attrs: seq<Attribute>)
    requires attrs != [] && RankIncreasing(attrs)
    ensures RankIncreasing(attrs[1..])
  {
    var tail := attrs[1..];
    forall i, j | 0 <= i < j < |tail| ensures Rank(tail[i]) < Rank(tail[j]) {
      assert tail[i] == attrs[i + 1] && tail[j] == attrs[j + 1];
    }
  }

  lemma ConsRanked(x: Attribute, rest: seq<Attribute>)
    requires RankIncreasing(rest) && forall a :: a in rest ==> Rank(x) < Rank(a)
    ensures RankIncreasing([x] + rest)
  {
    var r := [x] + rest;
    forall i, j | 0 <= i < j < |r| ensures Rank(r[i]) < Rank(r[j]) {
      assert r[j] == rest[j - 1] && rest[j - 1] in rest;
      if i > 0 {
        assert r[i] == rest[i - 1];
      }
    }
  }

  /** A record is reported for an attribute exactly when the columns disagree on it. */
  lemma ColumnDifferencesExact(table: Table, current: Column, target: Column)
    ensures forall a ::
      AttributeDifference(a, table, target, current) in ColumnDifferences(table, current, target)
      <==> Differs(a, current, target)
  {
    forall a ensures AttributeDifference(a, table, target, current) in ColumnDifferences(table, current, target)
      <==> Differs(a, current, target)
    {
      AttributeReported(table, current, target, a);
    }
  }

  /** One attribute: its record is reported exactly when the columns disagree on it. */
  lemma AttributeReported(table: Table, current: Column, target: Column, a: Attribute)
    ensures AttributeDifference(a, table, target, current) in ColumnDifferences(table, current, target)
      <==> Differs(a, current, target)
  {
    var r := ColumnDifferences(table, current, target);
    var d := AttributeDifference(a, table, target, current);
    if Differs(a, current, target) {
      var m := Mismatches(current, target);
      MismatchesMembers(AllAttributes, current, target);
      assert a in AllAttributes;
      assert a in m;
      var k :| 0 <= k < |m| && m[k] == a;
      assert r[k] == d;
    }
  }

  /** The records follow the checking order strictly: at most one per attribute. */
  lemma ColumnDifferencesOrdered(table: Table, current: Column, target: Column)
    ensures var r := ColumnDifferences(table, current, target);
      forall i, j :: 0 <= i < j < |r| ==> Rank(AttributeOf(r[i])) < Rank(AttributeOf(r[j]))
  {
    MismatchesRanked(AllAttributes, current, target);
    ReportedRanked(Mismatches(current, target), table, target, current);
  }

  lemma ReportedRanked(attrs: seq<Attribute>, table: Table, target: Column, current: Column)
    requires RankIncreasing(attrs)
    ensures var r := Reported(attrs, table, target, current);
      forall i, j :: 0 <= i < j < |r| ==> Rank(AttributeOf(r[i])) < Rank(AttributeOf(r[j]))
  {
    var r := Reported(attrs, table, target, current);
    forall i, j | 0 <= i < j < |r| ensures Rank(AttributeOf(r[i])) < Rank(AttributeOf(r[j])) {
      assert AttributeOf(r[i]) == attrs[i] && AttributeOf(r[j]) == attrs[j];
    }
  }

  /** Two same-named columns yield no record exactly when they are equal. */
  lemma ColumnDifferencesEmptyIffEqual(table: Table, current: Column, target: Column)
    requires current.name == target.name
    ensures ColumnDifferences(table, current, target) == [] <==> current == target
  {
    var r := ColumnDifferences(table, current, target);
    ColumnDifferencesExact(table, current, target);
    NoMembersEmpty(r);
    if r == [] {
      assert !Differs(DataType, current, target);
      assert !Differs(DefaultValue, current, target);
      assert !Differs(Nullable, current, target);
      assert !Differs(AutoIncrement, current, target);
    }
  }

  // ---------------------------------------------------------------------
  // Changed columns and keys of one table
  // ---------------------------------------------------------------------

  /** An attribute record is determined by its attribute, table and columns. */
  lemma AttributeRecord(d: Difference)
    requires d.IsColumnAttribute()
    ensures d == AttributeDifference(AttributeOf(d), d.table, d.target, d.current)
  {
  }

  /** Every attribute mismatch of a listed column against its namesake is reported. */
  lemma {:induction false} ChangedColumnsComplete(current: Table, target: Table, cols: seq<Column>)
    ensures forall col, cc, a ::
      col in cols && current.GetColumn(col.name) == Some(cc) && Differs(a, cc, col) ==>
      AttributeDifference(a, target, col, cc) in ChangedColumns(current, target, cols)
  {
    if cols != [] {
      ChangedColumnsComplete(current, target, cols[1..]);
      match current.GetColumn(cols[0].name)
      case None =>
      case Some(c0) =>
        ColumnDifferencesExact(target, c0, cols[0]);
    }
  }

  /** `DifferentKey` is reported for a listed key exactly when its namesake changed. */
  lemma {:induction false} ChangedKeysExact(current: Table, target: Table, keys: seq<Key>)
    ensures forall k, ck ::
      DifferentKey(target, k, ck) in ChangedKeys(current, target, keys)
      <==> k in keys && current.GetKey(k.name) == Some(ck) && KeyChanged(ck, k)
  {
    if keys != [] {
      ChangedKeysExact(current, target, keys[1..]);
      assert keys == [keys[0]] + keys[1..];
    }
  }

  // ---------------------------------------------------------------------
  // One pair of tables
  // ---------------------------------------------------------------------

  /** The engine, missing-column and extra-column records of the column steps. */
  lemma ColumnPartPlain(current: Table, target: Table)
    ensures forall e ::
      DifferentEngine(target, e) in ColumnPart(current, target)
      <==> current.engine != target.engine && e == current.engine
    ensures forall col ::
      MissingColumn(target, col) in ColumnPart(current, target)
      <==> col in target.Columns() && !current.HasColumn(col.name)
    ensures forall col ::
      ExtraColumn(current, col) in ColumnPart(current, target)
      <==> col in current.Columns() && !target.HasColumn(col.name)
  {
    ColumnPartEngine(current, target);
    ColumnPartMissing(current, target);
    ColumnPartExtra(current, target);
  }

  lemma ColumnPartEngine(current: Table, target: Table)
    ensures forall e ::
      DifferentEngine(target, e) in ColumnPart(current, target)
      <==> current.engine != target.engine && e == current.engine
  {
    forall v ensures DifferentEngine(target, v) in ColumnPart(current, target)
      <==> current.engine != target.engine && v == current.engine
    {
      ColumnPartStep(current, target, DifferentEngine(target, v));
    }
  }

  lemma ColumnPartMissing(current: Table, target: Table)
    ensures forall col ::
      MissingColumn(target, col) in ColumnPart(current, target)
      <==> col in target.Columns() && !current.HasColumn(col.name)
  {
    forall col ensures MissingColumn(target, col) in ColumnPart(current, target)
      <==> col in target.Columns() && !current.HasColumn(col.name)
    {
      ColumnPartStep(current, target, MissingColumn(target, col));
    }
  }

  lemma ColumnPartExtra(current: Table, target: Table)
    ensures forall col ::
      ExtraColumn(current, col) in ColumnPart(current, target)
      <==> col in current.Columns() && !target.HasColumn(col.name)
  {
    forall col ensures ExtraColumn(current, col) in ColumnPart(current, target)
      <==> col in current.Columns() && !target.HasColumn(col.name)
    {
      ColumnPartStep(current, target, ExtraColumn(current, col));
    }
  }

  /** A record of the column steps lies in the step of its phase. */
  lemma ColumnPartStep(current: Table, target: Table, d: Difference)
    ensures d in ColumnPart(current, target) <==>
      || (Phase(d) == 0 && d in EngineDifference(current, target))
      || (Phase(d) == 1 && d in MissingColumnDifferences(target, MissingColumns(current, target)))
      || (Phase(d) == 2 && d in ChangedColumns(current, target, target.Columns()))
      || (Phase(d) == 3 && d in ExtraColumnDifferences(current, MissingColumns(target, current)))
  {
    var e := EngineDifference(current, target);
    var m := MissingColumnDifferences(target, MissingColumns(current, target));
    var ch := ChangedColumns(current, target, target.Columns());
    var x := ExtraColumnDifferences(current, MissingColumns(target, current));
    assert ColumnPart(current, target) == e + (m + (ch + x));
    ChangedColumnsPhase(current, target, target.Columns());
    StepOf(e, m, ch, x, d);
  }

  /** In four runs of consecutive phases, a record can only be in the run of its own phase. */
  lemma StepOf(e: seq<Difference>, m: seq<Difference>, ch: seq<Difference>, x: seq<Difference>, d: Difference)
    requires PhasesWithin(e, 0, 0) && PhasesWithin(m, 1, 1) && PhasesWithin(ch, 2, 2) && PhasesWithin(x, 3, 3)
    ensures d in e + (m + (ch + x)) <==>
      || (Phase(d) == 0 && d in e) || (Phase(d) == 1 && d in m)
      || (Phase(d) == 2 && d in ch) || (Phase(d) == 3 && d in x)
  {
  }

  /** The attribute records of the column steps. */
  lemma ColumnPartAttributes(current: Table, target: Table)
    ensures forall d: Difference :: d.IsColumnAttribute() ==>
      (d in ColumnPart(current, target)
       <==> d.table == target && d.target in target.Columns()
            && current.GetColumn(d.target.name) == Some(d.current)
            && Differs(AttributeOf(d), d.current, d.target))
  {
    var changed := ChangedColumns(current, target, target.Columns());
    ChangedColumnsComplete(current, target, target.Columns());
    forall d: Difference | d.IsColumnAttribute()
      ensures d in ColumnPart(current, target) <==> d in changed
    {
    }
    forall d: Difference | d.IsColumnAttribute() && d.table == target && d.target in target.Columns()
      && current.GetColumn(d.target.name) == Some(d.current) && Differs(AttributeOf(d), d.current, d.target)
      ensures d in changed
    {
      AttributeRecord(d);
    }
  }

  /** The records of the key steps, each characterised exactly. */
  lemma KeyPartMembers(current: Table, target: Table)
    ensures forall k ::
      MissingKey(target, k) in KeyPart(current, target)
      <==> k in target.Keys() && !current.HasKey(k.name)
    ensures forall k, ck ::
      DifferentKey(target, k, ck) in KeyPart(current, target)
      <==> k in target.Keys() && current.GetKey(k.name) == Some(ck) && KeyChanged(ck, k)
    ensures forall k ::
      ExtraKey(current, k) in KeyPart(current, target)
      <==> k in current.Keys() && !target.HasKey(k.name)
  {
    ChangedKeysExact(current, target, target.Keys());
  }

  /**
   * `getTableDifferences` reports the engine of `current` exactly when the
   * engines differ, and exactly the target columns `current` lacks and the
   * current columns the target lacks.
   */
  lemma TableDifferencesColumns(current: Table, target: Table)
    ensures forall e ::
      DifferentEngine(target, e) in TableDifferences(current, target)
      <==> current.engine != target.engine && e == current.engine
    ensures forall col ::
      MissingColumn(target, col) in TableDifferences(current, target)
      <==> col in target.Columns() && !current.HasColumn(col.name)
    ensures forall col ::
      ExtraColumn(current, col) in TableDifferences(current, target)
      <==> col in current.Columns() && !target.HasColumn(col.name)
  {
    ColumnPartPlain(current, target);
    ColumnRecordsFirst(ColumnPart(current, target), KeyPart(current, target), current, target);
  }

  /** Engine and plain column records of a concatenation come from its column part. */
  lemma ColumnRecordsFirst(cp: seq<Difference>, kp: seq<Difference>, current: Table, target: Table)
    requires PhasesWithin(kp, 4, 6)
    ensures forall v :: DifferentEngine(target, v) in cp + kp <==> DifferentEngine(target, v) in cp
    ensures forall col :: MissingColumn(target, col) in cp + kp <==> MissingColumn(target, col) in cp
    ensures forall col :: ExtraColumn(current, col) in cp + kp <==> ExtraColumn(current, col) in cp
  {
  }

  /**
   * `getTableDifferences` reports an attribute record exactly for a target
   * column whose namesake in `current` disagrees on that attribute.
   */
  lemma TableDifferencesAttributes(current: Table, target: Table)
    ensures forall d: Difference :: d.IsColumnAttribute() ==>
      (d in TableDifferences(current, target)
       <==> d.table == target && d.target in target.Columns()
            && current.GetColumn(d.target.name) == Some(d.current)
            && Differs(AttributeOf(d), d.current, d.target))
  {
    ColumnPartAttributes(current, target);
  }

  /**
   * `getTableDifferences` reports exactly the target keys `current` lacks,
   * the same-named keys whose type or column sequence changed, and the
   * current keys the target lacks.
   */
  lemma TableDifferencesKeys(current: Table, target: Table)
    ensures forall k ::
      MissingKey(target, k) in TableDifferences(current, target)
      <==> k in target.Keys() && !current.HasKey(k.name)
    ensures forall k, ck ::
      DifferentKey(target, k, ck) in TableDifferences(current, target)
      <==> k in target.Keys() && current.GetKey(k.name) == Some(ck) && KeyChanged(ck, k)
    ensures forall k ::
      ExtraKey(current, k) in TableDifferences(current, target)
      <==> k in current.Keys() && !target.HasKey(k.name)
  {
    KeyPartMembers(current, target);
    KeyRecordsLast(ColumnPart(current, target), KeyPart(current, target), current, target);
  }

  /** Key records of a concatenation come from its key part. */
  lemma KeyRecordsLast(cp: seq<Difference>, kp: seq<Difference>, current: Table, target: Table)
    requires PhasesWithin(cp, 0, 3)
    ensures forall k :: MissingKey(target, k) in cp + kp <==> MissingKey(target, k) in kp
    ensures forall k, ck :: DifferentKey(target, k, ck) in cp + kp <==> DifferentKey(target, k, ck) in kp
    ensures forall k :: ExtraKey(current, k) in cp + kp <==> ExtraKey(current, k) in kp
  {
  }

  /** Every record of a table comparison is about one of the two tables. */
  lemma TableDifferencesAbout(current: Table, target: Table)
    ensures forall d :: d in TableDifferences(current, target) ==> d.table == current || d.table == target
  {
  }

  /** A valid table compared with itself yields nothing. */
  lemma TableDifferencesReflexive(t: Table)
    requires t.Valid()
    ensures TableDifferences(t, t) == []
  {
    ColumnPartSelf(t);
    KeyPartSelf(t);
  }

  lemma ColumnPartSelf(t: Table)
    requires t.Valid()
    ensures ColumnPart(t, t) == []
  {
    TableNamed(t);
    var missing := MissingColumns(t, t);
    var changed := ChangedColumns(t, t, t.Columns());
    NoMembersEmpty(missing);
    forall d | d in changed ensures false {
    }
    NoMembersEmpty(changed);
  }

  lemma KeyPartSelf(t: Table)
    requires t.Valid()
    ensures KeyPart(t, t) == []
  {
    TableNamed(t);
    var missing := MissingKeys(t, t);
    var changed := ChangedKeys(t, t, t.Keys());
    NoMembersEmpty(missing);
    forall d | d in changed ensures false {
    }
    NoMembersEmpty(changed);
  }

  // ---------------------------------------------------------------------
  // Whole schemas
  // ---------------------------------------------------------------------

  /** Every record about one target table names that table. */
  lemma TableEntryNamed(t: Table, current: Schema)
    requires current.Valid()
    ensures forall d :: d in TableEntry(t, current) ==> d.table.name == t.name
  {
    match current.GetTable(t.name)
    case None =>
    case Some(ct) => TableDifferencesAbout(ct, t);
  }

  /** Every target-driven record names one of the walked tables. */
  lemma {:induction false} TargetDrivenFrom(tables: seq<Table>, current: Schema)
    requires current.Valid()
    ensures forall d :: d in TargetDriven(tables, current) ==> exists t :: t in tables && t.name == d.table.name
  {
    if tables != [] {
      TableEntryNamed(tables[0], current);
      TargetDrivenFrom(tables[1..], current);
      forall d | d in TargetDriven(tables, current) ensures exists t :: t in tables && t.name == d.table.name {
        if d in TableEntry(tables[0], current) {
          assert tables[0] in tables;
        } else {
          var t :| t in tables[1..] && t.name == d.table.name;
          assert t in tables;
        }
      }
    }
  }

  /** Walking tables that `s` holds against `s` itself yields nothing. */
  lemma {:induction false} TargetDrivenReflexive(tables: seq<Table>, s: Schema)
    requires s.Valid()
    requires forall t :: t in tables ==> t in s.Tables()
    ensures TargetDriven(tables, s) == []
  {
    if tables != [] {
      SchemaNamed(s);
      assert tables[0] in tables;
      TableDifferencesReflexive(tables[0]);
      TargetDrivenReflexive(tables[1..], s);
    }
  }

  /** Comparing a valid schema with itself, under any ignore list, yields nothing. */
  lemma GetDifferencesReflexive(c: Comparator, s: Schema)
    requires s.Valid()
    ensures GetDifferences(c, s, s) == []
  {
    SchemaNamed(s);
    TargetDrivenReflexive(GetTables(c, s), s);
    NoMembersEmpty(ExtraTables(GetTables(c, s), s));
  }

  /** The target-driven walk reports a missing table exactly for the walked tables `current` lacks. */
  lemma {:induction false} TargetDrivenMissing(tables: seq<Table>, current: Schema)
    ensures forall t :: MissingTable(t) in TargetDriven(tables, current) <==> t in tables && !current.HasTable(t.name)
  {
    if tables != [] {
      TargetDrivenMissing(tables[1..], current);
      assert tables == [tables[0]] + tables[1..];
    }
  }

  /**
   * A `MissingTable` record is reported exactly for each target table that
   * is not ignored and that `current` lacks.
   */
  lemma MissingTablesExact(c: Comparator, current: Schema, target: Schema)
    ensures forall t ::
      MissingTable(t) in GetDifferences(c, current, target) <==> t in target.Tables() && t.name !in c.ignoreTables && !current.HasTable(t.name)
  {
    TargetDrivenMissing(GetTables(c, target), current);
  }

  /**
   * An `ExtraTable` record is reported exactly for each current table that
   * is not ignored and that the target lacks.
   */
  lemma ExtraTablesExact(c: Comparator, current: Schema, target: Schema)
    ensures forall t ::
      ExtraTable(t) in GetDifferences(c, current, target) <==> t in current.Tables() && t.name !in c.ignoreTables && !target.HasTable(t.name)
  {
  }

  /** No record is about an ignored table. */
  lemma GetDifferencesNotIgnored(c: Comparator, current: Schema, target: Schema)
    requires current.Valid() && target.Valid()
    ensures forall d :: d in GetDifferences(c, current, target) ==> d.table.name !in c.ignoreTables
  {
    var a := TargetDriven(GetTables(c, target), current);
    TargetDrivenFrom(GetTables(c, target), current);
    forall d | d in a ensures d.table.name !in c.ignoreTables {
      var t :| t in GetTables(c, target) && t.name == d.table.name;
    }
  }

  /**
   * With a comparator built from a prefix and a list of names, no record is
   * about a table called prefix + name for a listed name.
   */
  lemma NewComparatorNotIgnored(prefix: string, names: seq<string>, current: Schema, target: Schema)
    requires current.Valid() && target.Valid()
    ensures forall d, n ::
      d in GetDifferences(NewComparator(prefix, Some(names)), current, target) && n in names ==>
      d.table.name != prefix + n
  {
    var c := NewComparator(prefix, Some(names));
    GetDifferencesNotIgnored(c, current, target);
    forall n | n in names ensures prefix + n in c.ignoreTables {
      var i :| 0 <= i < |names| && names[i] == n;
      assert c.ignoreTables[i] == prefix + n;
    }
  }

  /**
   * The ignore list built from a prefix and names holds exactly the prefixed
   * names; since prefixing is injective, prefix + n is ignored exactly when
   * n is listed.
   */
  lemma NewComparatorIgnores(prefix: string, names: seq<string>, n: string)
    ensures n in NewComparator(prefix, Some(names)).ignoreTables <==> exists t :: t in names && n == prefix + t
    ensures prefix + n in NewComparator(prefix, Some(names)).ignoreTables <==> n in names
  {
    var c := NewComparator(prefix, Some(names));
    if n in c.ignoreTables {
      var i :| 0 <= i < |c.ignoreTables| && c.ignoreTables[i] == n;
      assert names[i] in names;
    }
    if prefix + n in c.ignoreTables {
      var i :| 0 <= i < |c.ignoreTables| && c.ignoreTables[i] == prefix + n;
      assert (prefix + names[i])[|prefix|..] == names[i];
      assert (prefix + n)[|prefix|..] == n;
    }
    if n in names {
      var i :| 0 <= i < |names| && names[i] == n;
      assert c.ignoreTables[i] == prefix + n;
    }
  }

  /** The name of the table a record is about. */
  function RecordTableName(d: Difference): string {
    d.table.name
  }

  /** Walking tables in name order yields records in name order. */
  lemma {:induction false} TargetDrivenSorted(tables: seq<Table>, current: Schema)
    requires current.Valid()
    requires SortedBy(tables, TableName)
    ensures SortedBy(TargetDriven(tables, current), RecordTableName)
  {
    if tables != [] {
      TailSorted(tables, TableName);
      TargetDrivenSorted(tables[1..], current);
      TableEntryNamed(tables[0], current);
      var e := TableEntry(tables[0], current);
      var rest := TargetDriven(tables[1..], current);
      forall k | 0 <= k < |tables[1..]| ensures StrLe(tables[0].name, tables[1..][k].name) {
        assert StrLe(TableName(tables[0]), TableName(tables[k + 1]));
      }
      TargetDrivenAtLeast(tables[1..], current, tables[0].name);
      SameNameThenSorted(e, rest, tables[0].name);
    }
  }

  /** Walking tables whose names are all at least `name` yields records about such tables only. */
  lemma {:induction false} TargetDrivenAtLeast(tables: seq<Table>, current: Schema, name: string)
    requires current.Valid()
    requires forall k :: 0 <= k < |tables| ==> StrLe(name, tables[k].name)
    ensures forall d :: d in TargetDriven(tables, current) ==> StrLe(name, d.table.name)
  {
    if tables != [] {
      TableEntryNamed(tables[0], current);
      TargetDrivenAtLeast(tables[1..], current, name);
      assert TargetDriven(tables, current) == TableEntry(tables[0], current) + TargetDriven(tables[1..], current);
    }
  }

  lemma SameNameThenSorted(e: seq<Difference>, rest: seq<Difference>, name: string)
    requires forall d :: d in e ==> d.table.name == name
    requires forall d :: d in rest ==> StrLe(name, d.table.name)
    requires SortedBy(rest, RecordTableName)
    ensures SortedBy(e + rest, RecordTableName)
  {
    var r := e + rest;
    forall i, j | 0 <= i < j < |r| ensures StrLe(RecordTableName(r[i]), RecordTableName(r[j])) {
      if j < |e| {
        assert r[i] == e[i] && r[j] == e[j];
        assert e[i] in e && e[j] in e;
      } else if i < |e| {
        assert r[i] == e[i] && e[i] in e;
        assert r[j] == rest[j - |e|] && rest[j - |e|] in rest;
      } else {
        assert r[i] == rest[i - |e|] && r[j] == rest[j - |e|];
      }
    }
  }

  /** Extra-table records of strictly name-ordered tables are strictly name-ordered. */
  lemma {:induction false} ExtraTablesSorted(tables: seq<Table>, target: Schema)
    requires StrictlySortedBy(tables, TableName)
    ensures StrictlySortedBy(ExtraTables(tables, target), RecordTableName)
  {
    if tables != [] {
      TailSorted(tables, TableName);
      ExtraTablesSorted(tables[1..], target);
      var rest := ExtraTables(tables[1..], target);
      if !target.HasTable(tables[0].name) {
        var head := ExtraTable(tables[0]);
        forall z | z in rest ensures StrLess(RecordTableName(head), RecordTableName(z)) {
          var k :| 0 <= k < |tables[1..]| && tables[1..][k] == z.table;
          assert tables[k + 1] == z.table;
        }
        ConsStrictlySorted(head, rest, RecordTableName);
      }
    }
  }

  /**
   * Records follow table names: each record other than an extra table is
   * preceded only by records about tables whose names are not greater
   * (`strcmp` order), and the extra tables come in strictly ascending name
   * order.
   */
  lemma GetDifferencesOrdered(c: Comparator, current: Schema, target: Schema)
    requires current.Valid() && target.Valid()
    ensures var r := GetDifferences(c, current, target);
      forall i, j :: 0 <= i < j < |r| && !r[j].ExtraTable? ==> StrLe(r[i].table.name, r[j].table.name)
    ensures var r := GetDifferences(c, current, target);
      forall i, j :: 0 <= i < j < |r| && r[i].ExtraTable? ==> StrLess(r[i].table.name, r[j].table.name)
  {
    SchemaNamed(current);
    SchemaNamed(target);
    var a := TargetDriven(GetTables(c, target), current);
    var b := ExtraTables(GetTables(c, current), target);
    TargetDrivenSorted(GetTables(c, target), current);
    ExtraTablesSorted(GetTables(c, current), target);
    forall d | d in a ensures !d.ExtraTable? {
    }
    forall d | d in b ensures d.ExtraTable? {
    }
    assert GetDifferences(c, current, target) == a + b;
    TwoRunsOrdered(a, b);
  }

  /** Name-ordered records other than extra tables, then strictly name-ordered extra tables. */
  lemma TwoRunsOrdered(a: seq<Difference>, b: seq<Difference>)
    requires SortedBy(a, RecordTableName) && StrictlySortedBy(b, RecordTableName)
    requires forall d :: d in a ==> !d.ExtraTable?
    requires forall d :: d in b ==> d.ExtraTable?
    ensures var r := a + b;
      forall i, j :: 0 <= i < j < |r| && !r[j].ExtraTable? ==> StrLe(r[i].table.name, r[j].table.name)
    ensures var r := a + b;
      forall i, j :: 0 <= i < j < |r| && r[i].ExtraTable? ==> StrLess(r[i].table.name, r[j].table.name)
  {
    var r := a + b;
    forall k | 0 <= k < |a| ensures r[k] == a[k] && !r[k].ExtraTable? {
      assert a[k] in a;
    }
    forall k | |a| <= k < |r| ensures r[k] == b[k - |a|] && r[k].ExtraTable? {
      assert b[k - |a|] in b;
    }
    forall i, j | 0 <= i < j < |r| && !r[j].ExtraTable? ensures StrLe(r[i].table.name, r[j].table.name) {
      assert j < |a|;
      assert StrLe(RecordTableName(a[i]), RecordTableName(a[j]));
    }
    forall i, j | 0 <= i < j < |r| && r[i].ExtraTable? ensures StrLess(r[i].table.name, r[j].table.name) {
      assert i >= |a|;
      assert StrLess(RecordTableName(b[i - |a|]), RecordTableName(b[j - |a|]));
    }
  }

  // ---------------------------------------------------------------------
  // Independence from insertion order
  // ---------------------------------------------------------------------

  /** The filtered, sorted tables depend only on which tables a schema holds. */
  lemma GetTablesOrderIndependent(c: Comparator, s: Schema, s2: Schema)
    requires s.Valid() && s2.Valid() && s.tables.entries == s2.tables.entries
    ensures GetTables(c, s) == GetTables(c, s2)
  {
    SchemaNamed(s);
    SchemaNamed(s2);
    forall t ensures t in GetTables(c, s) <==> t in GetTables(c, s2) {
      TablesContents(s, t);
      TablesContents(s2, t);
    }
    StrictlySortedUnique(GetTables(c, s), GetTables(c, s2), TableName);
  }

  lemma {:induction false} TargetDrivenCongruent(tables: seq<Table>, current: Schema, current2: Schema)
    requires current.tables.entries == current2.tables.entries
    ensures TargetDriven(tables, current) == TargetDriven(tables, current2)
  {
    if tables != [] {
      TargetDrivenCongruent(tables[1..], current, current2);
      assert current.GetTable(tables[0].name) == current2.GetTable(tables[0].name);
    }
  }

  lemma {:induction false} ExtraTablesCongruent(tables: seq<Table>, target: Schema, target2: Schema)
    requires target.tables.entries == target2.tables.entries
    ensures ExtraTables(tables, target) == ExtraTables(tables, target2)
  {
    if tables != [] {
      ExtraTablesCongruent(tables[1..], target, target2);
    }
  }

  /**
   * The differences depend only on which tables the schemas hold, not on
   * the order in which the tables were added.
   */
  lemma GetDifferencesOrderIndependent(c: Comparator, current: Schema, current2: Schema, target: Schema, target2: Schema)
    requires current.Valid() && current2.Valid() && current.tables.entries == current2.tables.entries
    requires target.Valid() && target2.Valid() && target.tables.entries == target2.tables.entries
    ensures GetDifferences(c, current, target) == GetDifferences(c, current2, target2)
  {
    GetTablesOrderIndependent(c, current, current2);
    GetTablesOrderIndependent(c, target, target2);
    TargetDrivenCongruent(GetTables(c, target), current, current2);
    ExtraTablesCongruent(GetTables(c, current), target, target2);
  }
}
