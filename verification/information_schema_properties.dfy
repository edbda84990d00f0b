/**
 * What the catalog folds promise: the tables are those of the table rows,
 * a column comes from the first row that names it, each constraint becomes
 * a key with the type of its first row and the columns of all its rows in
 * row order, and index statistics only build plain keys.
 */
module InformationSchemaProperties {
  import opened Wrappers
  import opened Seqs
  import opened TableSchema
  import opened DatabaseSchema
  import opened InformationSchemaBuilder

  // ---------------------------------------------------------------------
  // Tables
  // ---------------------------------------------------------------------

  /** Some table row names `n`. */
  predicate NamesTable(rows: seq<TableRow>, n: string) {
    exists i :: 0 <= i < |rows| && rows[i].name == n
  }

  /** The schema has a table exactly for each name it had or a row names. */
  lemma {:induction false} AddTablesHas(s: Schema, rows: seq<TableRow>, n: string)
    ensures AddTables(s, rows).HasTable(n) <==> s.HasTable(n) || NamesTable(rows, n)
    decreases |rows|
  {
    if rows != [] {
      var s1 := s.AddTable(TableOf(rows[0]));
      assert s1.HasTable(n) <==> s.HasTable(n) || rows[0].name == n by {
        if n != rows[0].name {
          assert s1.GetTable(n) == s.GetTable(n);
        }
      }
      AddTablesHas(s1, rows[1..], n);
      if NamesTable(rows, n) && rows[0].name != n {
        var i :| 0 <= i < |rows| && rows[i].name == n;
        assert rows[1..][i - 1].name == n;
      }
      if NamesTable(rows[1..], n) {
        var i :| 0 <= i < |rows[1..]| && rows[1..][i].name == n;
        assert rows[i + 1].name == n;
      }
    }
  }

  /** Rows that do not name `n` leave the table `n` as it was. */
  lemma {:induction false} AddTablesUntouched(s: Schema, rows: seq<TableRow>, n: string)
    requires forall j :: 0 <= j < |rows| ==> rows[j].name != n
    ensures AddTables(s, rows).GetTable(n) == s.GetTable(n)
    decreases |rows|
  {
    if rows != [] {
      var s1 := s.AddTable(TableOf(rows[0]));
      assert s1.GetTable(n) == s.GetTable(n);
      AddTablesUntouched(s1, rows[1..], n);
    }
  }

  /** A table is the one the last row of its name describes: empty, with that row's engine. */
  lemma {:induction false} AddTablesLastWins(s: Schema, rows: seq<TableRow>, i: nat)
    requires i < |rows|
    requires forall j :: i < j < |rows| ==> rows[j].name != rows[i].name
    ensures AddTables(s, rows).GetTable(rows[i].name) == Some(TableOf(rows[i]))
    decreases |rows|
  {
    var s1 := s.AddTable(TableOf(rows[0]));
    if i == 0 {
      AddTablesUntouched(s1, rows[1..], rows[0].name);
    } else {
      AddTablesLastWins(s1, rows[1..], i - 1);
    }
  }

  // ---------------------------------------------------------------------
  // Columns
  // ---------------------------------------------------------------------

  /** Only a row naming a table the schema does not have makes the column fold fail. */
  lemma {:induction false} AddColumnsFails(s: Schema, rows: seq<ColumnRow>)
    ensures AddColumns(s, rows).Failure? <==> exists i :: 0 <= i < |rows| && !s.HasTable(rows[i].table)
    ensures AddColumns(s, rows).Success? ==> SameTables(s, AddColumns(s, rows).value)
    decreases |rows|
  {
    if rows != [] && s.HasTable(rows[0].table) {
      var s1 := AddColumnIn(s, rows[0].table, ColumnOf(rows[0]));
      AddColumnInSameTables(s, rows[0].table, ColumnOf(rows[0]));
      AddColumnsFails(s1, rows[1..]);
      if exists i :: 0 <= i < |rows| && !s.HasTable(rows[i].table) {
        var i :| 0 <= i < |rows| && !s.HasTable(rows[i].table);
        assert !s1.HasTable(rows[1..][i - 1].table);
      }
      if exists i :: 0 <= i < |rows[1..]| && !s1.HasTable(rows[1..][i].table) {
        var i :| 0 <= i < |rows[1..]| && !s1.HasTable(rows[1..][i].table);
        assert !s.HasTable(rows[i + 1].table);
      }
    }
  }

  /** The column fold never removes or changes a column already there. */
  lemma {:induction false} AddColumnsGrows(s: Schema, rows: seq<ColumnRow>)
    requires AddColumns(s, rows).Success?
    ensures Grows(s, AddColumns(s, rows).value)
    decreases |rows|
  {
    if rows != [] {
      var s1 := AddColumnIn(s, rows[0].table, ColumnOf(rows[0]));
      AddColumnInGrows(s, rows[0].table, ColumnOf(rows[0]));
      AddColumnsGrows(s1, rows[1..]);
      GrowsTrans(s, s1, AddColumns(s, rows).value);
    }
  }

  /**
   * A column is the one the first row naming it describes: a later row for
   * the same table and column is ignored.
   */
  lemma {:induction false} AddColumnsFirstWins(s: Schema, rows: seq<ColumnRow>, i: nat)
    requires AddColumns(s, rows).Success? && i < |rows|
    requires !(s.HasTable(rows[i].table) && s.tables.entries[rows[i].table].HasColumn(rows[i].column))
    requires forall j :: 0 <= j < i ==> !(rows[j].table == rows[i].table && rows[j].column == rows[i].column)
    ensures HoldsColumn(AddColumns(s, rows).value, rows[i].table, ColumnOf(rows[i]))
    decreases |rows|
  {
    var s1 := AddColumnIn(s, rows[0].table, ColumnOf(rows[0]));
    var t := rows[i].table;
    if i == 0 {
      assert HoldsColumn(s1, t, ColumnOf(rows[0]));
      AddColumnsGrows(s1, rows[1..]);
      GrowsHolds(s1, AddColumns(s, rows).value, t, ColumnOf(rows[0]));
    } else {
      if rows[0].table == t {
        assert s1.tables.entries[t].GetColumn(rows[i].column) == s.tables.entries[t].GetColumn(rows[i].column);
      } else {
        assert s1.GetTable(t) == s.GetTable(t);
      }
      assert rows[1..][i - 1] == rows[i];
      AddColumnsFirstWins(s1, rows[1..], i - 1);
    }
  }

  /** The column fold leaves every table's name, engine and keys as they were. */
  lemma {:induction false} AddColumnsKeepsKeys(s: Schema, rows: seq<ColumnRow>, n: string)
    requires AddColumns(s, rows).Success? && s.HasTable(n)
    ensures AddColumns(s, rows).value.HasTable(n)
    ensures AddColumns(s, rows).value.tables.entries[n].keys == s.tables.entries[n].keys
    decreases |rows|
  {
    if rows != [] {
      var s1 := AddColumnIn(s, rows[0].table, ColumnOf(rows[0]));
      if rows[0].table != n {
        assert s1.GetTable(n) == s.GetTable(n);
      }
      AddColumnsKeepsKeys(s1, rows[1..], n);
    }
  }

  // ---------------------------------------------------------------------
  // Constraints
  // ---------------------------------------------------------------------

  /** The column a row contributes to constraint `name` of `table`, if it is one of its rows. */
  function ConstraintHead(row: ConstraintRow, table: string, name: string): seq<string> {
    if row.table == table && row.constraint == name then [row.column] else []
  }

  /** The fold is the first row followed by the fold of the rest. */
  lemma ConstraintStep(s: Schema, rows: seq<ConstraintRow>)
    requires rows != [] && AddConstraints(s, rows).Success?
    ensures AddConstraintRow(s, rows[0]).Success?
    ensures AddConstraints(AddConstraintRow(s, rows[0]).value, rows[1..]) == AddConstraints(s, rows)
  {
  }

  /** The columns of the rows of constraint `name` of `table`, in row order. */
  function ConstraintColumns(rows: seq<ConstraintRow>, table: string, name: string): (r: seq<string>)
    decreases |rows|
  {
    if rows == [] then [] else ConstraintHead(rows[0], table, name) + ConstraintColumns(rows[1..], table, name)
  }

  /** Whether table `t` of `s` holds key `k` under its name. */
  ghost predicate HoldsKey(s: Schema, t: string, k: Key) {
    s.HasTable(t) && s.tables.entries[t].GetKey(k.name) == Some(k)
  }

  /** One constraint row extends the key it names and leaves every other key as it was. */
  lemma ConstraintRowExtends(s: Schema, row: ConstraintRow, t: string, k: Key)
    requires s.Valid() && AddConstraintRow(s, row).Success? && HoldsKey(s, t, k)
    ensures HoldsKey(AddConstraintRow(s, row).value, t, Key(k.kind, k.name, k.columns + ConstraintHead(row, t, k.name)))
  {
    var r := AddConstraintRow(s, row).value;
    var head := ConstraintHead(row, t, k.name);
    if row.table == t && row.constraint == k.name {
      ConstraintRowSame(s, row, k);
      assert k.AddColumn(row.column) == Key(k.kind, k.name, k.columns + head);
    } else {
      ConstraintRowOther(s, row, t, k.name);
      assert head == [];
      AppendEmpty(k.columns);
    }
  }

  /** A row of a key the table holds appends its column to that key. */
  lemma ConstraintRowSame(s: Schema, row: ConstraintRow, k: Key)
    requires s.Valid() && AddConstraintRow(s, row).Success? && HoldsKey(s, row.table, k) && k.name == row.constraint
    ensures HoldsKey(AddConstraintRow(s, row).value, row.table, k.AddColumn(row.column))
  {
    var added := ConstraintRowKey(s, row);
    assert s.tables.entries[row.table].AddKey(added).GetKey(k.name) == Some(added);
  }

  /** The key a successful constraint row puts in its table: the prior one extended, or a new one. */
  lemma ConstraintRowKey(s: Schema, row: ConstraintRow) returns (added: Key)
    requires s.Valid() && AddConstraintRow(s, row).Success?
    ensures s.HasTable(row.table) && added.name == row.constraint
    ensures AddConstraintRow(s, row).value.GetTable(row.table) == Some(s.tables.entries[row.table].AddKey(added))
    ensures s.tables.entries[row.table].HasKey(row.constraint) ==>
      added == s.tables.entries[row.table].GetKey(row.constraint).value.AddColumn(row.column)
  {
    var prior := s.tables.entries[row.table].GetKey(row.constraint);
    match prior {
      case Some(p) =>
        added := p.AddColumn(row.column);
      case None =>
        added := Key(GetKeyType(row.constraintType).value, row.constraint, [row.column]);
    }
  }


  /** A row of another key leaves key `name` of table `t` as it was. */
  lemma ConstraintRowOther(s: Schema, row: ConstraintRow, t: string, name: string)
    requires s.Valid() && AddConstraintRow(s, row).Success? && s.HasTable(t)
    requires !(row.table == t && row.constraint == name)
    ensures AddConstraintRow(s, row).value.HasTable(t)
    ensures AddConstraintRow(s, row).value.tables.entries[t].GetKey(name) == s.tables.entries[t].GetKey(name)
  {
    var s1 := AddConstraintRow(s, row).value;
    if row.table == t {
      var prior := s.tables.entries[t].GetKey(row.constraint);
      assert prior.Some? ==> prior.value.name == row.constraint;
    } else {
      assert s1.GetTable(t) == s.GetTable(t);
    }
  }

  /** The first row of a constraint the table lacks creates its key from the row's type and column. */
  lemma ConstraintRowCreates(s: Schema, row: ConstraintRow)
    requires s.Valid() && AddConstraintRow(s, row).Success?
    requires s.HasTable(row.table) && !s.tables.entries[row.table].HasKey(row.constraint)
    ensures GetKeyType(row.constraintType).Success?
    ensures HoldsKey(AddConstraintRow(s, row).value, row.table,
      Key(GetKeyType(row.constraintType).value, row.constraint, [row.column]))
  {
  }

  /** A row leaves the set of tables as it was. */
  lemma ConstraintRowSameTables(s: Schema, row: ConstraintRow)
    requires AddConstraintRow(s, row).Success?
    ensures SameTables(s, AddConstraintRow(s, row).value)
  {
    match s.tables.entries[row.table].GetKey(row.constraint)
    case Some(k) => AddKeyInSameTables(s, row.table, k.AddColumn(row.column));
    case None => AddKeyInSameTables(s, row.table, Key(GetKeyType(row.constraintType).value, row.constraint, [row.column]));
  }

  /** A key already there gains the columns of its rows, in row order. */
  lemma {:induction false} ConstraintsExtend(s: Schema, rows: seq<ConstraintRow>, t: string, k: Key)
    requires s.Valid() && AddConstraints(s, rows).Success? && HoldsKey(s, t, k)
    ensures HoldsKey(AddConstraints(s, rows).value, t, Key(k.kind, k.name, k.columns + ConstraintColumns(rows, t, k.name)))
    decreases |rows|
  {
    if rows == [] {
      AppendEmpty(k.columns);
    } else {
      ConstraintStep(s, rows);
      var s1 := AddConstraintRow(s, rows[0]).value;
      var head := ConstraintHead(rows[0], t, k.name);
      ConstraintRowExtends(s, rows[0], t, k);
      ConstraintsExtend(s1, rows[1..], t, Key(k.kind, k.name, k.columns + head));
      var rest := ConstraintColumns(rows[1..], t, k.name);
      AppendAssoc(k.columns, head, rest);
    }
  }

  /** Before the first row of a constraint, the rows are those of the tail, one place earlier. */
  lemma ConstraintTail(rows: seq<ConstraintRow>, t: string, name: string, i: nat)
    requires 0 < i < |rows| && rows[i].table == t && rows[i].constraint == name
    requires forall j :: 0 <= j < i ==> !(rows[j].table == t && rows[j].constraint == name)
    ensures rows[1..][i - 1] == rows[i]
    ensures forall j :: 0 <= j < i - 1 ==> !(rows[1..][j].table == t && rows[1..][j].constraint == name)
    ensures ConstraintColumns(rows, t, name) == ConstraintColumns(rows[1..], t, name)
  {
    assert !(rows[0].table == t && rows[0].constraint == name);
  }

  /**
   * A constraint the table does not have yet becomes a key with the type
   * of its first row and the columns of all its rows, in row order.
   */
  lemma {:induction false} ConstraintsCreate(s: Schema, rows: seq<ConstraintRow>, t: string, name: string, i: nat)
    requires s.Valid() && AddConstraints(s, rows).Success?
    requires s.HasTable(t) && !s.tables.entries[t].HasKey(name)
    requires i < |rows| && rows[i].table == t && rows[i].constraint == name
    requires forall j :: 0 <= j < i ==> !(rows[j].table == t && rows[j].constraint == name)
    ensures GetKeyType(rows[i].constraintType).Success?
    ensures HoldsKey(AddConstraints(s, rows).value, t,
      Key(GetKeyType(rows[i].constraintType).value, name, ConstraintColumns(rows, t, name)))
    decreases |rows|
  {
    if i == 0 {
      ConstraintsCreateFirst(s, rows);
    } else {
      ConstraintStep(s, rows);
      var s1 := AddConstraintRow(s, rows[0]).value;
      var tail := rows[1..];
      ConstraintRowOther(s, rows[0], t, name);
      ConstraintTail(rows, t, name, i);
      ConstraintsCreate(s1, tail, t, name, i - 1);
      assert AddConstraints(s, rows).value == AddConstraints(s1, tail).value;
      assert tail[i - 1] == rows[i];
    }
  }

  /** The case of `ConstraintsCreate` where the first row is the constraint's first row. */
  lemma ConstraintsCreateFirst(s: Schema, rows: seq<ConstraintRow>)
    requires s.Valid() && rows != [] && AddConstraints(s, rows).Success?
    requires s.HasTable(rows[0].table) && !s.tables.entries[rows[0].table].HasKey(rows[0].constraint)
    ensures GetKeyType(rows[0].constraintType).Success?
    ensures HoldsKey(AddConstraints(s, rows).value, rows[0].table,
      Key(GetKeyType(rows[0].constraintType).value, rows[0].constraint,
          ConstraintColumns(rows, rows[0].table, rows[0].constraint)))
  {
    var row := rows[0];
    ConstraintStep(s, rows);
    ConstraintRowCreates(s, row);
    var k := Key(GetKeyType(row.constraintType).value, row.constraint, [row.column]);
    ConstraintsExtend(AddConstraintRow(s, row).value, rows[1..], row.table, k);
    assert ConstraintColumns(rows, row.table, row.constraint)
        == [row.column] + ConstraintColumns(rows[1..], row.table, row.constraint);
  }

  /** A constraint with no rows does not appear. */
  lemma {:induction false} ConstraintsUntouched(s: Schema, rows: seq<ConstraintRow>, t: string, name: string)
    requires s.Valid() && AddConstraints(s, rows).Success? && s.HasTable(t) && !s.tables.entries[t].HasKey(name)
    requires forall j :: 0 <= j < |rows| ==> !(rows[j].table == t && rows[j].constraint == name)
    ensures AddConstraints(s, rows).value.HasTable(t)
    ensures !AddConstraints(s, rows).value.tables.entries[t].HasKey(name)
    decreases |rows|
  {
    if rows != [] {
      ConstraintStep(s, rows);
      var s1 := AddConstraintRow(s, rows[0]).value;
      ConstraintRowOther(s, rows[0], t, name);
      ConstraintsUntouched(s1, rows[1..], t, name);
    }
  }

  /** The constraint fold never adds or removes a table. */
  lemma {:induction false} ConstraintsKeepTables(s: Schema, rows: seq<ConstraintRow>)
    requires AddConstraints(s, rows).Success?
    ensures SameTables(s, AddConstraints(s, rows).value)
    decreases |rows|
  {
    if rows != [] {
      var row := rows[0];
      ConstraintStep(s, rows);
      var s1 := AddConstraintRow(s, row).value;
      ConstraintRowSameTables(s, row);
      ConstraintsKeepTables(s1, rows[1..]);
    }
  }

  /** A constraint fold that succeeds found the table of every row. */
  lemma {:induction false} ConstraintFoldHasTable(s: Schema, rows: seq<ConstraintRow>, i: nat)
    requires AddConstraints(s, rows).Success? && i < |rows|
    ensures s.HasTable(rows[i].table)
    decreases |rows|
  {
    ConstraintStep(s, rows);
    var s1 := AddConstraintRow(s, rows[0]).value;
    if i > 0 {
      ConstraintFoldHasTable(s1, rows[1..], i - 1);
      assert rows[1..][i - 1] == rows[i];
      ConstraintRowSameTables(s, rows[0]);
    }
  }

  /** When every row names a known table and a known constraint type, the fold succeeds and keeps the tables. */
  lemma {:induction false} ConstraintsSucceed(s: Schema, rows: seq<ConstraintRow>)
    requires forall j :: 0 <= j < |rows| ==> s.HasTable(rows[j].table) && GetKeyType(rows[j].constraintType).Success?
    ensures AddConstraints(s, rows).Success? && SameTables(s, AddConstraints(s, rows).value)
    decreases |rows|
  {
    if rows != [] {
      var row := rows[0];
      var s1 := AddConstraintRow(s, row).value;
      assert SameTables(s, s1) by {
        match s.tables.entries[row.table].GetKey(row.constraint)
        case Some(k) => AddKeyInSameTables(s, row.table, k.AddColumn(row.column));
        case None => AddKeyInSameTables(s, row.table, Key(GetKeyType(row.constraintType).value, row.constraint, [row.column]));
      }
      assert forall j :: 0 <= j < |rows[1..]| ==> rows[1..][j] == rows[j + 1];
      ConstraintsSucceed(s1, rows[1..]);
    }
  }

  // ---------------------------------------------------------------------
  // Index statistics
  // ---------------------------------------------------------------------

  /** The column a row contributes to index `name` of `table`, if it is one of its rows. */
  function IndexHead(row: StatisticsRow, table: string, name: string): seq<string> {
    if row.table == table && row.index == name then [row.column] else []
  }

  /** The fold is the first row followed by the fold of the rest. */
  lemma IndexStep(s: Schema, rows: seq<StatisticsRow>)
    requires rows != [] && AddStatistics(s, rows).Success?
    ensures AddStatisticsRow(s, rows[0]).Success?
    ensures AddStatistics(AddStatisticsRow(s, rows[0]).value, rows[1..]) == AddStatistics(s, rows)
  {
  }

  /** The columns of the rows of index `name` of `table`, in row order. */
  function IndexColumns(rows: seq<StatisticsRow>, table: string, name: string): (r: seq<string>)
    decreases |rows|
  {
    if rows == [] then [] else IndexHead(rows[0], table, name) + IndexColumns(rows[1..], table, name)
  }

  /** One statistics row extends the plain key it names and leaves every other key as it was. */
  lemma StatisticsRowExtends(s: Schema, row: StatisticsRow, t: string, k: Key)
    requires s.Valid() && AddStatisticsRow(s, row).Success? && HoldsKey(s, t, k)
    ensures HoldsKey(AddStatisticsRow(s, row).value, t,
      if k.kind == PlainKey then Key(k.kind, k.name, k.columns + IndexHead(row, t, k.name)) else k)
  {
    var r := AddStatisticsRow(s, row).value;
    if row.table != t {
      assert r.GetTable(t) == s.GetTable(t);
    } else if row.index != k.name {
      var prior := s.tables.entries[t].GetKey(row.index);
      assert prior.Some? ==> prior.value.name == row.index;
    }
    if IndexHead(row, t, k.name) == [] {
      AppendEmpty(k.columns);
    }
  }

  /** A row of another index leaves key `name` of table `t` as it was. */
  lemma IndexRowOther(s: Schema, row: StatisticsRow, t: string, name: string)
    requires s.Valid() && AddStatisticsRow(s, row).Success? && s.HasTable(t)
    requires !(row.table == t && row.index == name)
    ensures AddStatisticsRow(s, row).value.HasTable(t)
    ensures AddStatisticsRow(s, row).value.tables.entries[t].GetKey(name) == s.tables.entries[t].GetKey(name)
  {
    var s1 := AddStatisticsRow(s, row).value;
    if row.table == t {
      var prior := s.tables.entries[t].GetKey(row.index);
      assert prior.Some? ==> prior.value.name == row.index;
    } else {
      assert s1.GetTable(t) == s.GetTable(t);
    }
  }

  /**
   * A plain key gains the columns of its index rows, in row order; a key of
   * any other type, made from a constraint, is left exactly as it was.
   */
  lemma {:induction false} StatisticsExtend(s: Schema, rows: seq<StatisticsRow>, t: string, k: Key)
    requires s.Valid() && AddStatistics(s, rows).Success? && HoldsKey(s, t, k)
    ensures HoldsKey(AddStatistics(s, rows).value, t,
      if k.kind == PlainKey then Key(k.kind, k.name, k.columns + IndexColumns(rows, t, k.name)) else k)
    decreases |rows|
  {
    if rows == [] {
      AppendEmpty(k.columns);
    } else {
      IndexStep(s, rows);
      var s1 := AddStatisticsRow(s, rows[0]).value;
      var head := IndexHead(rows[0], t, k.name);
      StatisticsRowExtends(s, rows[0], t, k);
      if k.kind == PlainKey {
        StatisticsExtend(s1, rows[1..], t, Key(k.kind, k.name, k.columns + head));
        var rest := IndexColumns(rows[1..], t, k.name);
        AppendAssoc(k.columns, head, rest);
      } else {
        StatisticsExtend(s1, rows[1..], t, k);
      }
    }
  }

  /** Before the first row of an index, the rows are those of the tail, one place earlier. */
  lemma IndexTail(rows: seq<StatisticsRow>, t: string, name: string, i: nat)
    requires 0 < i < |rows| && rows[i].table == t && rows[i].index == name
    requires forall j :: 0 <= j < i ==> !(rows[j].table == t && rows[j].index == name)
    ensures rows[1..][i - 1] == rows[i]
    ensures forall j :: 0 <= j < i - 1 ==> !(rows[1..][j].table == t && rows[1..][j].index == name)
    ensures IndexColumns(rows, t, name) == IndexColumns(rows[1..], t, name)
  {
    assert !(rows[0].table == t && rows[0].index == name);
  }

  /** An index the table has no key for becomes a plain key over the columns of all its rows. */
  lemma {:induction false} StatisticsCreate(s: Schema, rows: seq<StatisticsRow>, t: string, name: string, i: nat)
    requires s.Valid() && AddStatistics(s, rows).Success?
    requires s.HasTable(t) && !s.tables.entries[t].HasKey(name)
    requires i < |rows| && rows[i].table == t && rows[i].index == name
    requires forall j :: 0 <= j < i ==> !(rows[j].table == t && rows[j].index == name)
    ensures HoldsKey(AddStatistics(s, rows).value, t, Key(PlainKey, name, IndexColumns(rows, t, name)))
    decreases |rows|
  {
    if i == 0 {
      StatisticsCreateFirst(s, rows);
    } else {
      IndexStep(s, rows);
      var s1 := AddStatisticsRow(s, rows[0]).value;
      var tail := rows[1..];
      IndexRowOther(s, rows[0], t, name);
      IndexTail(rows, t, name, i);
      StatisticsCreate(s1, tail, t, name, i - 1);
      assert AddStatistics(s, rows).value == AddStatistics(s1, tail).value;
    }
  }

  /** The case of `StatisticsCreate` where the first row is the index's first row. */
  lemma StatisticsCreateFirst(s: Schema, rows: seq<StatisticsRow>)
    requires s.Valid() && rows != [] && AddStatistics(s, rows).Success?
    requires s.HasTable(rows[0].table) && !s.tables.entries[rows[0].table].HasKey(rows[0].index)
    ensures HoldsKey(AddStatistics(s, rows).value, rows[0].table,
      Key(PlainKey, rows[0].index, IndexColumns(rows, rows[0].table, rows[0].index)))
  {
    var row := rows[0];
    IndexStep(s, rows);
    var s1 := AddStatisticsRow(s, row).value;
    var k := Key(PlainKey, row.index, [row.column]);
    assert HoldsKey(s1, row.table, k);
    StatisticsExtend(s1, rows[1..], row.table, k);
    assert IndexColumns(rows, row.table, row.index) == [row.column] + IndexColumns(rows[1..], row.table, row.index);
  }

  /** Only a row naming a table the schema does not have makes the statistics fold fail. */
  lemma {:induction false} StatisticsFails(s: Schema, rows: seq<StatisticsRow>)
    ensures AddStatistics(s, rows).Failure? <==> exists i :: 0 <= i < |rows| && !s.HasTable(rows[i].table)
    ensures AddStatistics(s, rows).Success? ==> SameTables(s, AddStatistics(s, rows).value)
    decreases |rows|
  {
    if rows != [] && s.HasTable(rows[0].table) {
      var row := rows[0];
      var s1 := AddStatisticsRow(s, row).value;
      assert SameTables(s, s1) by {
        match s.tables.entries[row.table].GetKey(row.index)
        case Some(k) => AddKeyInSameTables(s, row.table, k.AddColumn(row.column));
        case None => AddKeyInSameTables(s, row.table, Key(PlainKey, row.index, [row.column]));
      }
      StatisticsFails(s1, rows[1..]);
      if exists i :: 0 <= i < |rows| && !s.HasTable(rows[i].table) {
        var i :| 0 <= i < |rows| && !s.HasTable(rows[i].table);
        assert !s1.HasTable(rows[1..][i - 1].table);
      }
      if exists i :: 0 <= i < |rows[1..]| && !s1.HasTable(rows[1..][i].table) {
        var i :| 0 <= i < |rows[1..]| && !s1.HasTable(rows[1..][i].table);
        assert !s.HasTable(rows[i + 1].table);
      }
    }
  }

  // ---------------------------------------------------------------------
  // The whole catalog
  // ---------------------------------------------------------------------

  /** Tables registered from rows have no keys: every key of the catalog comes from a later fold. */
  lemma {:induction false} AddTablesKeyless(s: Schema, rows: seq<TableRow>, n: string, name: string)
    requires s.HasTable(n) ==> !s.tables.entries[n].HasKey(name)
    ensures AddTables(s, rows).HasTable(n) ==> !AddTables(s, rows).tables.entries[n].HasKey(name)
    decreases |rows|
  {
    if rows != [] {
      var s1 := s.AddTable(TableOf(rows[0]));
      if n != rows[0].name {
        assert s1.GetTable(n) == s.GetTable(n);
      }
      AddTablesKeyless(s1, rows[1..], n, name);
    }
  }

  /**
   * When every column, constraint and statistics row names a table of the
   * table rows and every constraint type is known, the catalog is read
   * without error, and its tables are exactly those of the table rows.
   */
  lemma ProcessTablesSucceeds(
    tables: seq<TableRow>, columns: seq<ColumnRow>,
    constraints: seq<ConstraintRow>, statistics: seq<StatisticsRow>)
    requires forall j :: 0 <= j < |columns| ==> NamesTable(tables, columns[j].table)
    requires forall j :: 0 <= j < |constraints| ==>
      NamesTable(tables, constraints[j].table) && GetKeyType(constraints[j].constraintType).Success?
    requires forall j :: 0 <= j < |statistics| ==> NamesTable(tables, statistics[j].table)
    ensures ProcessTables(tables, columns, constraints, statistics).Success?
    ensures forall n :: ProcessTables(tables, columns, constraints, statistics).value.HasTable(n) <==> NamesTable(tables, n)
  {
    var s1 := AddTables(EmptySchema(), tables);
    forall n ensures s1.HasTable(n) <==> NamesTable(tables, n) {
      AddTablesHas(EmptySchema(), tables, n);
    }
    AddColumnsFails(s1, columns);
    assert AddColumns(s1, columns).Success? by {
      forall i | 0 <= i < |columns| ensures s1.HasTable(columns[i].table) {
      }
    }
    var s2 := AddColumns(s1, columns).value;
    ConstraintsSucceed(s2, constraints);
    var s3 := AddConstraints(s2, constraints).value;
    StatisticsFails(s3, statistics);
    assert AddStatistics(s3, statistics).Success? by {
      forall i | 0 <= i < |statistics| ensures s3.HasTable(statistics[i].table) {
      }
    }
    assert ProcessTables(tables, columns, constraints, statistics) == AddStatistics(s3, statistics);
  }

  /**
   * In the catalog read, a constraint of a table is a key with the type of
   * its first row and the columns of all its rows in row order; index
   * statistics add nothing to it.
   */
  lemma ProcessTablesConstraintKey(
    tables: seq<TableRow>, columns: seq<ColumnRow>,
    constraints: seq<ConstraintRow>, statistics: seq<StatisticsRow>, i: nat)
    requires ProcessTables(tables, columns, constraints, statistics).Success?
    requires i < |constraints|
    requires forall j :: 0 <= j < i ==>
      !(constraints[j].table == constraints[i].table && constraints[j].constraint == constraints[i].constraint)
    ensures GetKeyType(constraints[i].constraintType).Success?
    ensures HoldsKey(ProcessTables(tables, columns, constraints, statistics).value, constraints[i].table,
      Key(GetKeyType(constraints[i].constraintType).value, constraints[i].constraint,
          ConstraintColumns(constraints, constraints[i].table, constraints[i].constraint)))
  {
    var t := constraints[i].table;
    var name := constraints[i].constraint;
    var s1 := AddTables(EmptySchema(), tables);
    var s2 := AddColumns(s1, columns).value;
    var s3 := AddConstraints(s2, constraints).value;
    AddTablesKeyless(EmptySchema(), tables, t, name);
    AddColumnsFails(s1, columns);
    ConstraintFoldHasTable(s2, constraints, i);
    assert s1.HasTable(t);
    AddColumnsKeepsKeys(s1, columns, t);
    assert !s2.tables.entries[t].HasKey(name) by {
      assert s2.tables.entries[t].keys == s1.tables.entries[t].keys;
    }
    ConstraintsCreate(s2, constraints, t, name, i);
    var k := Key(GetKeyType(constraints[i].constraintType).value, name, ConstraintColumns(constraints, t, name));
    StatisticsExtend(s3, statistics, t, k);
  }

  /**
   * In the catalog read, an index that is not a constraint is a plain key
   * over the columns of all its statistics rows, in row order.
   */
  lemma ProcessTablesIndexKey(
    tables: seq<TableRow>, columns: seq<ColumnRow>,
    constraints: seq<ConstraintRow>, statistics: seq<StatisticsRow>, i: nat)
    requires ProcessTables(tables, columns, constraints, statistics).Success?
    requires i < |statistics|
    requires forall j :: 0 <= j < i ==>
      !(statistics[j].table == statistics[i].table && statistics[j].index == statistics[i].index)
    requires forall j :: 0 <= j < |constraints| ==>
      !(constraints[j].table == statistics[i].table && constraints[j].constraint == statistics[i].index)
    ensures HoldsKey(ProcessTables(tables, columns, constraints, statistics).value, statistics[i].table,
      Key(PlainKey, statistics[i].index, IndexColumns(statistics, statistics[i].table, statistics[i].index)))
  {
    var t := statistics[i].table;
    var name := statistics[i].index;
    var s1 := AddTables(EmptySchema(), tables);
    var s2 := AddColumns(s1, columns).value;
    var s3 := AddConstraints(s2, constraints).value;
    StatisticsFails(s3, statistics);
    AddTablesKeyless(EmptySchema(), tables, t, name);
    AddColumnsFails(s1, columns);
    ConstraintsKeepTables(s2, constraints);
    assert s3.HasTable(t);
    assert s1.HasTable(t);
    AddColumnsKeepsKeys(s1, columns, t);
    assert !s2.tables.entries[t].HasKey(name) by {
      assert s2.tables.entries[t].keys == s1.tables.entries[t].keys;
    }
    ConstraintsUntouched(s2, constraints, t, name);
    StatisticsCreate(s3, statistics, t, name, i);
  }
}
