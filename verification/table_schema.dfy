/**
 * `TableSchemaCore`: a named table with an engine and two name-keyed,
 * insertion-ordered collections. Columns keep the first value stored under a
 * name; keys keep the last one.
 *
 * The column and key value objects (`ColumnSchema`, `TableKey`) are plain
 * records here; the PHP object identity is not modelled.
 */
module TableSchema {
  import opened Wrappers
  import opened Seqs
  import opened NamedMaps

  /** A `ColumnSchema`; a null default value is `None`. */
  datatype Column = Column(
    name: string,
    dataType: string,
    defaultValue: Option<string>,
    nullable: bool,
    autoIncrement: bool)

  /** `TableKey::PRIMARY_KEY`, `UNIQUE_KEY`, `FOREIGN_KEY` and `KEY`. */
  datatype KeyType = PrimaryKey | UniqueKey | ForeignKey | PlainKey

  /** A `TableKey`: its type, name and ordered column names. */
  datatype Key = Key(kind: KeyType, name: string, columns: seq<string>) {

    /** `TableKey::addColumn`: appends one column name. */
    function AddColumn(column: string): (r: Key)
      ensures r.kind == kind && r.name == name && r.columns == columns + [column]
    {
      Key(kind, name, columns + [column])
    }
  }

  datatype Table = Table(
    name: string,
    engine: Option<string>,
    columns: NamedMap<Column>,
    keys: NamedMap<Key>)
  {
    /** Both collections are well formed and store each value under its own name. */
    ghost predicate Valid() {
      && columns.Valid()
      && keys.Valid()
      && (forall n :: n in columns.entries ==> columns.entries[n].name == n)
      && (forall n :: n in keys.entries ==> keys.entries[n].name == n)
    }

    /** `setEngine`: only the engine changes. */
    function SetEngine(e: Option<string>): (r: Table)
      ensures r.engine == e
      ensures r.name == name && r.columns == columns && r.keys == keys
      ensures Valid() ==> r.Valid()
    {
      this.(engine := e)
    }

    predicate HasColumn(n: string) {
      columns.Has(n)
    }

    /** `getColumn`: the column stored under `n`, or null. */
    function GetColumn(n: string): (r: Option<Column>)
      ensures r.None? <==> !HasColumn(n)
      ensures Valid() && r.Some? ==> r.value.name == n
    {
      if columns.Has(n) then Some(columns.entries[n]) else None
    }

    /** `getColumns`: the columns in insertion order. */
    function Columns(): seq<Column> {
      columns.Values()
    }

    /** `addColumn`: a new name is appended; a known name leaves the table as it was. */
    function AddColumn(c: Column): (r: Table)
      ensures HasColumn(c.name) ==> r == this
      ensures r.HasColumn(c.name)
      ensures !HasColumn(c.name) ==> r.GetColumn(c.name) == Some(c)
      ensures forall n :: n != c.name ==> r.GetColumn(n) == GetColumn(n)
      ensures r.name == name && r.engine == engine && r.keys == keys
      ensures Valid() ==> r.Valid()
      ensures Valid() && !HasColumn(c.name) ==> r.Columns() == Columns() + [c]
    {
      if HasColumn(c.name) then this
      else Table(name, engine, columns.Add(c.name, c), keys)
    }

    predicate HasKey(n: string) {
      keys.Has(n)
    }

    /** `getKey`: the key stored under `n`, or null. */
    function GetKey(n: string): (r: Option<Key>)
      ensures r.None? <==> !HasKey(n)
      ensures Valid() && r.Some? ==> r.value.name == n
    {
      if keys.Has(n) then Some(keys.entries[n]) else None
    }

    /** `getKeys`: the keys in insertion order. */
    function Keys(): seq<Key> {
      keys.Values()
    }

    /** `addKey`: the key replaces any key of the same name, which keeps its position. */
    function AddKey(k: Key): (r: Table)
      ensures r.GetKey(k.name) == Some(k)
      ensures forall n :: n != k.name ==> r.GetKey(n) == GetKey(n)
      ensures r.name == name && r.engine == engine && r.columns == columns
      ensures Valid() ==> r.Valid()
      ensures HasKey(k.name) ==> r.keys.order == keys.order
      ensures !HasKey(k.name) ==> r.keys.order == keys.order + [k.name]
    {
      this.(keys := keys.Put(k.name, k))
    }
  }

  /** `new TableSchema($name)`: no engine, no columns, no keys. */
  function NewTable(name: string): (r: Table)
    ensures r.name == name && r.engine == None
    ensures r.Columns() == [] && r.Keys() == []
    ensures forall n :: !r.HasColumn(n) && !r.HasKey(n)
    ensures r.Valid()
  {
    Table(name, None, Empty(), Empty())
  }

  /** Adding a second column of the same name changes nothing: the first write wins. */
  lemma AddColumnFirstWins(t: Table, first: Column, second: Column)
    requires first.name == second.name
    ensures t.AddColumn(first).AddColumn(second) == t.AddColumn(first)
    ensures t.AddColumn(first).AddColumn(second).GetColumn(second.name)
      == if t.HasColumn(first.name) then t.GetColumn(first.name) else Some(first)
  {
  }

  /** Adding a second key of the same name replaces the first: the last write wins. */
  lemma AddKeyLastWins(t: Table, first: Key, second: Key)
    requires first.name == second.name
    ensures t.AddKey(first).AddKey(second) == t.AddKey(second)
  {
    var a := t.AddKey(first).AddKey(second);
    var b := t.AddKey(second);
    assert a.keys.entries == b.keys.entries;
  }

  function ColumnName(c: Column): string {
    c.name
  }

  function KeyName(k: Key): string {
    k.name
  }

  /**
   * In a valid table the listed columns and keys are exactly the stored ones,
   * each stored under its own name.
   */
  lemma TableNamed(t: Table)
    requires t.Valid()
    ensures forall c :: c in t.Columns() <==> t.GetColumn(c.name) == Some(c)
    ensures forall k :: k in t.Keys() <==> t.GetKey(k.name) == Some(k)
    ensures DistinctBy(t.Columns(), ColumnName) && DistinctBy(t.Keys(), KeyName)
  {
    ValuesNamed(t.columns, ColumnName);
    ValuesNamed(t.keys, KeyName);
    forall c: Column ensures t.GetColumn(c.name) == Some(c) ==> c in t.Columns() {
      ValuesContents(t.columns, c);
    }
    forall k: Key ensures t.GetKey(k.name) == Some(k) ==> k in t.Keys() {
      ValuesContents(t.keys, k);
    }
  }
}

/**
 * `DatabaseSchema`: the tables of a schema, keyed by name in insertion order.
 * Adding a table under a known name replaces it in place.
 */
module DatabaseSchema {
  import opened Wrappers
  import opened Seqs
  import opened NamedMaps
  import opened TableSchema

  datatype Schema = Schema(tables: NamedMap<Table>) {

    /** Every table is valid and stored under its own name. */
    ghost predicate Valid() {
      && tables.Valid()
      && forall n :: n in tables.entries ==> tables.entries[n].name == n && tables.entries[n].Valid()
    }

    predicate HasTable(n: string) {
      tables.Has(n)
    }

    /** `getTable`: the table stored under `n`, or null. */
    function GetTable(n: string): (r: Option<Table>)
      ensures r.None? <==> !HasTable(n)
      ensures r.Some? ==> r.value == tables.entries[n]
      ensures Valid() && r.Some? ==> r.value.name == n && r.value.Valid()
    {
      tables.Get(n)
    }

    /** `getTables`: the tables in insertion order. */
    function Tables(): seq<Table> {
      tables.Values()
    }

    /** Stores `t` under `n`, replacing the table held there in place. */
    function PutAt(n: string, t: Table): (r: Schema)
      ensures r.GetTable(n) == Some(t)
      ensures forall m :: m != n ==> r.GetTable(m) == GetTable(m)
      ensures Valid() && t.Valid() && t.name == n ==> r.Valid()
      ensures HasTable(n) ==> r.tables.order == tables.order
      ensures !HasTable(n) ==> r.tables.order == tables.order + [n]
    {
      Schema(tables.Put(n, t))
    }

    /** `addTable`: stores `t` under its name, replacing a table of that name in place. */
    function AddTable(t: Table): (r: Schema)
      ensures r.GetTable(t.name) == Some(t)
      ensures forall n :: n != t.name ==> r.GetTable(n) == GetTable(n)
      ensures Valid() && t.Valid() ==> r.Valid()
      ensures HasTable(t.name) ==> r.tables.order == tables.order
      ensures !HasTable(t.name) ==> r.tables.order == tables.order + [t.name]
    {
      Schema(tables.Put(t.name, t))
    }
  }

  function EmptySchema(): (r: Schema)
    ensures r.Valid() && r.Tables() == []
    ensures forall n :: !r.HasTable(n)
  {
    Schema(Empty())
  }

  /** `getTable(name)->addColumn(c)`: the column added to the registered table `name`, if there is one. */
  function AddColumnIn(s: Schema, name: string, c: Column): (r: Schema)
    ensures s.HasTable(name) ==> r.GetTable(name) == Some(s.tables.entries[name].AddColumn(c))
    ensures !s.HasTable(name) ==> r == s
    ensures forall n :: n != name ==> r.GetTable(n) == s.GetTable(n)
    ensures s.Valid() ==> r.Valid()
  {
    if s.HasTable(name) then s.PutAt(name, s.tables.entries[name].AddColumn(c)) else s
  }

  /** `getTable(name)->addKey(k)`: the key added to the registered table `name`, if there is one. */
  function AddKeyIn(s: Schema, name: string, k: Key): (r: Schema)
    ensures s.HasTable(name) ==> r.GetTable(name) == Some(s.tables.entries[name].AddKey(k))
    ensures !s.HasTable(name) ==> r == s
    ensures forall n :: n != name ==> r.GetTable(n) == s.GetTable(n)
    ensures s.Valid() ==> r.Valid()
  {
    if s.HasTable(name) then s.PutAt(name, s.tables.entries[name].AddKey(k)) else s
  }

  /** Whether the schema holds column `c` in its table `name`. */
  ghost predicate HoldsColumn(s: Schema, name: string, c: Column) {
    s.HasTable(name) && s.tables.entries[name].GetColumn(c.name) == Some(c)
  }

  /** The schema has no column `column` in a table `name`: the table is missing or lacks it. */
  ghost predicate LacksColumn(s: Schema, name: string, column: string) {
    !(s.HasTable(name) && s.tables.entries[name].HasColumn(column))
  }

  /** `u` holds every column of `t`, unchanged. */
  ghost predicate ColumnsKept(t: Table, u: Table) {
    forall n :: t.HasColumn(n) ==> u.GetColumn(n) == t.GetColumn(n)
  }

  /** From `s` to `r` no table disappears and no column of any table changes or disappears. */
  ghost predicate Grows(s: Schema, r: Schema) {
    && (forall n :: s.HasTable(n) ==> r.HasTable(n))
    && (forall n :: s.HasTable(n) ==> ColumnsKept(s.tables.entries[n], r.tables.entries[n]))
  }

  lemma ColumnsKeptTrans(a: Table, b: Table, c: Table)
    requires ColumnsKept(a, b) && ColumnsKept(b, c)
    ensures ColumnsKept(a, c)
  {
    forall n | a.HasColumn(n) ensures c.GetColumn(n) == a.GetColumn(n) {
      assert b.GetColumn(n) == a.GetColumn(n);
    }
  }

  lemma GrowsTrans(a: Schema, b: Schema, c: Schema)
    requires Grows(a, b) && Grows(b, c)
    ensures Grows(a, c)
  {
    forall n | a.HasTable(n) ensures ColumnsKept(a.tables.entries[n], c.tables.entries[n]) {
      ColumnsKeptTrans(a.tables.entries[n], b.tables.entries[n], c.tables.entries[n]);
    }
  }

  /** A column the schema holds is still held, unchanged, after the schema grows. */
  lemma GrowsHolds(s: Schema, r: Schema, name: string, c: Column)
    requires Grows(s, r) && HoldsColumn(s, name, c)
    ensures HoldsColumn(r, name, c)
  {
    assert s.tables.entries[name].HasColumn(c.name);
  }

  /** Adding a column never changes or removes a column of the table. */
  lemma AddColumnKeeps(t: Table, c: Column)
    ensures ColumnsKept(t, t.AddColumn(c))
  {
  }

  lemma AddKeyKeeps(t: Table, k: Key)
    ensures ColumnsKept(t, t.AddKey(k))
  {
  }

  /** Storing a table that keeps the columns of the one it replaces makes the schema grow. */
  lemma PutAtGrows(s: Schema, n: string, u: Table)
    requires s.HasTable(n) ==> ColumnsKept(s.tables.entries[n], u)
    ensures Grows(s, s.PutAt(n, u))
  {
    var r := s.PutAt(n, u);
    forall m | s.HasTable(m) ensures r.HasTable(m) && ColumnsKept(s.tables.entries[m], r.tables.entries[m]) {
      if m != n {
        assert r.GetTable(m) == s.GetTable(m);
      } else {
        assert r.GetTable(n) == Some(u);
      }
    }
  }

  lemma AddTableGrows(s: Schema, u: Table)
    requires s.HasTable(u.name) ==> ColumnsKept(s.tables.entries[u.name], u)
    ensures Grows(s, s.AddTable(u))
  {
    PutAtGrows(s, u.name, u);
    assert s.AddTable(u) == s.PutAt(u.name, u);
  }

  lemma AddColumnInGrows(s: Schema, name: string, c: Column)
    ensures Grows(s, AddColumnIn(s, name, c))
  {
    if s.HasTable(name) {
      AddColumnKeeps(s.tables.entries[name], c);
      PutAtGrows(s, name, s.tables.entries[name].AddColumn(c));
    }
  }

  lemma AddKeyInGrows(s: Schema, name: string, k: Key)
    ensures Grows(s, AddKeyIn(s, name, k))
  {
    if s.HasTable(name) {
      AddKeyKeeps(s.tables.entries[name], k);
      PutAtGrows(s, name, s.tables.entries[name].AddKey(k));
    }
  }

  /** `r` has exactly the tables of `s`. */
  ghost predicate SameTables(s: Schema, r: Schema) {
    forall n :: r.HasTable(n) <==> s.HasTable(n)
  }

  lemma AddColumnInSameTables(s: Schema, name: string, c: Column)
    ensures SameTables(s, AddColumnIn(s, name, c))
  {
    var r := AddColumnIn(s, name, c);
    forall n ensures r.HasTable(n) <==> s.HasTable(n) {
      if n != name {
        assert r.GetTable(n) == s.GetTable(n);
      }
    }
  }

  lemma AddKeyInSameTables(s: Schema, name: string, k: Key)
    ensures SameTables(s, AddKeyIn(s, name, k))
  {
    var r := AddKeyIn(s, name, k);
    forall n ensures r.HasTable(n) <==> s.HasTable(n) {
      if n != name {
        assert r.GetTable(n) == s.GetTable(n);
      }
    }
  }

  function TableName(t: Table): string {
    t.name
  }

  /** In a valid schema the listed tables are valid, stored under their names, and named apart. */
  lemma SchemaNamed(s: Schema)
    requires s.Valid()
    ensures forall t :: t in s.Tables() ==> s.GetTable(t.name) == Some(t) && t.Valid()
    ensures DistinctBy(s.Tables(), TableName)
  {
    ValuesNamed(s.tables, TableName);
  }

  /** The listed tables are exactly the stored ones. */
  lemma TablesContents(s: Schema, t: Table)
    requires s.Valid()
    ensures t in s.Tables() <==> s.HasTable(t.name) && s.tables.entries[t.name] == t
  {
    ValuesContents(s.tables, t);
  }
}
