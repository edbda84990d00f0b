/**
 * `InformationSchemaBuilderCore`: the current schema read from the
 * database catalog. The four catalog queries become four sequences of rows;
 * what remains is a fold over each of them, in the order the builder runs
 * them: tables, columns, constraints, index statistics.
 *
 * Keys are PHP objects shared by reference: a key the builder has
 * registered and then extends through a local variable is extended inside
 * its table. Here every such change replaces the key stored under its name.
 */
module InformationSchemaBuilder {
  import opened Wrappers
  import opened Strings
  import opened Seqs
  import opened TableSchema
  import opened DatabaseSchema

  /** A row of `information_schema.TABLES`; a view has no engine. */
  datatype TableRow = TableRow(name: string, engine: Option<string>)

  /** A row of `information_schema.COLUMNS`. */
  datatype ColumnRow = ColumnRow(
    table: string,
    column: string,
    columnType: string,
    extra: string,
    isNullable: string,
    columnDefault: Option<string>)

  /** A row of `TABLE_CONSTRAINTS` joined with `KEY_COLUMN_USAGE`: one column of one constraint. */
  datatype ConstraintRow = ConstraintRow(table: string, constraint: string, constraintType: string, column: string)

  /** A row of `information_schema.STATISTICS`: one column of one index. */
  datatype StatisticsRow = StatisticsRow(table: string, index: string, column: string)

  /** The exception of `getKeyType`, and the fatal null dereference of a row naming an unknown table. */
  datatype CatalogError = UnknownConstraintType(constraintType: string) | UnknownTable(name: string)

  /** The constraint type the catalog reports for a key type; a plain index is not a constraint. */
  function ConstraintTypeName(k: KeyType): string {
    match k
    case PrimaryKey => "PRIMARY KEY"
    case UniqueKey => "UNIQUE"
    case ForeignKey => "FOREIGN KEY"
    case PlainKey => "KEY"
  }

  /** `getKeyType`: the key type of a catalog constraint type; any other type is an error. */
  function GetKeyType(constraintType: string): (r: Result<KeyType, CatalogError>)
    ensures r.Success? <==> constraintType == "PRIMARY KEY" || constraintType == "UNIQUE" || constraintType == "FOREIGN KEY"
    ensures r.Success? ==> r.value != PlainKey
    ensures r.Failure? ==> r.error == UnknownConstraintType(constraintType)
  {
    match constraintType
    case "PRIMARY KEY" => Success(PrimaryKey)
    case "UNIQUE" => Success(UniqueKey)
    case "FOREIGN KEY" => Success(ForeignKey)
    case _ => Failure(UnknownConstraintType(constraintType))
  }

  /** `getKeyType` reads back exactly the constraint type names of the three constraint kinds. */
  lemma GetKeyTypeInverse(constraintType: string, k: KeyType)
    ensures GetKeyType(constraintType) == Success(k) <==> k != PlainKey && constraintType == ConstraintTypeName(k)
  {
  }

  // ---------------------------------------------------------------------
  // Tables
  // ---------------------------------------------------------------------

  /** The table a row of `information_schema.TABLES` yields. */
  function TableOf(row: TableRow): (t: Table)
    ensures t.name == row.name && t.engine == row.engine && t.Columns() == [] && t.Keys() == [] && t.Valid()
    ensures forall n :: !t.HasColumn(n) && !t.HasKey(n)
  {
    NewTable(row.name).SetEngine(row.engine)
  }

  /** `processTables`, the tables loop: each row registers a new table with the row's engine. */
  function AddTables(s: Schema, rows: seq<TableRow>): (r: Schema)
    decreases |rows|
    ensures s.Valid() ==> r.Valid()
  {
    if rows == [] then s
    else AddTables(s.AddTable(TableOf(rows[0])), rows[1..])
  }

  // ---------------------------------------------------------------------
  // Columns
  // ---------------------------------------------------------------------

  /** `processTables`, the columns loop: the column a row describes. */
  function ColumnOf(row: ColumnRow): (c: Column)
    ensures c.name == row.column && c.dataType == row.columnType && c.defaultValue == row.columnDefault
  {
    Column(row.column, row.columnType, row.columnDefault,
           AsciiUpper(row.isNullable) == "YES", Contains(row.extra, "auto_increment"))
  }

  /** A column auto-increments exactly when `EXTRA` contains `auto_increment`. */
  lemma ColumnAutoIncrement(row: ColumnRow)
    ensures ColumnOf(row).autoIncrement <==> exists i :: OccursAt(row.extra, "auto_increment", i)
  {
    ContainsIffOccurs(row.extra, "auto_increment");
  }

  /** A column is nullable exactly when `IS_NULLABLE` spells "yes" in any letter case. */
  lemma ColumnNullable(row: ColumnRow)
    ensures ColumnOf(row).nullable <==>
      |row.isNullable| == 3 && row.isNullable[0] in "yY" && row.isNullable[1] in "eE" && row.isNullable[2] in "sS"
  {
    UpperIsYes(row.isNullable);
  }

  /** `processTables`, the columns loop: the column added to its table; a row naming an unknown table is fatal. */
  function AddColumnRow(s: Schema, row: ColumnRow): (r: Result<Schema, CatalogError>)
    ensures r.Failure? <==> !s.HasTable(row.table)
    ensures r.Failure? ==> r.error == UnknownTable(row.table)
    ensures r.Success? ==> r.value == AddColumnIn(s, row.table, ColumnOf(row))
    ensures s.Valid() && r.Success? ==> r.value.Valid()
  {
    if s.HasTable(row.table) then Success(AddColumnIn(s, row.table, ColumnOf(row)))
    else Failure(UnknownTable(row.table))
  }

  /** `processTables`, the columns loop: the column rows in order; the first row naming an unknown table aborts. */
  function AddColumns(s: Schema, rows: seq<ColumnRow>): (r: Result<Schema, CatalogError>)
    decreases |rows|
    ensures s.Valid() && r.Success? ==> r.value.Valid()
  {
    if rows == [] then Success(s)
    else
      var s1 :- AddColumnRow(s, rows[0]);
      AddColumns(s1, rows[1..])
  }

  // ---------------------------------------------------------------------
  // Constraints
  // ---------------------------------------------------------------------

  /**
   * `processTables`, the constraints loop: the first row of a constraint creates its key with the
   * mapped type; every row appends its column to the key.
   */
  function AddConstraintRow(s: Schema, row: ConstraintRow): (r: Result<Schema, CatalogError>)
    ensures r.Failure? ==> r.error == UnknownTable(row.table) || r.error == UnknownConstraintType(row.constraintType)
    ensures r.Failure? <==> (
      || !s.HasTable(row.table)
      || (!s.tables.entries[row.table].HasKey(row.constraint) && GetKeyType(row.constraintType).Failure?))
    ensures s.Valid() && r.Success? ==> r.value.Valid()
  {
    if !s.HasTable(row.table) then Failure(UnknownTable(row.table))
    else
      match s.tables.entries[row.table].GetKey(row.constraint)
      case Some(k) => Success(AddKeyIn(s, row.table, k.AddColumn(row.column)))
      case None =>
        var kind :- GetKeyType(row.constraintType);
        Success(AddKeyIn(s, row.table, Key(kind, row.constraint, [row.column])))
  }

  /** `processTables`, the constraints loop: the constraint rows in order; the first error aborts. */
  function AddConstraints(s: Schema, rows: seq<ConstraintRow>): (r: Result<Schema, CatalogError>)
    decreases |rows|
    ensures s.Valid() && r.Success? ==> r.value.Valid()
  {
    if rows == [] then Success(s)
    else
      var s1 :- AddConstraintRow(s, rows[0]);
      AddConstraints(s1, rows[1..])
  }

  // ---------------------------------------------------------------------
  // Index statistics
  // ---------------------------------------------------------------------

  /**
   * `processTables`, the statistics loop: an unseen index becomes a plain key; the column is
   * appended only to a plain key, so a key made from a constraint is left
   * as it was.
   */
  function AddStatisticsRow(s: Schema, row: StatisticsRow): (r: Result<Schema, CatalogError>)
    ensures r.Failure? <==> !s.HasTable(row.table)
    ensures r.Failure? ==> r.error == UnknownTable(row.table)
    ensures s.Valid() && r.Success? ==> r.value.Valid()
  {
    if !s.HasTable(row.table) then Failure(UnknownTable(row.table))
    else
      match s.tables.entries[row.table].GetKey(row.index)
      case Some(k) =>
        if k.kind == PlainKey then Success(AddKeyIn(s, row.table, k.AddColumn(row.column))) else Success(s)
      case None => Success(AddKeyIn(s, row.table, Key(PlainKey, row.index, [row.column])))
  }

  /** `processTables`, the statistics loop: the statistics rows in order; the first error aborts. */
  function AddStatistics(s: Schema, rows: seq<StatisticsRow>): (r: Result<Schema, CatalogError>)
    decreases |rows|
    ensures s.Valid() && r.Success? ==> r.value.Valid()
  {
    if rows == [] then Success(s)
    else
      var s1 :- AddStatisticsRow(s, rows[0]);
      AddStatistics(s1, rows[1..])
  }

  /** `processTables`: the four folds in order, from an empty schema. */
  function ProcessTables(
    tables: seq<TableRow>, columns: seq<ColumnRow>,
    constraints: seq<ConstraintRow>, statistics: seq<StatisticsRow>): (r: Result<Schema, CatalogError>)
    ensures r.Success? ==> r.value.Valid()
  {
    var s1 := AddTables(EmptySchema(), tables);
    var s2 :- AddColumns(s1, columns);
    var s3 :- AddConstraints(s2, constraints);
    AddStatistics(s3, statistics)
  }
}
