/**
 * `ObjectModelSchemaBuilderCore`: the target schema declared by object-model
 * definitions. Each definition contributes its primary table, an optional
 * `_lang` and `_shop` table, one column per field, join tables for its
 * associations and explicitly declared keys.
 *
 * PHP objects are shared by reference: a table the builder has registered
 * and then changes through a local variable is changed inside the schema.
 * Here every such change is applied to the table the schema holds under
 * that name.
 */
module ObjectModelBuilder {
  import opened Wrappers
  import opened Strings
  import opened Php
  import opened TableSchema
  import opened DatabaseSchema

  /** `ObjectModel::TYPE_*`; any other type code is `Unknown`. */
  datatype LogicalType =
    | TypeInt | TypeBool | TypeString | TypeHtml | TypeFloat | TypePrice | TypeDate
    | TypeNothing | TypeSql | Unknown(code: int)

  /** One entry of a definition's `fields`: the field name, its `type` and its other options. */
  datatype FieldDef = FieldDef(name: string, fieldType: LogicalType, options: Options)

  /** One entry of a definition's `associations`, under its key. */
  datatype Association = Association(name: string, options: Options)

  /** One declared key: its name, its `type` and its `columns`. */
  datatype KeyDef = KeyDef(name: string, kind: KeyType, columns: seq<string>)

  /** The keys a definition declares for one (unprefixed) table. */
  datatype TableKeys = TableKeys(table: string, keys: seq<KeyDef>)

  /**
   * An object-model definition. `options` holds the scalar entries
   * (`primary`, `primaryKeyDbType`, `autoIncrement`, `multilang`,
   * `multilang_shop`, `multishop`); a missing list is an empty one.
   */
  datatype ModelDef = ModelDef(
    model: string,
    table: string,
    options: Options,
    fields: seq<FieldDef>,
    associations: seq<Association>,
    keys: seq<TableKeys>)

  /** `ObjectModel::SIZE_MAX_VARCHAR`, `SIZE_TEXT` and `SIZE_MEDIUM_TEXT`. */
  datatype Limits = Limits(maxVarchar: int, text: int, mediumText: int)

  /**
   * What the builder takes from its surroundings: the table prefix
   * `_DB_PREFIX_`, the engine `_MYSQL_ENGINE_`, `Shop::isTableAssociated`,
   * the `primary` of `ObjectModel::getDefinition` for a class name,
   * `Tools::toCamelCase($key, true)`, the size limits, and the attributes of
   * a freshly constructed column before any setter runs.
   */
  datatype Env = Env(
    prefix: string,
    engine: string,
    isTableAssociated: string -> bool,
    primaryOf: string -> string,
    toCamelCase: string -> string,
    limits: Limits,
    blank: Column)

  /** The exceptions (and the fatal null dereference) that abort a build. */
  datatype BuildError =
    | NeedsDbType(field: string, model: string)
    | UnknownType(field: string, model: string, code: int)
    | InvalidEnumValues(field: string, model: string)
    | UnknownTable(name: string)

  // ---------------------------------------------------------------------
  // getDataType
  // ---------------------------------------------------------------------

  /** The integer column type for a `size` and a `signed` option. */
  function IntTypeString(size: Value, signed: Value): string {
    (if LooseEqualsInt(size, 1) then "tinyint" else "int") + "(" + StrOf(size) + ")"
    + (if Truthy(signed) then "" else " unsigned")
  }

  function StrsOf(vs: seq<Value>): (r: seq<string>)
    ensures |r| == |vs| && forall i :: 0 <= i < |vs| ==> r[i] == StrOf(vs[i])
  {
    seq(|vs|, i requires 0 <= i < |vs| => StrOf(vs[i]))
  }

  /** The column type of a string or HTML field: an enum of its `values`, else by `size`. */
  function TextType(f: FieldDef, model: string, limits: Limits): Result<string, BuildError> {
    var o := f.options;
    if CheckOption(o, "values") then
      match o["values"]
      case List(vs) => Success("enum('" + Join("','", StrsOf(vs)) + "')")
      case _ => Failure(InvalidEnumValues(f.name, model))
    else
      var size := GetOption(o, "size", Int(limits.maxVarchar));
      if LooseAtMostInt(size, limits.maxVarchar) then Success("varchar(" + StrOf(size) + ")")
      else if LooseAtMostInt(size, limits.text) then Success("text")
      else if LooseAtMostInt(size, limits.mediumText) then Success("mediumtext")
      else Success("longtext")
  }

  /** The column type of a float or price field. */
  function DecimalType(o: Options): string {
    "decimal(" + StrOf(GetOption(o, "size", Int(20))) + "," + StrOf(GetOption(o, "decimals", Int(6))) + ")"
  }

  /**
   * `getDataType`: a truthy `dbType` verbatim; otherwise a type derived from
   * the logical type. Types without a database form, unknown types and
   * enum values that are not a list are errors.
   */
  function GetDataType(f: FieldDef, model: string, limits: Limits): (r: Result<string, BuildError>)
    ensures CheckOption(f.options, "dbType") ==> r == Success(StrOf(f.options["dbType"]))
    ensures r.Failure? <==>
      && !CheckOption(f.options, "dbType")
      && (|| f.fieldType.TypeNothing? || f.fieldType.TypeSql? || f.fieldType.Unknown?
          || ((f.fieldType.TypeString? || f.fieldType.TypeHtml?)
              && CheckOption(f.options, "values") && !f.options["values"].List?))
    ensures r.Failure? ==> !r.error.UnknownTable? && r.error.field == f.name && r.error.model == model
    ensures !CheckOption(f.options, "dbType") && f.fieldType.TypeBool? ==> r == Success("tinyint(1) unsigned")
    ensures !CheckOption(f.options, "dbType") && f.fieldType.TypeDate? ==> r == Success("datetime")
  {
    var o := f.options;
    if CheckOption(o, "dbType") then Success(StrOf(o["dbType"]))
    else
      match f.fieldType
      case TypeInt => Success(IntTypeString(GetOption(o, "size", Int(11)), GetOption(o, "signed", Bool(false))))
      case TypeBool => Success("tinyint(1) unsigned")
      case TypeString => TextType(f, model, limits)
      case TypeHtml => TextType(f, model, limits)
      case TypeFloat => Success(DecimalType(o))
      case TypePrice => Success(DecimalType(o))
      case TypeDate => Success("datetime")
      case TypeNothing => Failure(NeedsDbType(f.name, model))
      case TypeSql => Failure(NeedsDbType(f.name, model))
      case Unknown(code) => Failure(UnknownType(f.name, model, code))
  }

  // ---------------------------------------------------------------------
  // Columns
  // ---------------------------------------------------------------------

  /** `setDefaultValue`: null is "no default", anything else its string form. */
  function DefaultOf(v: Value): (r: Option<string>)
    ensures r.None? <==> v == Null
    ensures v.Str? ==> r == Some(v.s)
    ensures v == Bool(false) ==> r == Some("")
  {
    if v == Null then None else Some(StrOf(v))
  }

  /** The column of a field in the fields loop of `processModel`: its type, then nullability and default from the options. */
  function FieldColumn(env: Env, f: FieldDef, dataType: string): (c: Column)
    ensures c.name == f.name && c.dataType == dataType && c.autoIncrement == env.blank.autoIncrement
    ensures "dbNullable" in f.options ==> c.nullable == Truthy(f.options["dbNullable"])
    ensures "dbNullable" !in f.options && "required" in f.options ==> c.nullable == !Truthy(f.options["required"])
    ensures "dbNullable" !in f.options && "required" !in f.options ==> c.nullable == env.blank.nullable
    ensures "dbDefault" in f.options ==> c.defaultValue == DefaultOf(f.options["dbDefault"])
    ensures "dbDefault" !in f.options && "default" in f.options ==> c.defaultValue == DefaultOf(f.options["default"])
    ensures "dbDefault" !in f.options && "default" !in f.options ==> c.defaultValue.None?
  {
    var o := f.options;
    var nullable :=
      if "dbNullable" in o then Truthy(o["dbNullable"])
      else if "required" in o then !Truthy(o["required"])
      else env.blank.nullable;
    var default := DefaultOf(GetOption(o, "dbDefault", GetOption(o, "default", Null)));
    Column(f.name, dataType, default, nullable, env.blank.autoIncrement)
  }

  /** A not-null `int(11) unsigned` reference column. */
  function ForeignColumn(env: Env, name: string): (c: Column)
    ensures c.name == name && c.dataType == "int(11) unsigned" && !c.nullable
  {
    Column(name, "int(11) unsigned", env.blank.defaultValue, false, env.blank.autoIncrement)
  }

  /** `$definition['primary']` as a column name; an unset primary reads as null, i.e. "". */
  function PrimaryName(def: ModelDef): string {
    StrOf(GetOption(def.options, "primary", Null))
  }

  /** The primary-key column `processModel` gives the primary table. */
  function PrimaryColumn(env: Env, def: ModelDef): (c: Column)
    ensures c.name == PrimaryName(def) && !c.nullable
    ensures "primaryKeyDbType" !in def.options ==> c.dataType == "int(11) unsigned"
    ensures "autoIncrement" !in def.options ==> c.autoIncrement
    ensures "primaryKeyDbType" in def.options ==> c.dataType == StrOf(def.options["primaryKeyDbType"])
    ensures "autoIncrement" in def.options ==> c.autoIncrement == Truthy(def.options["autoIncrement"])
  {
    var o := def.options;
    Column(PrimaryName(def), StrOf(GetOption(o, "primaryKeyDbType", Str("int(11) unsigned"))),
           env.blank.defaultValue, false, Truthy(GetOption(o, "autoIncrement", Bool(true))))
  }

  // ---------------------------------------------------------------------
  // Tables in the schema under construction
  // ---------------------------------------------------------------------

  function PrimaryTableName(env: Env, def: ModelDef): string {
    env.prefix + def.table
  }

  function LangTableName(env: Env, def: ModelDef): string {
    env.prefix + (def.table + "_lang")
  }

  function ShopTableName(env: Env, def: ModelDef): string {
    env.prefix + (def.table + "_shop")
  }

  lemma TableNamesDistinct(env: Env, def: ModelDef)
    ensures PrimaryTableName(env, def) != LangTableName(env, def)
    ensures PrimaryTableName(env, def) != ShopTableName(env, def)
    ensures LangTableName(env, def) != ShopTableName(env, def)
  {
    var k := |env.prefix + def.table|;
    assert LangTableName(env, def)[k + 1] == 'l';
    assert ShopTableName(env, def)[k + 1] == 's';
  }

  /** Two reference columns added in turn; each name the table lacked now holds its column. */
  function AddForeignPair(t: Table, env: Env, first: string, second: string): (u: Table)
    ensures !t.HasColumn(first) ==> u.GetColumn(first) == Some(ForeignColumn(env, first))
    ensures !t.HasColumn(second) ==> u.GetColumn(second) == Some(ForeignColumn(env, second))
    ensures u.HasColumn(first) && u.HasColumn(second)
    ensures u.name == t.name && u.keys == t.keys
    ensures t.Valid() ==> u.Valid()
  {
    t.AddColumn(ForeignColumn(env, first)).AddColumn(ForeignColumn(env, second))
  }

  /** `getTable`: the registered table of that prefixed name, else a new one with the default engine. */
  function GetTable(s: Schema, env: Env, unprefixed: string): (t: Table)
    ensures s.HasTable(env.prefix + unprefixed) ==> t == s.tables.entries[env.prefix + unprefixed]
    ensures !s.HasTable(env.prefix + unprefixed) ==>
      t.name == env.prefix + unprefixed && t.engine == Some(env.engine) && t.Columns() == [] && t.Keys() == []
    ensures s.Valid() ==> t.Valid() && t.name == env.prefix + unprefixed
    ensures forall n :: LacksColumn(s, env.prefix + unprefixed, n) ==> !t.HasColumn(n)
  {
    match s.GetTable(env.prefix + unprefixed)
    case Some(t) => t
    case None => NewTable(env.prefix + unprefixed).SetEngine(Some(env.engine))
  }

  // ---------------------------------------------------------------------
  // processModel, step by step
  // ---------------------------------------------------------------------

  /** `processModel`, the primary table: register it; with a `primary`, add its column and PRIMARY key. */
  function AddPrimary(s: Schema, env: Env, def: ModelDef): (r: Schema)
    ensures s.Valid() ==> r.Valid()
    ensures r.HasTable(PrimaryTableName(env, def))
    ensures IsSet(def.options, "primary") ==>
      r.tables.entries[PrimaryTableName(env, def)].GetKey("PRIMARY")
        == Some(Key(PrimaryKey, "PRIMARY", [PrimaryName(def)]))
  {
    var name := PrimaryTableName(env, def);
    var s1 := s.AddTable(GetTable(s, env, def.table));
    if IsSet(def.options, "primary") then
      AddKeyIn(AddColumnIn(s1, name, PrimaryColumn(env, def)), name, Key(PrimaryKey, "PRIMARY", [PrimaryName(def)]))
    else s1
  }

  /** The PRIMARY key of the `_lang` table: the primary, `id_lang`, and `id_shop` for `multilang_shop`. */
  function LangKey(def: ModelDef): (k: Key)
    ensures k.kind == PrimaryKey && k.name == "PRIMARY"
    ensures !CheckOption(def.options, "multilang_shop") ==> k.columns == [PrimaryName(def), "id_lang"]
    ensures CheckOption(def.options, "multilang_shop") ==> k.columns == [PrimaryName(def), "id_lang", "id_shop"]
  {
    var k := Key(PrimaryKey, "PRIMARY", [PrimaryName(def), "id_lang"]);
    if CheckOption(def.options, "multilang_shop") then k.AddColumn("id_shop") else k
  }

  /** The `id_shop` column of a `_lang` table, defaulting to '1'. */
  function LangShopColumn(env: Env): (c: Column)
    ensures c.name == "id_shop" && c.defaultValue == Some("1") && !c.nullable
  {
    ForeignColumn(env, "id_shop").(defaultValue := Some("1"))
  }

  /** `processModel` for a multilang model: the `_lang` table with its columns and key. */
  function AddLangTable(s: Schema, env: Env, def: ModelDef): (r: Schema)
    ensures s.Valid() ==> r.Valid()
    ensures s.Valid() ==> r.HasTable(LangTableName(env, def))
    ensures s.Valid() ==> r.tables.entries[LangTableName(env, def)].GetKey("PRIMARY") == Some(LangKey(def))
    ensures s.Valid() ==> forall n :: n != LangTableName(env, def) ==> r.GetTable(n) == s.GetTable(n)
    ensures s.Valid() && LacksColumn(s, LangTableName(env, def), PrimaryName(def)) ==>
      HoldsColumn(r, LangTableName(env, def), ForeignColumn(env, PrimaryName(def)))
    ensures s.Valid() && LacksColumn(s, LangTableName(env, def), "id_lang") ==>
      HoldsColumn(r, LangTableName(env, def), ForeignColumn(env, "id_lang"))
  {
    var t := GetTable(s, env, def.table + "_lang");
    var t1 := AddForeignPair(t, env, PrimaryName(def), "id_lang");
    var t2 := if CheckOption(def.options, "multilang_shop") then t1.AddColumn(LangShopColumn(env)) else t1;
    assert t2.GetColumn(PrimaryName(def)) == t1.GetColumn(PrimaryName(def));
    assert t2.GetColumn("id_lang") == t1.GetColumn("id_lang");
    s.AddTable(t2.AddKey(LangKey(def)))
  }

  /** `processModel` for a shop-associated model: the `_shop` table with its columns and key. */
  function AddShopTable(s: Schema, env: Env, def: ModelDef): (r: Schema)
    ensures s.Valid() ==> r.Valid()
    ensures s.Valid() ==> r.HasTable(ShopTableName(env, def))
    ensures s.Valid() ==>
      r.tables.entries[ShopTableName(env, def)].GetKey("PRIMARY") == Some(Key(PrimaryKey, "PRIMARY", [PrimaryName(def), "id_shop"]))
    ensures s.Valid() ==> forall n :: n != ShopTableName(env, def) ==> r.GetTable(n) == s.GetTable(n)
    ensures s.Valid() && LacksColumn(s, ShopTableName(env, def), PrimaryName(def)) ==>
      HoldsColumn(r, ShopTableName(env, def), ForeignColumn(env, PrimaryName(def)))
    ensures s.Valid() && LacksColumn(s, ShopTableName(env, def), "id_shop") ==>
      HoldsColumn(r, ShopTableName(env, def), ForeignColumn(env, "id_shop"))
  {
    var t := GetTable(s, env, def.table + "_shop");
    var t1 := AddForeignPair(t, env, PrimaryName(def), "id_shop");
    s.AddTable(t1.AddKey(Key(PrimaryKey, "PRIMARY", [PrimaryName(def), "id_shop"])))
  }

  /**
   * The tables that receive a field's column: only the `_lang` table for a
   * `lang` field of a multilang model; the `_shop` table, and the primary
   * table unless `shopOnly`, for a `shop` field of a shop-associated model;
   * otherwise the primary table.
   */
  function Placement(env: Env, def: ModelDef, o: Options, hasLang: bool, hasShop: bool): set<string> {
    if hasLang && CheckOption(o, "lang") then {LangTableName(env, def)}
    else if hasShop && CheckOption(o, "shop") then
      if CheckOption(o, "shopOnly") then {ShopTableName(env, def)}
      else {PrimaryTableName(env, def), ShopTableName(env, def)}
    else {PrimaryTableName(env, def)}
  }

  /** `processModel`, the fields loop: add the column to the tables it belongs to. */
  function PlaceColumn(s: Schema, env: Env, def: ModelDef, c: Column, o: Options, hasLang: bool, hasShop: bool): (r: Schema)
    ensures s.Valid() ==> r.Valid()
  {
    if hasLang && CheckOption(o, "lang") then AddColumnIn(s, LangTableName(env, def), c)
    else if hasShop && CheckOption(o, "shop") then
      var s1 := if !CheckOption(o, "shopOnly") then AddColumnIn(s, PrimaryTableName(env, def), c) else s;
      AddColumnIn(s1, ShopTableName(env, def), c)
    else AddColumnIn(s, PrimaryTableName(env, def), c)
  }

  /** `processModel`, the fields loop: a field's UNIQUE key, named by a string `unique` option or else by the field. */
  function FieldUniqueKey(f: FieldDef): (k: Key)
    requires CheckOption(f.options, "unique")
    ensures k.kind == UniqueKey && k.columns == [f.name]
    ensures f.options["unique"].Str? ==> k.name == f.options["unique"].s
    ensures !f.options["unique"].Str? ==> k.name == f.name
  {
    var name := match GetOption(f.options, "unique", Bool(false)) case Str(n) => n case _ => f.name;
    Key(UniqueKey, name, [f.name])
  }

  /** One field: its column, placed, and its unique key on the primary table. */
  function AddField(s: Schema, env: Env, def: ModelDef, hasLang: bool, hasShop: bool, f: FieldDef): (r: Result<Schema, BuildError>)
    ensures r.Failure? <==> GetDataType(f, def.model, env.limits).Failure?
    ensures s.Valid() && r.Success? ==> r.value.Valid()
  {
    var dataType :- GetDataType(f, def.model, env.limits);
    var s1 := PlaceColumn(s, env, def, FieldColumn(env, f, dataType), f.options, hasLang, hasShop);
    if CheckOption(f.options, "unique") then Success(AddKeyIn(s1, PrimaryTableName(env, def), FieldUniqueKey(f)))
    else Success(s1)
  }

  /** `processModel`, the fields loop: the fields in order; the first field without a column type aborts the build. */
  function AddFields(s: Schema, env: Env, def: ModelDef, hasLang: bool, hasShop: bool, fields: seq<FieldDef>): (r: Result<Schema, BuildError>)
    decreases |fields|
    ensures r.Failure? <==> exists f :: f in fields && GetDataType(f, def.model, env.limits).Failure?
    ensures s.Valid() && r.Success? ==> r.value.Valid()
  {
    if fields == [] then Success(s)
    else
      var s1 :- AddField(s, env, def, hasLang, hasShop, fields[0]);
      assert forall f :: f in fields[1..] ==> f in fields;
      AddFields(s1, env, def, hasLang, hasShop, fields[1..])
  }

  /** The prefixed name of an association's `joinTable`. */
  function JoinTableName(env: Env, a: Association): string {
    env.prefix + StrOf(GetOption(a.options, "joinTable", Null))
  }

  /** The join table's column for the model's side: `joinSourceField`, else the model's primary. */
  function JoinSource(def: ModelDef, a: Association): string {
    StrOf(GetOption(a.options, "joinSourceField", Str(PrimaryName(def))))
  }

  /**
   * The join table's column for the other side: `joinTargetField`, else the
   * primary of the associated model, named by `object` or by the association.
   */
  function JoinTarget(env: Env, a: Association): string {
    var o := a.options;
    var targetModel := if IsSet(o, "object") then StrOf(o["object"]) else env.toCamelCase(a.name);
    StrOf(GetOption(o, "joinTargetField", Str(env.primaryOf(targetModel))))
  }

  /**
   * `processModel`, the associations loop: a join table holding a reference
   * column for each side of the association; without `joinTable` nothing changes.
   */
  function AddAssociation(s: Schema, env: Env, def: ModelDef, a: Association): (r: Schema)
    ensures s.Valid() ==> r.Valid()
    ensures !CheckOption(a.options, "joinTable") ==> r == s
    ensures CheckOption(a.options, "joinTable") ==> r.HasTable(JoinTableName(env, a))
    ensures s.Valid() ==> forall n :: n != JoinTableName(env, a) ==> r.GetTable(n) == s.GetTable(n)
    ensures s.Valid() && CheckOption(a.options, "joinTable") && LacksColumn(s, JoinTableName(env, a), JoinSource(def, a)) ==>
      HoldsColumn(r, JoinTableName(env, a), ForeignColumn(env, JoinSource(def, a)))
    ensures s.Valid() && CheckOption(a.options, "joinTable") && LacksColumn(s, JoinTableName(env, a), JoinTarget(env, a)) ==>
      HoldsColumn(r, JoinTableName(env, a), ForeignColumn(env, JoinTarget(env, a)))
  {
    if CheckOption(a.options, "joinTable") then
      var t := GetTable(s, env, StrOf(GetOption(a.options, "joinTable", Null)));
      s.AddTable(AddForeignPair(t, env, JoinSource(def, a), JoinTarget(env, a)))
    else s
  }

  function AddAssociations(s: Schema, env: Env, def: ModelDef, associations: seq<Association>): (r: Schema)
    decreases |associations|
    ensures s.Valid() ==> r.Valid()
  {
    if associations == [] then s
    else AddAssociations(AddAssociation(s, env, def, associations[0]), env, def, associations[1..])
  }

  /** The key a declaration stands for. */
  function KeyOf(d: KeyDef): (k: Key)
    ensures k.name == d.name && k.kind == d.kind && k.columns == d.columns
  {
    Key(d.kind, d.name, d.columns)
  }

  /** The last declaration named `n` in `keys`, if any. */
  function LastDeclared(keys: seq<KeyDef>, n: string): (r: Option<KeyDef>)
    ensures r.Some? <==> exists d :: d in keys && d.name == n
    ensures r.Some? ==> r.value in keys && r.value.name == n
  {
    if keys == [] then None
    else if keys[|keys| - 1].name == n then Some(keys[|keys| - 1])
    else
      var r := LastDeclared(keys[..|keys| - 1], n);
      assert forall d :: d in keys <==> d in keys[..|keys| - 1] || d == keys[|keys| - 1] by {
        assert keys == keys[..|keys| - 1] + [keys[|keys| - 1]];
      }
      r
  }

  /** The key named `n` after `keys` are declared over `before`: the last declaration wins. */
  function DeclaredOr(before: Option<Key>, keys: seq<KeyDef>, n: string): Option<Key> {
    match LastDeclared(keys, n)
    case Some(d) => Some(KeyOf(d))
    case None => before
  }

  /** The keys that `groups` declare for the prefixed table `name`, in declaration order. */
  function KeysFor(env: Env, groups: seq<TableKeys>, name: string): seq<KeyDef>
    decreases |groups|
  {
    if groups == [] then []
    else (if env.prefix + groups[0].table == name then groups[0].keys else []) + KeysFor(env, groups[1..], name)
  }

  /** The declared keys of one table, in order, last declaration of a name winning. */
  function AddKeysIn(s: Schema, name: string, keys: seq<KeyDef>): (r: Schema)
    decreases |keys|
    ensures s.Valid() ==> r.Valid()
    ensures forall n :: n != name ==> r.GetTable(n) == s.GetTable(n)
    ensures r.HasTable(name) <==> s.HasTable(name)
  {
    if keys == [] then s
    else AddKeysIn(AddKeyIn(s, name, KeyOf(keys[0])), name, keys[1..])
  }

  /**
   * `processModel`, the keys loop: each group's keys on the registered table
   * of that prefixed name; a group with keys for an unregistered table is the
   * fatal null dereference.
   */
  function AddExplicitKeys(s: Schema, env: Env, groups: seq<TableKeys>): (r: Result<Schema, BuildError>)
    decreases |groups|
    ensures s.Valid() && r.Success? ==> r.value.Valid()
    ensures r.Failure? ==> r.error.UnknownTable?
    ensures r.Failure? ==>
      exists g :: g in groups && g.keys != [] && !s.HasTable(env.prefix + g.table) && r.error == UnknownTable(env.prefix + g.table)
    ensures (forall g :: g in groups ==> g.keys == [] || s.HasTable(env.prefix + g.table)) ==> r.Success?
    ensures r.Failure? <==> exists g :: g in groups && g.keys != [] && !s.HasTable(env.prefix + g.table)
    ensures r.Success? ==> forall n :: r.value.HasTable(n) <==> s.HasTable(n)
  {
    if groups == [] then Success(s)
    else
      var g := groups[0];
      var name := env.prefix + g.table;
      assert forall h :: h in groups <==> h == g || h in groups[1..] by {
        assert groups == [g] + groups[1..];
      }
      if g.keys == [] then AddExplicitKeys(s, env, groups[1..])
      else if !s.HasTable(name) then Failure(UnknownTable(name))
      else
        var s1 := AddKeysIn(s, name, g.keys);
        assert forall n :: s1.HasTable(n) <==> s.HasTable(n) by {
          forall n ensures s1.HasTable(n) <==> s.HasTable(n) {
            if n != name {
              assert s1.GetTable(n) == s.GetTable(n);
            }
          }
        }
        AddExplicitKeys(s1, env, groups[1..])
  }

  /** Whether the model gets a `_lang` table. */
  predicate HasLang(def: ModelDef) {
    CheckOption(def.options, "multilang")
  }

  /** Whether the model gets a `_shop` table. */
  predicate HasShop(env: Env, def: ModelDef) {
    env.isTableAssociated(def.table) || CheckOption(def.options, "multishop")
  }

  /** `processModel`, the tables: the primary table, then the `_lang` and `_shop` tables the model asks for. */
  function AddModelTables(s: Schema, env: Env, def: ModelDef): (r: Schema)
    ensures s.Valid() ==> r.Valid()
  {
    var s1 := AddPrimary(s, env, def);
    var s2 := if HasLang(def) then AddLangTable(s1, env, def) else s1;
    if HasShop(env, def) then AddShopTable(s2, env, def) else s2
  }

  /** `processModel`, the loops: the fields, the associations' join tables and the declared keys. */
  function AddModelContents(s: Schema, env: Env, def: ModelDef): (r: Result<Schema, BuildError>)
    ensures s.Valid() && r.Success? ==> r.value.Valid()
    ensures (exists f :: f in def.fields && GetDataType(f, def.model, env.limits).Failure?) ==> r.Failure?
  {
    var s1 :- AddFields(s, env, def, HasLang(def), HasShop(env, def), def.fields);
    AddExplicitKeys(AddAssociations(s1, env, def, def.associations), env, def.keys)
  }

  /** `processModel`: the tables, then the fields, associations and keys loops. */
  function ProcessModel(s: Schema, env: Env, def: ModelDef): (r: Result<Schema, BuildError>)
    ensures s.Valid() && r.Success? ==> r.value.Valid()
    ensures (exists f :: f in def.fields && GetDataType(f, def.model, env.limits).Failure?) ==> r.Failure?
  {
    AddModelContents(AddModelTables(s, env, def), env, def)
  }

  /** Every definition in order, from an empty schema; the first error aborts. */
  function BuildSchema(env: Env, defs: seq<ModelDef>): (r: Result<Schema, BuildError>)
    ensures r.Success? ==> r.value.Valid()
  {
    BuildFrom(EmptySchema(), env, defs)
  }

  function BuildFrom(s: Schema, env: Env, defs: seq<ModelDef>): (r: Result<Schema, BuildError>)
    decreases |defs|
    ensures s.Valid() && r.Success? ==> r.value.Valid()
  {
    if defs == [] then Success(s)
    else
      var s1 :- ProcessModel(s, env, defs[0]);
      BuildFrom(s1, env, defs[1..])
  }
}
