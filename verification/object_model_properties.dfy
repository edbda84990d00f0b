/**
 * What `processModel` promises about the schema it builds: the tables it
 * registers, the keys it declares, where each field's column lands, and
 * that a column, once in a table, stays as it was (columns are
 * first-write-wins, and no step removes a table).
 */
module ObjectModelProperties {
  import opened Wrappers
  import opened Strings
  import opened Php
  import opened TableSchema
  import opened DatabaseSchema
  import opened ObjectModelBuilder

  /** The table `getTable` returns keeps the columns of the registered table of that name. */
  lemma GetTableKeeps(s: Schema, env: Env, unprefixed: string)
    requires s.Valid()
    ensures GetTable(s, env, unprefixed).name == env.prefix + unprefixed
    ensures s.HasTable(env.prefix + unprefixed) ==>
      ColumnsKept(s.tables.entries[env.prefix + unprefixed], GetTable(s, env, unprefixed))
  {
  }

  lemma {:induction false} AddPrimaryGrows(s: Schema, env: Env, def: ModelDef)
    requires s.Valid()
    ensures Grows(s, AddPrimary(s, env, def))
  {
    var name := PrimaryTableName(env, def);
    GetTableKeeps(s, env, def.table);
    var s1 := s.AddTable(GetTable(s, env, def.table));
    AddTableGrows(s, GetTable(s, env, def.table));
    if IsSet(def.options, "primary") {
      var s2 := AddColumnIn(s1, name, PrimaryColumn(env, def));
      AddColumnInGrows(s1, name, PrimaryColumn(env, def));
      AddKeyInGrows(s2, name, Key(PrimaryKey, "PRIMARY", [PrimaryName(def)]));
      GrowsTrans(s, s1, s2);
      GrowsTrans(s, s2, AddPrimary(s, env, def));
    }
  }

  lemma {:induction false} AddLangTableGrows(s: Schema, env: Env, def: ModelDef)
    requires s.Valid()
    ensures Grows(s, AddLangTable(s, env, def))
  {
    var t := GetTable(s, env, def.table + "_lang");
    GetTableKeeps(s, env, def.table + "_lang");
    var t0 := t.AddColumn(ForeignColumn(env, PrimaryName(def)));
    var t1 := t0.AddColumn(ForeignColumn(env, "id_lang"));
    AddColumnKeeps(t, ForeignColumn(env, PrimaryName(def)));
    AddColumnKeeps(t0, ForeignColumn(env, "id_lang"));
    ColumnsKeptTrans(t, t0, t1);
    var t2 := if CheckOption(def.options, "multilang_shop") then t1.AddColumn(LangShopColumn(env)) else t1;
    AddColumnKeeps(t1, LangShopColumn(env));
    ColumnsKeptTrans(t, t1, t2);
    AddKeyKeeps(t2, LangKey(def));
    ColumnsKeptTrans(t, t2, t2.AddKey(LangKey(def)));
    if s.HasTable(t.name) {
      ColumnsKeptTrans(s.tables.entries[t.name], t, t2.AddKey(LangKey(def)));
    }
    AddTableGrows(s, t2.AddKey(LangKey(def)));
  }

  lemma {:induction false} AddShopTableGrows(s: Schema, env: Env, def: ModelDef)
    requires s.Valid()
    ensures Grows(s, AddShopTable(s, env, def))
  {
    var t := GetTable(s, env, def.table + "_shop");
    GetTableKeeps(s, env, def.table + "_shop");
    var t0 := t.AddColumn(ForeignColumn(env, PrimaryName(def)));
    var t1 := t0.AddColumn(ForeignColumn(env, "id_shop"));
    var k := Key(PrimaryKey, "PRIMARY", [PrimaryName(def), "id_shop"]);
    AddColumnKeeps(t, ForeignColumn(env, PrimaryName(def)));
    AddColumnKeeps(t0, ForeignColumn(env, "id_shop"));
    ColumnsKeptTrans(t, t0, t1);
    AddKeyKeeps(t1, k);
    ColumnsKeptTrans(t, t1, t1.AddKey(k));
    if s.HasTable(t.name) {
      ColumnsKeptTrans(s.tables.entries[t.name], t, t1.AddKey(k));
    }
    AddTableGrows(s, t1.AddKey(k));
  }

  lemma {:induction false} PlaceColumnGrows(s: Schema, env: Env, def: ModelDef, c: Column, o: Options, hasLang: bool, hasShop: bool)
    ensures Grows(s, PlaceColumn(s, env, def, c, o, hasLang, hasShop))
  {
    if hasLang && CheckOption(o, "lang") {
      AddColumnInGrows(s, LangTableName(env, def), c);
    } else if hasShop && CheckOption(o, "shop") {
      var s1 := if !CheckOption(o, "shopOnly") then AddColumnIn(s, PrimaryTableName(env, def), c) else s;
      AddColumnInGrows(s, PrimaryTableName(env, def), c);
      AddColumnInGrows(s1, ShopTableName(env, def), c);
      GrowsTrans(s, s1, AddColumnIn(s1, ShopTableName(env, def), c));
    } else {
      AddColumnInGrows(s, PrimaryTableName(env, def), c);
    }
  }

  lemma {:induction false} AddFieldGrows(s: Schema, env: Env, def: ModelDef, hasLang: bool, hasShop: bool, f: FieldDef)
    requires AddField(s, env, def, hasLang, hasShop, f).Success?
    ensures Grows(s, AddField(s, env, def, hasLang, hasShop, f).value)
  {
    var dataType := GetDataType(f, def.model, env.limits).value;
    var c := FieldColumn(env, f, dataType);
    var s1 := PlaceColumn(s, env, def, c, f.options, hasLang, hasShop);
    PlaceColumnGrows(s, env, def, c, f.options, hasLang, hasShop);
    if CheckOption(f.options, "unique") {
      AddKeyInGrows(s1, PrimaryTableName(env, def), FieldUniqueKey(f));
      GrowsTrans(s, s1, AddKeyIn(s1, PrimaryTableName(env, def), FieldUniqueKey(f)));
    }
  }

  lemma {:induction false} AddFieldsGrows(s: Schema, env: Env, def: ModelDef, hasLang: bool, hasShop: bool, fields: seq<FieldDef>)
    requires AddFields(s, env, def, hasLang, hasShop, fields).Success?
    ensures Grows(s, AddFields(s, env, def, hasLang, hasShop, fields).value)
    decreases |fields|
  {
    if fields != [] {
      var s1 := AddField(s, env, def, hasLang, hasShop, fields[0]).value;
      AddFieldGrows(s, env, def, hasLang, hasShop, fields[0]);
      AddFieldsGrows(s1, env, def, hasLang, hasShop, fields[1..]);
      GrowsTrans(s, s1, AddFields(s, env, def, hasLang, hasShop, fields).value);
    }
  }

  lemma {:induction false} AddAssociationGrows(s: Schema, env: Env, def: ModelDef, a: Association)
    requires s.Valid()
    ensures Grows(s, AddAssociation(s, env, def, a))
  {
    var o := a.options;
    if CheckOption(o, "joinTable") {
      var t := GetTable(s, env, StrOf(o["joinTable"]));
      GetTableKeeps(s, env, StrOf(o["joinTable"]));
      var source := StrOf(GetOption(o, "joinSourceField", Str(PrimaryName(def))));
      var targetModel := if IsSet(o, "object") then StrOf(o["object"]) else env.toCamelCase(a.name);
      var target := StrOf(GetOption(o, "joinTargetField", Str(env.primaryOf(targetModel))));
      var t0 := t.AddColumn(ForeignColumn(env, source));
      var t1 := t0.AddColumn(ForeignColumn(env, target));
      AddColumnKeeps(t, ForeignColumn(env, source));
      AddColumnKeeps(t0, ForeignColumn(env, target));
      ColumnsKeptTrans(t, t0, t1);
      if s.HasTable(t.name) {
        ColumnsKeptTrans(s.tables.entries[t.name], t, t1);
      }
      AddTableGrows(s, t1);
    }
  }

  lemma {:induction false} AddAssociationsGrows(s: Schema, env: Env, def: ModelDef, associations: seq<Association>)
    requires s.Valid()
    ensures Grows(s, AddAssociations(s, env, def, associations))
    decreases |associations|
  {
    if associations != [] {
      var s1 := AddAssociation(s, env, def, associations[0]);
      AddAssociationGrows(s, env, def, associations[0]);
      AddAssociationsGrows(s1, env, def, associations[1..]);
      GrowsTrans(s, s1, AddAssociations(s, env, def, associations));
    }
  }

  lemma {:induction false} AddKeysInGrows(s: Schema, name: string, keys: seq<KeyDef>)
    ensures Grows(s, AddKeysIn(s, name, keys))
    decreases |keys|
  {
    if keys != [] {
      var s1 := AddKeyIn(s, name, Key(keys[0].kind, keys[0].name, keys[0].columns));
      AddKeyInGrows(s, name, Key(keys[0].kind, keys[0].name, keys[0].columns));
      AddKeysInGrows(s1, name, keys[1..]);
      GrowsTrans(s, s1, AddKeysIn(s, name, keys));
    }
  }

  lemma {:induction false} AddExplicitKeysGrows(s: Schema, env: Env, groups: seq<TableKeys>)
    requires AddExplicitKeys(s, env, groups).Success?
    ensures Grows(s, AddExplicitKeys(s, env, groups).value)
    decreases |groups|
  {
    if groups != [] {
      var g := groups[0];
      var name := env.prefix + g.table;
      if g.keys == [] {
        AddExplicitKeysGrows(s, env, groups[1..]);
      } else {
        var s1 := AddKeysIn(s, name, g.keys);
        AddKeysInGrows(s, name, g.keys);
        AddExplicitKeysGrows(s1, env, groups[1..]);
        GrowsTrans(s, s1, AddExplicitKeys(s, env, groups).value);
      }
    }
  }

  lemma {:induction false} AddModelTablesGrows(s: Schema, env: Env, def: ModelDef)
    requires s.Valid()
    ensures Grows(s, AddModelTables(s, env, def))
  {
    var s1 := AddPrimary(s, env, def);
    AddPrimaryGrows(s, env, def);
    var s2 := s1;
    if HasLang(def) {
      s2 := AddLangTable(s1, env, def);
      AddLangTableGrows(s1, env, def);
      GrowsTrans(s, s1, s2);
    }
    assert Grows(s, s2) && s2.Valid();
    if HasShop(env, def) {
      AddShopTableGrows(s2, env, def);
      GrowsTrans(s, s2, AddShopTable(s2, env, def));
    }
  }

  /** The primary table, and the `_lang` and `_shop` tables the model asks for, are registered. */
  lemma {:induction false} AddModelTablesRegisters(s: Schema, env: Env, def: ModelDef)
    requires s.Valid()
    ensures AddModelTables(s, env, def).HasTable(PrimaryTableName(env, def))
    ensures HasLang(def) ==> AddModelTables(s, env, def).HasTable(LangTableName(env, def))
    ensures HasShop(env, def) ==> AddModelTables(s, env, def).HasTable(ShopTableName(env, def))
  {
    var s1 := AddPrimary(s, env, def);
    var s2 := if HasLang(def) then AddLangTable(s1, env, def) else s1;
    AddLangTableGrows(s1, env, def);
    AddShopTableGrows(s2, env, def);
  }

  lemma {:induction false} AddModelContentsGrows(s: Schema, env: Env, def: ModelDef)
    requires s.Valid() && AddModelContents(s, env, def).Success?
    ensures Grows(s, AddModelContents(s, env, def).value)
  {
    var s1 := AddFields(s, env, def, HasLang(def), HasShop(env, def), def.fields).value;
    AddFieldsGrows(s, env, def, HasLang(def), HasShop(env, def), def.fields);
    var s2 := AddAssociations(s1, env, def, def.associations);
    AddAssociationsGrows(s1, env, def, def.associations);
    GrowsTrans(s, s1, s2);
    AddExplicitKeysGrows(s2, env, def.keys);
    GrowsTrans(s, s2, AddModelContents(s, env, def).value);
  }

  /** Every step of `processModel` only adds: no table disappears and no column changes. */
  lemma ProcessModelGrows(s: Schema, env: Env, def: ModelDef)
    requires s.Valid() && ProcessModel(s, env, def).Success?
    ensures Grows(s, ProcessModel(s, env, def).value)
  {
    var s1 := AddModelTables(s, env, def);
    AddModelTablesGrows(s, env, def);
    AddModelContentsGrows(s1, env, def);
    GrowsTrans(s, s1, ProcessModel(s, env, def).value);
  }

  /**
   * A processed model has its primary table, its `_lang` table when it is
   * multilang, and its `_shop` table when it is shop-associated or multishop.
   */
  lemma ProcessModelRegisters(s: Schema, env: Env, def: ModelDef)
    requires s.Valid() && ProcessModel(s, env, def).Success?
    ensures ProcessModel(s, env, def).value.HasTable(PrimaryTableName(env, def))
    ensures HasLang(def) ==> ProcessModel(s, env, def).value.HasTable(LangTableName(env, def))
    ensures HasShop(env, def) ==> ProcessModel(s, env, def).value.HasTable(ShopTableName(env, def))
  {
    AddModelTablesRegisters(s, env, def);
    AddModelContentsGrows(AddModelTables(s, env, def), env, def);
  }

  /** With a `primary`, the primary column is in the primary table unless a column of that name was already there. */
  lemma AddPrimaryColumn(s: Schema, env: Env, def: ModelDef)
    requires s.Valid() && IsSet(def.options, "primary")
    requires !(s.HasTable(PrimaryTableName(env, def)) && s.tables.entries[PrimaryTableName(env, def)].HasColumn(PrimaryName(def)))
    ensures HoldsColumn(AddPrimary(s, env, def), PrimaryTableName(env, def), PrimaryColumn(env, def))
  {
    var name := PrimaryTableName(env, def);
    var s1 := s.AddTable(GetTable(s, env, def.table));
    var s2 := AddColumnIn(s1, name, PrimaryColumn(env, def));
    assert HoldsColumn(s2, name, PrimaryColumn(env, def));
    AddKeyInGrows(s2, name, Key(PrimaryKey, "PRIMARY", [PrimaryName(def)]));
    GrowsHolds(s2, AddPrimary(s, env, def), name, PrimaryColumn(env, def));
  }

  /**
   * The primary column of a model survives the whole of `processModel`:
   * a field of the same name cannot replace it.
   */
  lemma ProcessModelKeepsPrimaryColumn(s: Schema, env: Env, def: ModelDef)
    requires s.Valid() && IsSet(def.options, "primary") && ProcessModel(s, env, def).Success?
    requires !(s.HasTable(PrimaryTableName(env, def)) && s.tables.entries[PrimaryTableName(env, def)].HasColumn(PrimaryName(def)))
    ensures HoldsColumn(ProcessModel(s, env, def).value, PrimaryTableName(env, def), PrimaryColumn(env, def))
  {
    AddPrimaryColumn(s, env, def);
    var s1 := AddPrimary(s, env, def);
    var s2 := s1;
    if HasLang(def) {
      s2 := AddLangTable(s1, env, def);
      AddLangTableGrows(s1, env, def);
    }
    GrowsHolds(s1, s2, PrimaryTableName(env, def), PrimaryColumn(env, def));
    var s3 := s2;
    if HasShop(env, def) {
      s3 := AddShopTable(s2, env, def);
      AddShopTableGrows(s2, env, def);
    }
    GrowsHolds(s2, s3, PrimaryTableName(env, def), PrimaryColumn(env, def));
    assert s3 == AddModelTables(s, env, def);
    AddModelContentsGrows(s3, env, def);
    GrowsHolds(s3, ProcessModel(s, env, def).value, PrimaryTableName(env, def), PrimaryColumn(env, def));
  }

  /** Processing more definitions only adds tables and columns. */
  lemma {:induction false} BuildFromGrows(s: Schema, env: Env, defs: seq<ModelDef>)
    requires s.Valid() && BuildFrom(s, env, defs).Success?
    ensures Grows(s, BuildFrom(s, env, defs).value)
    decreases |defs|
  {
    if defs != [] {
      var s1 := ProcessModel(s, env, defs[0]).value;
      ProcessModelGrows(s, env, defs[0]);
      BuildFromGrows(s1, env, defs[1..]);
      GrowsTrans(s, s1, BuildFrom(s, env, defs).value);
    }
  }

  /** A schema built from definitions has the primary table of each of them. */
  lemma {:induction false} BuildFromRegisters(s: Schema, env: Env, defs: seq<ModelDef>)
    requires s.Valid() && BuildFrom(s, env, defs).Success?
    ensures forall def :: def in defs ==> BuildFrom(s, env, defs).value.HasTable(PrimaryTableName(env, def))
    decreases |defs|
  {
    if defs != [] {
      var s1 := ProcessModel(s, env, defs[0]).value;
      ProcessModelRegisters(s, env, defs[0]);
      BuildFromGrows(s1, env, defs[1..]);
      BuildFromRegisters(s1, env, defs[1..]);
      forall def | def in defs ensures BuildFrom(s, env, defs).value.HasTable(PrimaryTableName(env, def)) {
        if def != defs[0] {
          assert def in defs[1..];
        }
      }
    }
  }

  lemma BuildSchemaRegisters(env: Env, defs: seq<ModelDef>)
    requires BuildSchema(env, defs).Success?
    ensures forall def :: def in defs ==> BuildSchema(env, defs).value.HasTable(PrimaryTableName(env, def))
  {
    BuildFromRegisters(EmptySchema(), env, defs);
  }

  // ---------------------------------------------------------------------
  // Column placement and field keys
  // ---------------------------------------------------------------------

  /**
   * A field's column is added to exactly the registered tables of its
   * placement; every other table is left as it was.
   */
  lemma PlaceColumnExact(s: Schema, env: Env, def: ModelDef, c: Column, o: Options, hasLang: bool, hasShop: bool, n: string)
    ensures n in Placement(env, def, o, hasLang, hasShop) && s.HasTable(n) ==>
      PlaceColumn(s, env, def, c, o, hasLang, hasShop).GetTable(n) == Some(s.tables.entries[n].AddColumn(c))
    ensures n !in Placement(env, def, o, hasLang, hasShop) || !s.HasTable(n) ==>
      PlaceColumn(s, env, def, c, o, hasLang, hasShop).GetTable(n) == s.GetTable(n)
  {
    TableNamesDistinct(env, def);
    if !(hasLang && CheckOption(o, "lang")) && hasShop && CheckOption(o, "shop") && !CheckOption(o, "shopOnly") {
      var s1 := AddColumnIn(s, PrimaryTableName(env, def), c);
      assert s1.GetTable(ShopTableName(env, def)) == s.GetTable(ShopTableName(env, def));
    }
  }

  /** A `lang` field of a multilang model reaches the `_lang` table and neither of the others. */
  lemma LangFieldPlacement(env: Env, def: ModelDef, o: Options, hasShop: bool)
    requires CheckOption(o, "lang")
    ensures LangTableName(env, def) in Placement(env, def, o, true, hasShop)
    ensures PrimaryTableName(env, def) !in Placement(env, def, o, true, hasShop)
    ensures ShopTableName(env, def) !in Placement(env, def, o, true, hasShop)
  {
    TableNamesDistinct(env, def);
  }

  /** A `shop` field of a shop model reaches the `_shop` table, and the primary table unless `shopOnly`. */
  lemma ShopFieldPlacement(env: Env, def: ModelDef, o: Options, hasLang: bool)
    requires CheckOption(o, "shop") && !(hasLang && CheckOption(o, "lang"))
    ensures ShopTableName(env, def) in Placement(env, def, o, hasLang, true)
    ensures PrimaryTableName(env, def) in Placement(env, def, o, hasLang, true) <==> !CheckOption(o, "shopOnly")
    ensures LangTableName(env, def) !in Placement(env, def, o, hasLang, true)
  {
    TableNamesDistinct(env, def);
  }

  /** Any other field reaches only the primary table. */
  lemma OtherFieldPlacement(env: Env, def: ModelDef, o: Options, hasLang: bool, hasShop: bool)
    requires !(hasLang && CheckOption(o, "lang")) && !(hasShop && CheckOption(o, "shop"))
    ensures Placement(env, def, o, hasLang, hasShop) == {PrimaryTableName(env, def)}
  {
  }

  /** A `unique` field declares its key on the primary table. */
  lemma AddFieldUniqueKey(s: Schema, env: Env, def: ModelDef, hasLang: bool, hasShop: bool, f: FieldDef)
    requires AddField(s, env, def, hasLang, hasShop, f).Success?
    requires CheckOption(f.options, "unique") && s.HasTable(PrimaryTableName(env, def))
    ensures AddField(s, env, def, hasLang, hasShop, f).value.GetTable(PrimaryTableName(env, def)).Some?
    ensures AddField(s, env, def, hasLang, hasShop, f).value.GetTable(PrimaryTableName(env, def)).value
      .GetKey(FieldUniqueKey(f).name) == Some(FieldUniqueKey(f))
  {
    var dataType := GetDataType(f, def.model, env.limits).value;
    var c := FieldColumn(env, f, dataType);
    PlaceColumnGrows(s, env, def, c, f.options, hasLang, hasShop);
  }

  /**
   * With `multilang_shop`, the `_lang` table gets the `id_shop` column
   * defaulting to '1', unless a column of that name was there first.
   */
  lemma LangShopColumnAdded(s: Schema, env: Env, def: ModelDef)
    requires s.Valid() && CheckOption(def.options, "multilang_shop") && PrimaryName(def) != "id_shop"
    requires !(s.HasTable(LangTableName(env, def)) && s.tables.entries[LangTableName(env, def)].HasColumn("id_shop"))
    ensures HoldsColumn(AddLangTable(s, env, def), LangTableName(env, def), LangShopColumn(env))
  {
    var t := GetTable(s, env, def.table + "_lang");
    if !s.HasTable(LangTableName(env, def)) {
      assert t == NewTable(LangTableName(env, def)).SetEngine(Some(env.engine));
    }
    assert !t.HasColumn("id_shop");
    var t0 := t.AddColumn(ForeignColumn(env, PrimaryName(def)));
    assert t0.GetColumn("id_shop") == t.GetColumn("id_shop");
    var t1 := t0.AddColumn(ForeignColumn(env, "id_lang"));
    assert t1.GetColumn("id_shop") == t0.GetColumn("id_shop");
    var t2 := t1.AddColumn(LangShopColumn(env));
    assert t2.GetColumn("id_shop") == Some(LangShopColumn(env));
    var t3 := t2.AddKey(LangKey(def));
    assert t3.columns == t2.columns;
    assert AddLangTable(s, env, def) == s.AddTable(t3);
  }

  // ---------------------------------------------------------------------
  // Column types
  // ---------------------------------------------------------------------

  /** `v` is the natural number `k`, written as an integer or a decimal string. */
  predicate IsNat(v: Value, k: nat) {
    v == Int(k) || v == Str(NatToString(k))
  }

  /** The `size` option is `k`, or is absent and `k` is its default. */
  predicate SizeIs(o: Options, k: nat, default: int) {
    if "size" in o then IsNat(o["size"], k) else k == default
  }

  lemma StrOfNat(v: Value, k: nat)
    requires IsNat(v, k)
    ensures StrOf(v) == NatToString(k)
  {
  }

  /** The integer column type of size `k`. */
  function IntTypeFor(k: nat, unsigned: bool): string {
    (if k == 1 then "tinyint(" else "int(") + NatToString(k) + (if unsigned then ") unsigned" else ")")
  }

  /**
   * An integer field of size `k` (11 when unset) is `tinyint(k)` when `k`
   * is 1 and `int(k)` otherwise, ` unsigned` unless `signed` is truthy.
   */
  lemma IntTypeOfSize(f: FieldDef, model: string, limits: Limits, k: nat)
    requires f.fieldType == TypeInt && !CheckOption(f.options, "dbType") && SizeIs(f.options, k, 11)
    ensures GetDataType(f, model, limits) ==
      Success(IntTypeFor(k, !Truthy(GetOption(f.options, "signed", Bool(false)))))
  {
    var size := GetOption(f.options, "size", Int(11));
    var signed := GetOption(f.options, "signed", Bool(false));
    LooseComparisonNumeric(size, k, 1);
    StrOfNat(size, k);
    var head := if k == 1 then "tinyint" else "int";
    var tail := if Truthy(signed) then "" else " unsigned";
    assert IntTypeString(size, signed) == head + "(" + NatToString(k) + ")" + tail;
    assert head + "(" + NatToString(k) + ")" + tail == (head + "(") + NatToString(k) + (")" + tail);
    assert GetDataType(f, model, limits) == Success(IntTypeString(size, signed));
    assert (head + "(") == (if k == 1 then "tinyint(" else "int(");
    assert (")" + tail) == (if !Truthy(signed) then ") unsigned" else ")");
  }

  /** Reads an integer column type back into its size and whether it is unsigned. */
  function ParseIntType(t: string): Option<(nat, bool)> {
    var rest := if "tinyint(" <= t then t[8..] else if "int(" <= t then t[4..] else "";
    var d := DigitPrefix(rest);
    if !IsDigits(d) then None
    else if rest[|d|..] == ")" then Some((ParseDigits(d), false))
    else if rest[|d|..] == ") unsigned" then Some((ParseDigits(d), true))
    else None
  }

  /** An integer column type records its size and signedness: reading it back gives both. */
  lemma ParseIntTypeFor(k: nat, unsigned: bool)
    ensures ParseIntType(IntTypeFor(k, unsigned)) == Some((k, unsigned))
  {
    var prefix := if k == 1 then "tinyint(" else "int(";
    var tail := if unsigned then ") unsigned" else ")";
    var t := IntTypeFor(k, unsigned);
    var d := NatToString(k);
    assert t == prefix + (d + tail);
    var rest := d + tail;
    if k == 1 {
      assert "tinyint(" <= t && t[8..] == rest;
    } else {
      assert t[0] == 'i';
      assert "int(" <= t && t[4..] == rest;
    }
    DigitPrefixOf(d, tail);
    assert rest[|d|..] == tail;
    ParseNatToString(k);
  }

  /** The type of an integer field determines its size and signedness. */
  lemma IntTypeRoundTrip(f: FieldDef, model: string, limits: Limits, k: nat)
    requires f.fieldType == TypeInt && !CheckOption(f.options, "dbType") && SizeIs(f.options, k, 11)
    ensures GetDataType(f, model, limits).Success?
    ensures ParseIntType(GetDataType(f, model, limits).value)
      == Some((k, !Truthy(GetOption(f.options, "signed", Bool(false)))))
  {
    IntTypeOfSize(f, model, limits, k);
    ParseIntTypeFor(k, !Truthy(GetOption(f.options, "signed", Bool(false))));
  }

  /** The size class of a string column type: 0 for varchar, then text, mediumtext, longtext. */
  function TextRank(t: string): nat {
    if t == "text" then 1 else if t == "mediumtext" then 2 else if t == "longtext" then 3 else 0
  }

  /** A string or HTML field without enum values and without `dbType`. */
  predicate PlainText(f: FieldDef) {
    (f.fieldType == TypeString || f.fieldType == TypeHtml)
    && !CheckOption(f.options, "dbType") && !CheckOption(f.options, "values")
  }

  /**
   * A string field of size `k` (the varchar limit when unset) is
   * `varchar(k)` up to that limit, then `text`, `mediumtext` and
   * `longtext` by the first limit it fits.
   */
  lemma TextTypeOfSize(f: FieldDef, model: string, limits: Limits, k: nat)
    requires PlainText(f) && SizeIs(f.options, k, limits.maxVarchar)
    ensures GetDataType(f, model, limits) == Success(
      if k <= limits.maxVarchar then "varchar(" + NatToString(k) + ")"
      else if k <= limits.text then "text"
      else if k <= limits.mediumText then "mediumtext"
      else "longtext")
  {
    var size := GetOption(f.options, "size", Int(limits.maxVarchar));
    LooseComparisonNumeric(size, k, limits.maxVarchar);
    LooseComparisonNumeric(size, k, limits.text);
    LooseComparisonNumeric(size, k, limits.mediumText);
    StrOfNat(size, k);
  }

  /** A larger size never gives a smaller string type. */
  lemma TextTypeMonotone(f1: FieldDef, f2: FieldDef, model: string, limits: Limits, k1: nat, k2: nat)
    requires PlainText(f1) && SizeIs(f1.options, k1, limits.maxVarchar)
    requires PlainText(f2) && SizeIs(f2.options, k2, limits.maxVarchar)
    requires k1 <= k2
    ensures GetDataType(f1, model, limits).Success? && GetDataType(f2, model, limits).Success?
    ensures TextRank(GetDataType(f1, model, limits).value) <= TextRank(GetDataType(f2, model, limits).value)
  {
    TextTypeOfSize(f1, model, limits, k1);
    TextTypeOfSize(f2, model, limits, k2);
    var v1 := "varchar(" + NatToString(k1) + ")";
    var v2 := "varchar(" + NatToString(k2) + ")";
    assert v1[0] == 'v' && v2[0] == 'v';
    assert TextRank(v1) == 0;
  }

  /** A string field with a non-empty list of `values` is the enum of their string forms. */
  lemma EnumType(f: FieldDef, model: string, limits: Limits, vs: seq<Value>)
    requires f.fieldType == TypeString || f.fieldType == TypeHtml
    requires !CheckOption(f.options, "dbType") && "values" in f.options && f.options["values"] == List(vs) && vs != []
    ensures GetDataType(f, model, limits) == Success("enum('" + Join("','", StrsOf(vs)) + "')")
  {
  }

  /** Of declarations `a` followed by `b`, the last one of a name lies in `b` when `b` declares it. */
  lemma {:induction false} LastDeclaredConcat(a: seq<KeyDef>, b: seq<KeyDef>, n: string)
    ensures LastDeclared(a + b, n) == if LastDeclared(b, n).Some? then LastDeclared(b, n) else LastDeclared(a, n)
    decreases |b|
  {
    if b == [] {
      assert a + b == a;
    } else {
      var ab := a + b;
      assert ab[|ab| - 1] == b[|b| - 1];
      assert ab[..|ab| - 1] == a + b[..|b| - 1];
      LastDeclaredConcat(a, b[..|b| - 1], n);
    }
  }

  /** Declaring `a` and then `b` leaves what declaring `a + b` at once leaves. */
  lemma DeclaredOrConcat(before: Option<Key>, a: seq<KeyDef>, b: seq<KeyDef>, n: string)
    ensures DeclaredOr(DeclaredOr(before, a, n), b, n) == DeclaredOr(before, a + b, n)
  {
    LastDeclaredConcat(a, b, n);
  }

  /**
   * After a table's declared keys are added, each key name reads back as its
   * last declaration, or as before when undeclared; the columns stay as they were.
   */
  lemma {:induction false} AddKeysInDeclared(s: Schema, name: string, keys: seq<KeyDef>, n: string)
    requires s.HasTable(name)
    ensures AddKeysIn(s, name, keys).HasTable(name)
    ensures AddKeysIn(s, name, keys).tables.entries[name].GetKey(n)
      == DeclaredOr(s.tables.entries[name].GetKey(n), keys, n)
    ensures AddKeysIn(s, name, keys).tables.entries[name].columns == s.tables.entries[name].columns
    decreases |keys|
  {
    if keys != [] {
      var s1 := AddKeyIn(s, name, KeyOf(keys[0]));
      assert s1.tables.entries[name] == s.tables.entries[name].AddKey(KeyOf(keys[0]));
      AddKeysInDeclared(s1, name, keys[1..], n);
      DeclaredOrConcat(s.tables.entries[name].GetKey(n), [keys[0]], keys[1..], n);
      assert [keys[0]] + keys[1..] == keys;
    }
  }

  /**
   * After the declared keys of all groups are added, each key of a registered
   * table reads back as the last declaration for that table, or as before.
   */
  lemma {:induction false} AddExplicitKeysDeclared(s: Schema, env: Env, groups: seq<TableKeys>, name: string, n: string)
    requires AddExplicitKeys(s, env, groups).Success? && s.HasTable(name)
    ensures AddExplicitKeys(s, env, groups).value.HasTable(name)
    ensures AddExplicitKeys(s, env, groups).value.tables.entries[name].GetKey(n)
      == DeclaredOr(s.tables.entries[name].GetKey(n), KeysFor(env, groups, name), n)
    decreases |groups|
  {
    if groups != [] {
      var g := groups[0];
      var t := env.prefix + g.table;
      var here := if t == name then g.keys else [];
      assert KeysFor(env, groups, name) == here + KeysFor(env, groups[1..], name);
      if g.keys == [] {
        assert AddExplicitKeys(s, env, groups) == AddExplicitKeys(s, env, groups[1..]);
        assert KeysFor(env, groups, name) == KeysFor(env, groups[1..], name);
        AddExplicitKeysDeclared(s, env, groups[1..], name, n);
      } else {
        var s1 := AddKeysIn(s, t, g.keys);
        assert AddExplicitKeys(s, env, groups) == AddExplicitKeys(s1, env, groups[1..]);
        assert s1.HasTable(name);
        AddExplicitKeysDeclared(s1, env, groups[1..], name, n);
        if t == name {
          AddKeysInDeclared(s, t, g.keys, n);
        } else {
          assert s1.GetTable(name) == s.GetTable(name);
        }
        DeclaredOrConcat(s.tables.entries[name].GetKey(n), here, KeysFor(env, groups[1..], name), n);
      }
    }
  }

  /** The `decimals` option is `d`, or is absent and `d` is its default 6. */
  predicate DecimalsIs(o: Options, d: nat) {
    if "decimals" in o then IsNat(o["decimals"], d) else d == 6
  }

  /** A float or price field of size `k` with `d` decimals is `decimal(k,d)`. */
  lemma DecimalTypeOfSize(f: FieldDef, model: string, limits: Limits, k: nat, d: nat)
    requires f.fieldType == TypeFloat || f.fieldType == TypePrice
    requires !CheckOption(f.options, "dbType") && SizeIs(f.options, k, 20) && DecimalsIs(f.options, d)
    ensures GetDataType(f, model, limits) == Success("decimal(" + NatToString(k) + "," + NatToString(d) + ")")
  {
    StrOfNat(GetOption(f.options, "size", Int(20)), k);
    StrOfNat(GetOption(f.options, "decimals", Int(6)), d);
  }

  /** Without `size` and `decimals`, a float or price field is `decimal(20,6)`. */
  lemma DecimalTypeDefault(f: FieldDef, model: string, limits: Limits)
    requires f.fieldType == TypeFloat || f.fieldType == TypePrice
    requires !CheckOption(f.options, "dbType") && "size" !in f.options && "decimals" !in f.options
    ensures GetDataType(f, model, limits) == Success("decimal(20,6)")
  {
    DecimalTypeOfSize(f, model, limits, 20, 6);
    assert NatToString(20) == "20" by {
      assert NatToString(2) == "2";
    }
    assert NatToString(6) == "6";
    assert "decimal(" + "20" + "," + "6" + ")" == "decimal(20,6)";
  }
}
