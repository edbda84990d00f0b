# Database schema comparison for an e-commerce platform

This project models the schema-checking core of a PHP shop system. The
core compares the database schema the code expects with the schema the
database actually has. It has four parts:

- `TableSchemaCore` is a table: a name, an engine, columns in insertion order
  and keys in insertion order. A column name is kept by the first column
  stored under it. A key name is kept by the last key stored under it.
- `ObjectModelSchemaBuilderCore` builds the *target* schema from
  object-model definitions. Each model gets its primary table. It may also
  get a `_lang` table and a `_shop` table. Every field becomes a column, every
  association with a `joinTable` becomes a join table, and declared keys are
  added to their tables.
- `InformationSchemaBuilderCore` builds the *current* schema from the rows of
  the database catalog (`information_schema`). It reads tables, then columns,
  then constraints, then index statistics.
- `DatabaseSchemaComparatorCore` lists the differences between the two
  schemas. For every target table, in name order, it reports either a
  missing table or the table's own differences. It then reports the extra
  tables of the current schema, in name order. A table's differences come
  in six steps:
  1. the engine;
  2. missing columns;
  3. changed column attributes;
  4. extra columns;
  5. missing keys, then changed keys;
  6. extra keys.

The Dafny modules follow this structure:

- Modules for the data model:
  - `TableSchema` holds tables, columns and keys.
  - `DatabaseSchema` holds a schema's tables.
  - `Differences` holds the difference records.
- Modules for the operations:
  - `Comparator`.
  - `ObjectModelBuilder`.
  - `InformationSchemaBuilder`.
- Each operations module has a properties module:
  - `ComparatorProperties`, and `ComparatorOrder` for the order and
    multiplicity of the comparator's records.
  - `ObjectModelProperties`.
  - `InformationSchemaProperties`.
- Supporting modules:
  - `Wrappers` holds `Option` and `Result`.
  - `NamedMaps` holds name-keyed ordered collections, which stand for PHP's
    ordered arrays.
  - `Strings` holds `strcmp` order, `strpos`, `strtoupper` and decimal
    conversion.
  - `Seqs` holds filtering, sequences without repeats and positions.
  - `Sorting` holds an insertion sort that stands for `usort`.
  - `Php` holds truthiness, string conversion, `isset`/`array_key_exists` and
    loose comparison.

## How PHP behaviour is modelled

**Shared objects.** PHP objects are shared by reference. When the builders
change a table or key they have already registered, the change shows up
inside the schema. The model applies each such change to the entry the
schema holds under that name.

**Errors.** These become a `Failure` with its own error value, and the
surrounding fold stops at the first one:
- a thrown `PrestaShopException`;
- the fatal call on `null`, when a catalog row or a declared key names a
  table that does not exist.

**Environment.** Everything the builder takes from its environment is
passed in an `Env` value:
- the table prefix and the engine;
- `Shop::isTableAssociated`;
- the primary key of another model;
- `Tools::toCamelCase`;
- the `ObjectModel` size limits;
- a freshly constructed column.

**Catalog rows.** The four catalog queries are given as four sequences of
rows. They must already be in the order the queries return them.

## Model

| member | source | states |
|---|---|---|
| TableSchema.NewTable | classes/schema/TableSchema.php:47-52 | a new table has the given name, no engine, and no columns or keys under any name |
| TableSchema.Table.SetEngine | classes/schema/TableSchema.php:74-78 | setting the engine changes nothing but the engine and keeps the table well formed |
| TableSchema.Table.AddColumn | classes/schema/TableSchema.php:84-90 | a column under a new name is appended at the end of the column list and can be read back; a known name leaves the table unchanged; every other name reads as before; keys are untouched |
| TableSchema.Table.GetColumn | classes/schema/TableSchema.php:113-119 | null exactly when no column has that name; otherwise the column stored under that name |
| TableSchema.Table.GetKey | classes/schema/TableSchema.php:124-130 | null exactly when no key has that name; otherwise the key stored under that name |
| TableSchema.Table.AddKey | classes/schema/TableSchema.php:145-149 | the key can be read back under its name; other keys read as before; a known name keeps its position in the key order, a new one goes last; columns are untouched |
| TableSchema.AddColumnFirstWins | classes/schema/TableSchema.php:84-90 | adding a second column under a name that is already taken changes nothing: the name reads as the column that was there before, or as the first one added |
| TableSchema.AddKeyLastWins | classes/schema/TableSchema.php:145-149 | adding a second key under the same name gives the same table as adding only the second one |
| TableSchema.TableNamed | classes/schema/TableSchema.php:95-98 | in a well-formed table, a column is listed by `getColumns` exactly when `getColumn` of its name returns it, and no two listed columns share a name; the same holds for keys and `getKeys` (lines 154-157) |
| Comparator.GetTables | classes/schema/DatabaseSchemaComparator.php:171-183 | the result holds exactly the schema's tables whose names are not ignored, sorted by name; when the names are distinct they are strictly increasing |
| Comparator.MissingColumns | classes/schema/DatabaseSchemaComparator.php:121-130 | the columns of the target whose name the current table lacks, in the target's order; their names stay distinct when the target's are |
| Comparator.MissingKeys | classes/schema/DatabaseSchemaComparator.php:160-169 | the keys of the target whose name the current table lacks, in the target's order; their names stay distinct when the target's are |
| Comparator.MismatchesMembers | classes/schema/DatabaseSchemaComparator.php:137-158 | an attribute is listed as a mismatch exactly when it is among those checked and the two columns disagree on it |
| Comparator.ChecksReportMismatches | classes/schema/DatabaseSchemaComparator.php:141-155 | the four separate checks together report the mismatching attributes in checking order |
| Comparator.ColumnDifferences | classes/schema/DatabaseSchemaComparator.php:137-158 | every record is an attribute difference for the given table and columns, and the columns really disagree on that attribute |
| Comparator.ChangedColumns | classes/schema/DatabaseSchemaComparator.php:86-91 | every record belongs to a target column that the current table has under the same name, and names an attribute on which the two disagree |
| Comparator.ChangedKeys | classes/schema/DatabaseSchemaComparator.php:104-111 | every record pairs a target key with the current key of the same name, and their types or column lists differ |
| Comparator.TableDifferences | classes/schema/DatabaseSchemaComparator.php:70-119 | the records come in the six steps of a table comparison, each step after the one before |
| Comparator.ColumnPhases | classes/schema/DatabaseSchemaComparator.php:76-96 | the engine, missing-column, changed-column and extra-column records come in that order |
| Comparator.KeyPhases | classes/schema/DatabaseSchemaComparator.php:99-116 | the missing-key, changed-key and extra-key records come in that order |
| Comparator.TableEntry | classes/schema/DatabaseSchemaComparator.php:48-53 | a target table the current schema lacks yields exactly one missing-table record; otherwise no missing-table record; never an extra-table record |
| Comparator.ExtraTables | classes/schema/DatabaseSchemaComparator.php:56-60 | a current table yields an extra-table record exactly when the target schema lacks its name |
| Comparator.GetDifferences | classes/schema/DatabaseSchemaComparator.php:42-63 | all extra-table records come after every other record |
| ComparatorProperties.ColumnDifferencesExact | classes/schema/DatabaseSchemaComparator.php:137-158 | a column attribute is reported exactly when the two columns disagree on it |
| ComparatorProperties.ColumnDifferencesOrdered | classes/schema/DatabaseSchemaComparator.php:141-155 | the attribute records follow the checking order: data type, default value, nullability, auto-increment |
| ComparatorProperties.ColumnDifferencesEmptyIffEqual | classes/schema/DatabaseSchemaComparator.php:137-158 | for two columns of the same name, no difference is reported exactly when the columns are equal |
| ComparatorProperties.ChangedColumnsComplete | classes/schema/DatabaseSchemaComparator.php:86-91 | every attribute on which a target column and the current column of its name disagree is reported |
| ComparatorProperties.ChangedKeysExact | classes/schema/DatabaseSchemaComparator.php:104-111 | a changed-key record is produced exactly for each target key whose current namesake differs in type or columns |
| ComparatorProperties.TableDifferencesColumns | classes/schema/DatabaseSchemaComparator.php:76-96 | an engine record appears exactly when the engines differ; a missing-column record exactly for each target column whose name the current table lacks; an extra-column record exactly for each current column whose name the target lacks |
| ComparatorProperties.TableDifferencesAttributes | classes/schema/DatabaseSchemaComparator.php:86-91 | an attribute record appears exactly when it belongs to a target column, pairs it with the current column of the same name, and names an attribute on which they disagree |
| ComparatorProperties.TableDifferencesKeys | classes/schema/DatabaseSchemaComparator.php:99-116 | a missing-key record exactly for each target key whose name the current table lacks; a changed-key record exactly for each namesake that differs; an extra-key record exactly for each current key whose name the target lacks |
| ComparatorProperties.TableDifferencesAbout | classes/schema/DatabaseSchemaComparator.php:70-119 | every record is about one of the two compared tables |
| ComparatorProperties.TableDifferencesReflexive | classes/schema/DatabaseSchemaComparator.php:70-119 | a table compared with itself has no differences |
| ComparatorProperties.GetDifferencesReflexive | classes/schema/DatabaseSchemaComparator.php:42-63 | a schema compared with itself has no differences |
| ComparatorProperties.MissingTablesExact | classes/schema/DatabaseSchemaComparator.php:47-54 | a missing-table record appears exactly for each target table that is not ignored and whose name the current schema lacks |
| ComparatorProperties.ExtraTablesExact | classes/schema/DatabaseSchemaComparator.php:56-60 | an extra-table record appears exactly for each current table that is not ignored and whose name the target schema lacks |
| ComparatorProperties.GetDifferencesNotIgnored | classes/schema/DatabaseSchemaComparator.php:171-178 | no record is about an ignored table |
| ComparatorProperties.NewComparatorNotIgnored | classes/schema/DatabaseSchemaComparator.php:28-35 | once a name is passed as ignored, no record is about the table with that name and the prefix in front |
| ComparatorProperties.GetDifferencesOrdered | classes/schema/DatabaseSchemaComparator.php:42-63 | every record other than an extra table comes at or after each earlier record in table-name order; each extra-table record comes strictly before every later record in name order |
| ComparatorProperties.GetDifferencesOrderIndependent | classes/schema/DatabaseSchemaComparator.php:171-183 | the result does not depend on the order in which either schema's tables were added |
| ComparatorProperties.NewComparatorIgnores | classes/schema/DatabaseSchemaComparator.php:28-35 | a name is ignored exactly when it is the prefix followed by one of the given names; so the prefix followed by n is ignored exactly when n is given |
| ComparatorOrder.ChangedColumnsConcat | classes/schema/DatabaseSchemaComparator.php:86-91 | checking one list of target columns and then another reports the records of the first list followed by those of the second |
| ComparatorOrder.ChangedKeysConcat | classes/schema/DatabaseSchemaComparator.php:104-111 | checking one list of target keys and then another reports the records of the first list followed by those of the second |
| ComparatorOrder.ChangedColumnsOrdered | classes/schema/DatabaseSchemaComparator.php:86-91 | for columns without repeats, an earlier record is about an earlier column, or about the same column and an earlier attribute in checking order |
| ComparatorOrder.ChangedKeysOrdered | classes/schema/DatabaseSchemaComparator.php:104-111 | for keys without repeats, an earlier changed-key record is about a strictly earlier key |
| ComparatorOrder.TableDifferencesColumnOrder | classes/schema/DatabaseSchemaComparator.php:85-91 | in a table comparison, the attribute records follow the target's column order, and one column's records follow the checking order |
| ComparatorOrder.TableDifferencesKeyOrder | classes/schema/DatabaseSchemaComparator.php:103-111 | in a table comparison, the changed-key records follow the target's key order, at most one per key |
| ComparatorOrder.TableDifferencesDistinct | classes/schema/DatabaseSchemaComparator.php:70-119 | comparing two well-formed tables reports no record twice |
| ComparatorOrder.MissingTableOnce | classes/schema/DatabaseSchemaComparator.php:45-54 | a missing-table record occurs once for each target table that is not ignored and whose name the current schema lacks, and never for any other table |
| ComparatorOrder.ExtraTableOnce | classes/schema/DatabaseSchemaComparator.php:56-60 | an extra-table record occurs once for each current table that is not ignored and whose name the target schema lacks, and never for any other table |
| Sorting.Sort | classes/schema/DatabaseSchemaComparator.php:179-181 | the result is a permutation of the input in `strcmp` order of the keys, strictly increasing when the keys are distinct |
| InformationSchemaBuilder.GetKeyType | classes/schema/builder/InformationSchemaBuilder.php:92-104 | exactly the three constraint kinds are accepted, and none maps to a plain index; any other type is an error that names it |
| InformationSchemaBuilder.GetKeyTypeInverse | classes/schema/builder/InformationSchemaBuilder.php:92-104 | the accepted constraint types read back exactly as the catalog's names for the primary, unique and foreign key types |
| InformationSchemaBuilder.TableOf | classes/schema/builder/InformationSchemaBuilder.php:33-36 | a table row gives an empty table with the row's name and engine |
| InformationSchemaBuilder.ColumnAutoIncrement | classes/schema/builder/InformationSchemaBuilder.php:43 | a column auto-increments exactly when `EXTRA` contains `auto_increment` somewhere |
| InformationSchemaBuilder.ColumnNullable | classes/schema/builder/InformationSchemaBuilder.php:47 | a column is nullable exactly when `IS_NULLABLE` is "yes" in any mix of letter case |
| InformationSchemaBuilder.AddColumnRow | classes/schema/builder/InformationSchemaBuilder.php:49 | the column goes into its table; a row naming an unknown table fails with that name |
| InformationSchemaBuilder.AddConstraintRow | classes/schema/builder/InformationSchemaBuilder.php:59-69 | a constraint row fails exactly when its table is unknown, or when it starts a new key whose constraint type is unknown; the error names the table or the type, and a success leaves the schema well formed |
| InformationSchemaBuilder.AddStatisticsRow | classes/schema/builder/InformationSchemaBuilder.php:72-84 | a statistics row fails exactly when it names an unknown table |
| InformationSchemaProperties.AddTablesHas | classes/schema/builder/InformationSchemaBuilder.php:31-37 | after the table rows, the schema has a table exactly for each name it already had or that some row names |
| InformationSchemaProperties.AddTablesLastWins | classes/schema/builder/InformationSchemaBuilder.php:32-37 | when several rows share a name, the last of them decides the table |
| InformationSchemaProperties.AddColumnsFails | classes/schema/builder/InformationSchemaBuilder.php:39-50 | the column rows fail exactly when some row names an unknown table; on success no table is added or removed |
| InformationSchemaProperties.AddColumnsGrows | classes/schema/builder/InformationSchemaBuilder.php:39-50 | the column rows never drop a table or a column |
| InformationSchemaProperties.AddColumnsFirstWins | classes/schema/builder/InformationSchemaBuilder.php:39-50 | the first row for a (table, column) pair decides that column |
| InformationSchemaProperties.AddColumnsKeepsKeys | classes/schema/builder/InformationSchemaBuilder.php:39-50 | the column rows leave every table's keys untouched |
| InformationSchemaProperties.ConstraintsExtend | classes/schema/builder/InformationSchemaBuilder.php:59-69 | an existing key ends with its old columns followed by the columns of every later row naming it, in row order |
| InformationSchemaProperties.ConstraintsCreate | classes/schema/builder/InformationSchemaBuilder.php:59-69 | the first row of a constraint creates its key with the mapped type, and the key ends with the columns of all its rows in order |
| InformationSchemaProperties.ConstraintsUntouched | classes/schema/builder/InformationSchemaBuilder.php:59-69 | a constraint name no row mentions is not created |
| InformationSchemaProperties.ConstraintsKeepTables | classes/schema/builder/InformationSchemaBuilder.php:59-69 | the constraint rows add or remove no table |
| InformationSchemaProperties.ConstraintFoldHasTable | classes/schema/builder/InformationSchemaBuilder.php:62-63 | if the constraint rows succeed, every row names a table that existed before them |
| InformationSchemaProperties.ConstraintsSucceed | classes/schema/builder/InformationSchemaBuilder.php:59-69 | rows that all name known tables and known constraint types succeed |
| InformationSchemaProperties.StatisticsExtend | classes/schema/builder/InformationSchemaBuilder.php:72-84 | an existing plain index gains the columns of every later row naming it, in order; a key made from a constraint is left as it was |
| InformationSchemaProperties.StatisticsCreate | classes/schema/builder/InformationSchemaBuilder.php:72-84 | the first row of an unseen index creates a plain key, which ends with the columns of all its rows in order |
| InformationSchemaProperties.StatisticsFails | classes/schema/builder/InformationSchemaBuilder.php:72-84 | the statistics rows fail exactly when some row names an unknown table; on success no table is added or removed |
| InformationSchemaBuilder.ProcessTables | classes/schema/builder/InformationSchemaBuilder.php:28-85 | the catalog build either fails or gives a well-formed schema, whose tables are stored under their own names |
| InformationSchemaProperties.ProcessTablesSucceeds | classes/schema/builder/InformationSchemaBuilder.php:28-85 | when every row names a listed table and every constraint type is known, the build succeeds and its tables are exactly the listed ones |
| InformationSchemaProperties.ProcessTablesConstraintKey | classes/schema/builder/InformationSchemaBuilder.php:52-84 | each constraint ends as a key of its table with the mapped type and the columns of its rows; index statistics never change it |
| InformationSchemaProperties.ProcessTablesIndexKey | classes/schema/builder/InformationSchemaBuilder.php:71-84 | an index that is not a constraint ends as a plain key with the columns of its statistics rows in order |
| Php.GetOptionFallback | classes/schema/builder/ObjectModelSchemaBuilder.php:263-269 | two fallbacks give the same result exactly when the key exists or the fallbacks are equal: a present key, even with null, is never replaced |
| Php.CheckOption | classes/schema/builder/ObjectModelSchemaBuilder.php:258-261 | an option is checked exactly when the key is present with a truthy value, which is the truthiness of `getOption` with a null fallback |
| Php.GetOptionKeepsNull | classes/schema/builder/ObjectModelSchemaBuilder.php:263-269 | an explicit null is returned, never replaced by the fallback |
| Php.LooseComparisonNumeric | classes/schema/builder/ObjectModelSchemaBuilder.php:220 | for an integer or a decimal string, the loose comparisons `==` and `<=` with an integer agree with numeric comparison |
| ObjectModelBuilder.GetDataType | classes/schema/builder/ObjectModelSchemaBuilder.php:211-256 | a truthy `dbType` is used as it is; otherwise the build fails exactly for the nothing and SQL types, unknown type codes and enum values that are not a list; the error names the field and the model; without `dbType` a bool field is `tinyint(1) unsigned` and a date field is `datetime` |
| ObjectModelBuilder.DefaultOf | classes/schema/builder/ObjectModelSchemaBuilder.php:93 | a default is absent exactly when the value is null; a string is kept as it is, and `false` becomes the empty string |
| ObjectModelBuilder.FieldColumn | classes/schema/builder/ObjectModelSchemaBuilder.php:86-94 | the field's column takes its nullability from `dbNullable`, else from the negation of `required`, else the constructor default; its default value comes from `dbDefault`, else `default`, else null |
| ObjectModelBuilder.PrimaryColumn | classes/schema/builder/ObjectModelSchemaBuilder.php:24-27 | the primary column is non-null; its type is the string form of `primaryKeyDbType`, `int(11) unsigned` when absent; it is auto-increment exactly when `autoIncrement` is truthy, and always when that option is absent |
| ObjectModelBuilder.TableNamesDistinct | classes/schema/builder/ObjectModelSchemaBuilder.php:20-64 | a model's primary, `_lang` and `_shop` tables have three different names |
| ObjectModelBuilder.GetTable | classes/schema/builder/ObjectModelSchemaBuilder.php:157-166 | the schema's table under the prefixed name if there is one, otherwise a new empty table with that name and the configured engine |
| ObjectModelBuilder.AddPrimary | classes/schema/builder/ObjectModelSchemaBuilder.php:20-30 | the primary table is registered and, when a primary column is declared, has the `PRIMARY` key on it |
| ObjectModelBuilder.LangKey | classes/schema/builder/ObjectModelSchemaBuilder.php:35-56 | the `_lang` primary key is on the primary column and `id_lang`, then `id_shop` when the model is multilang per shop |
| ObjectModelBuilder.AddLangTable | classes/schema/builder/ObjectModelSchemaBuilder.php:33-60 | the `_lang` table is registered with its primary key; the reference columns for the primary and for `id_lang` are in it whenever it lacked those names (an existing column is kept, first write wins); no other table changes |
| ObjectModelBuilder.AddShopTable | classes/schema/builder/ObjectModelSchemaBuilder.php:64-81 | the `_shop` table is registered with the key on the primary column and `id_shop`; the reference columns for both are in it whenever it lacked those names; no other table changes |
| ObjectModelBuilder.FieldUniqueKey | classes/schema/builder/ObjectModelSchemaBuilder.php:108-115 | a unique field's key is a unique key on that field, named by the option when it is a string and by the field otherwise |
| ObjectModelBuilder.AddField | classes/schema/builder/ObjectModelSchemaBuilder.php:85-116 | a field fails exactly when its column type cannot be derived |
| ObjectModelBuilder.AddFields | classes/schema/builder/ObjectModelSchemaBuilder.php:84-117 | the fields fail exactly when some field's column type cannot be derived |
| ObjectModelBuilder.AddAssociation | classes/schema/builder/ObjectModelSchemaBuilder.php:120-140 | an association without a truthy `joinTable` changes nothing; with one, the prefixed join table is registered, holds the reference column of the source field (`joinSourceField` or the primary) and of the target field (`joinTargetField` or the target model's primary) whenever it lacked those names, and no other table changes |
| ObjectModelBuilder.AddKeysIn | classes/schema/builder/ObjectModelSchemaBuilder.php:146-148 | declared keys change only the named table and add or remove no table |
| ObjectModelProperties.AddKeysInDeclared | classes/schema/builder/ObjectModelSchemaBuilder.php:146-148 | after a table's keys are declared, each key name reads back as its last declaration, or as before when none names it; the table's columns are unchanged |
| ObjectModelProperties.LastDeclaredConcat | classes/schema/builder/ObjectModelSchemaBuilder.php:146-148 | of declarations followed by more declarations, the last one of a name is in the later part whenever that part declares the name |
| ObjectModelBuilder.AddExplicitKeys | classes/schema/builder/ObjectModelSchemaBuilder.php:143-150 | the keys step fails exactly when a group with keys names an unregistered table, and then with that unknown table; on success the set of tables is unchanged |
| ObjectModelProperties.AddExplicitKeysDeclared | classes/schema/builder/ObjectModelSchemaBuilder.php:143-150 | after the keys step, each key of a registered table reads back as the last declaration for that table over all groups in order, or as before when none names it |
| ObjectModelBuilder.ProcessModel | classes/schema/builder/ObjectModelSchemaBuilder.php:18-151 | a model with a field whose type cannot be derived aborts the build |
| ObjectModelProperties.AddModelTablesRegisters | classes/schema/builder/ObjectModelSchemaBuilder.php:20-82 | the primary table is always registered, the `_lang` table when the model is multilang, and the `_shop` table when it is associated with shops |
| ObjectModelProperties.ProcessModelGrows | classes/schema/builder/ObjectModelSchemaBuilder.php:18-151 | processing a model never drops a table or a column that was there |
| ObjectModelProperties.ProcessModelRegisters | classes/schema/builder/ObjectModelSchemaBuilder.php:18-151 | after a model is processed, its primary, `_lang` and `_shop` tables are present as the model asks |
| ObjectModelProperties.AddPrimaryColumn | classes/schema/builder/ObjectModelSchemaBuilder.php:23-29 | a declared primary column ends in the primary table unless a column of that name was there first |
| ObjectModelProperties.ProcessModelKeepsPrimaryColumn | classes/schema/builder/ObjectModelSchemaBuilder.php:18-151 | the primary column added first is still in the primary table when the model is done |
| ObjectModelProperties.BuildFromGrows | classes/schema/builder/ObjectModelSchemaBuilder.php:169-173 | processing models one after another never drops a table or a column |
| ObjectModelBuilder.BuildFrom | classes/schema/builder/ObjectModelSchemaBuilder.php:169-173 | processing the models in order from a well-formed schema either fails or gives a well-formed schema |
| ObjectModelProperties.BuildFromRegisters | classes/schema/builder/ObjectModelSchemaBuilder.php:169-173 | after a successful run, every processed model's primary table is in the schema |
| ObjectModelProperties.BuildSchemaRegisters | classes/schema/builder/ObjectModelSchemaBuilder.php:8-16 | every processed model's primary table is in the built schema |
| ObjectModelProperties.PlaceColumnExact | classes/schema/builder/ObjectModelSchemaBuilder.php:95-106 | the column is added to exactly the tables it is placed in, and every other table is unchanged |
| ObjectModelProperties.LangFieldPlacement | classes/schema/builder/ObjectModelSchemaBuilder.php:95-96 | a `lang` field of a multilang model goes to the `_lang` table only |
| ObjectModelProperties.ShopFieldPlacement | classes/schema/builder/ObjectModelSchemaBuilder.php:98-102 | a `shop` field of a shop model goes to the `_shop` table, and to the primary table exactly when it is not `shopOnly` |
| ObjectModelProperties.OtherFieldPlacement | classes/schema/builder/ObjectModelSchemaBuilder.php:103-105 | any other field goes to the primary table only |
| ObjectModelProperties.AddFieldUniqueKey | classes/schema/builder/ObjectModelSchemaBuilder.php:108-115 | a unique field leaves its unique key in the primary table |
| ObjectModelProperties.LangShopColumnAdded | classes/schema/builder/ObjectModelSchemaBuilder.php:49-57 | a multilang-per-shop model's `_lang` table holds the `id_shop` column with default '1', unless a column of that name was there first |
| ObjectModelProperties.IntTypeOfSize | classes/schema/builder/ObjectModelSchemaBuilder.php:217-221 | an integer field of size k (11 when unset) is `tinyint(k)` when k is 1 and `int(k)` otherwise, and ` unsigned` unless `signed` is truthy |
| ObjectModelProperties.ParseIntTypeFor | classes/schema/builder/ObjectModelSchemaBuilder.php:220-221 | an integer column type can be read back into its size and signedness |
| ObjectModelProperties.IntTypeRoundTrip | classes/schema/builder/ObjectModelSchemaBuilder.php:217-221 | an integer field's column type determines the field's size and signedness |
| ObjectModelProperties.TextTypeOfSize | classes/schema/builder/ObjectModelSchemaBuilder.php:229-239 | a string field of size k (the varchar limit when unset) is `varchar(k)` up to that limit, then `text`, `mediumtext` or `longtext` by the first limit it fits |
| ObjectModelProperties.TextTypeMonotone | classes/schema/builder/ObjectModelSchemaBuilder.php:229-239 | a larger size never gives a smaller string type |
| ObjectModelProperties.DecimalTypeOfSize | classes/schema/builder/ObjectModelSchemaBuilder.php:240-247 | a float or price field whose `size` is k (20 when unset) and whose `decimals` is d (6 when unset) is `decimal(k,d)` |
| ObjectModelProperties.DecimalTypeDefault | classes/schema/builder/ObjectModelSchemaBuilder.php:240-247 | a float or price field without `size` and `decimals` is `decimal(20,6)` |
| ObjectModelProperties.EnumType | classes/schema/builder/ObjectModelSchemaBuilder.php:226-228 | a string field with a non-empty list of values is the enum of their string forms, joined in order |

## Left out

- `DatabaseSchema.php`, `ColumnSchema.php`, `TableKey.php`, the difference classes, `ObjectModel`, `Shop`, `Tools` and `Db` are not part of this model.
  - The model gives them the behaviour their use here needs: a schema is a name-keyed ordered collection, and a column and a key are plain records.
  - The setters of `ColumnSchema` are taken to convert their argument as follows. A default value is stored as its string form, and null as no default. A data type is stored as its string form. Nullability and auto-increment are stored as the truthiness of the value.
  - `DatabaseSchema::addTable` is taken to replace a table of the same name in place, keeping its position. `InformationSchemaProperties.AddTablesLastWins` and the updates of registered tables depend on this.
- The `getSchema` methods cache the schema they build. Caching is not modelled.
- `processObjectModels` scans the class directory with reflection. This is file-system and reflection work and is left out.
  - `processCoreModels` is modelled as `BuildFrom` over a given sequence of definitions.
- The SQL queries are not modelled.
  - Their results are given as rows already in the order the queries return them.
  - Every catalog value is a string, except for a view's engine and a null column default.
- Comparison and `implode` follow PHP 8.
  - A non-numeric string compared with an integer is compared as a string, so `"abc" <= 255` is false. Under PHP 7 it would be true.
  - `implode` of a value that is not an array raises an error, modelled as the `InvalidEnumValues` failure. Under PHP 7 it would return null.
- Loose comparison treats only integers and plain decimal digit strings as numbers.
  - Signs, spaces, exponents and floats in numeric strings are not modelled.
  - Float values in definitions are not modelled.
- `in_array` on the ignored tables is modelled as exact string membership. PHP's loose `in_array` would also treat two numeric strings such as "1" and "01" as equal; table names of that form are not modelled.
- A definition without `primary` is read with the primary name "" (the string form of null) where the source uses `$definition['primary']` without a check. PHP would emit a notice there.
- `ObjectModel::getDefinition` of an association's target is given as `Env.primaryOf`, from a class name to its primary column.
- `Shop::isTableAssociated` is given as `Env.isTableAssociated`.
- The column a fresh `ColumnSchema` starts with is given as `Env.blank`. It supplies the nullability and auto-increment of columns whose definition does not set them.
- The type codes of `ObjectModel::TYPE_*` become a datatype. An unknown integer code becomes `Unknown(code)`.
- The text size limits `SIZE_MAX_VARCHAR`, `SIZE_TEXT` and `SIZE_MEDIUM_TEXT` are parameters in `Limits`.
- A fatal call on null, for a row or a declared key naming a missing table, is modelled as a `Failure` carrying the table name. PHP stops the script there.
- InformationSchemaProperties.ConstraintsSucceed: only states a sufficient condition for success. The exact condition also depends on which rows create a key.
- InformationSchemaProperties.ProcessTablesSucceeds: only states a sufficient condition for success. It covers every row naming a listed table and every constraint type being known.
- Several comparator lemmas require well-formed schemas and tables, whose entries are stored under their own names. Every schema the two builders produce is well formed.
- ObjectModelBuilder.ProcessModel: its contract states only the failure cases.
  - The success case is described by the lemmas of `ObjectModelProperties`: which tables it registers, which columns it places where, that it never drops a table or column, and which keys it adds.
  - The join tables and the declared keys are described per step, by `AddAssociation`, `AddKeysInDeclared` and `AddExplicitKeysDeclared`, not over the whole of `ProcessModel`.
- KeyDef.kind: a declared key's `type` is a `KeyType`, one of the four key kinds. The source passes the raw `type` entry of the definition to the key unchecked, so a definition with some other type value is not modelled.
