/**
 * The closed set of schema differences. Each carries the table it concerns
 * (the target table, or the current one for extra tables, columns and keys)
 * and the conflicting values.
 */
module Differences {
  import opened Wrappers
  import opened TableSchema

  datatype Difference =
    | MissingTable(table: Table)
    | ExtraTable(table: Table)
    | DifferentEngine(table: Table, currentEngine: Option<string>)
    | MissingColumn(table: Table, column: Column)
    | ExtraColumn(table: Table, column: Column)
    | DifferentDataType(table: Table, target: Column, current: Column)
    | DifferentDefaultValue(table: Table, target: Column, current: Column)
    | DifferentNullable(table: Table, target: Column, current: Column)
    | DifferentAutoIncrement(table: Table, target: Column, current: Column)
    | MissingKey(table: Table, key: Key)
    | DifferentKey(table: Table, targetKey: Key, currentKey: Key)
    | ExtraKey(table: Table, key: Key)
  {
    /** A difference in one attribute of a column present on both sides. */
    predicate IsColumnAttribute() {
      DifferentDataType? || DifferentDefaultValue? || DifferentNullable? || DifferentAutoIncrement?
    }
  }

  /** The column attributes compared, in the order they are compared. */
  datatype Attribute = DataType | DefaultValue | Nullable | AutoIncrement

  function AttributeOf(d: Difference): Attribute
    requires d.IsColumnAttribute()
  {
    match d
    case DifferentDataType(_, _, _) => DataType
    case DifferentDefaultValue(_, _, _) => DefaultValue
    case DifferentNullable(_, _, _) => Nullable
    case DifferentAutoIncrement(_, _, _) => AutoIncrement
  }

  /** The step of a table comparison that produces a difference of this kind. */
  function Phase(d: Difference): nat {
    match d
    case DifferentEngine(_, _) => 0
    case MissingColumn(_, _) => 1
    case DifferentDataType(_, _, _) => 2
    case DifferentDefaultValue(_, _, _) => 2
    case DifferentNullable(_, _, _) => 2
    case DifferentAutoIncrement(_, _, _) => 2
    case ExtraColumn(_, _) => 3
    case MissingKey(_, _) => 4
    case DifferentKey(_, _, _) => 5
    case ExtraKey(_, _) => 6
    case MissingTable(_) => 7
    case ExtraTable(_) => 8
  }

  /** Every column attribute difference belongs to step 2. */
  lemma AttributePhase(d: Difference)
    requires d.IsColumnAttribute()
    ensures Phase(d) == 2
  {
  }

  /** Phases never decrease along `ds`, and all lie in `lo..hi`. */
  ghost predicate PhasesWithin(ds: seq<Difference>, lo: nat, hi: nat) {
    && (forall d :: d in ds ==> lo <= Phase(d) <= hi)
    && (forall i, j :: 0 <= i < j < |ds| ==> Phase(ds[i]) <= Phase(ds[j]))
  }

  lemma PhasesConcat(a: seq<Difference>, b: seq<Difference>, lo: nat, mid: nat, hi: nat)
    requires lo <= mid <= hi
    requires PhasesWithin(a, lo, mid) && PhasesWithin(b, mid, hi)
    ensures PhasesWithin(a + b, lo, hi)
  {
    var r := a + b;
    forall i, j | 0 <= i < j < |r| ensures Phase(r[i]) <= Phase(r[j]) {
      if j < |a| {
        assert r[i] == a[i] && r[j] == a[j];
      } else if i >= |a| {
        assert r[i] == b[i - |a|] && r[j] == b[j - |a|];
      } else {
        assert r[i] == a[i] && r[j] == b[j - |a|];
        assert a[i] in a && b[j - |a|] in b;
      }
    }
  }

  /** Every `ExtraTable` record comes after every other record. */
  ghost predicate ExtraTablesLast(ds: seq<Difference>) {
    forall i, j :: 0 <= i < j < |ds| && ds[i].ExtraTable? ==> ds[j].ExtraTable?
  }

  lemma ExtraTablesLastConcat(a: seq<Difference>, b: seq<Difference>)
    requires forall d :: d in a ==> !d.ExtraTable?
    requires forall d :: d in b ==> d.ExtraTable?
    ensures ExtraTablesLast(a + b)
  {
    var r := a + b;
    forall i | 0 <= i < |a| ensures !r[i].ExtraTable? {
      assert r[i] == a[i] && a[i] in a;
    }
    forall j | |a| <= j < |r| ensures r[j].ExtraTable? {
      assert r[j] == b[j - |a|] && b[j - |a|] in b;
    }
  }
}
