/**
 * An insertion-ordered, name-keyed collection: the PHP associative array that
 * holds a table's columns and keys and a schema's tables. The order of first
 * insertion is kept in `order`; the entries themselves in `entries`.
 */
module NamedMaps {
  import opened Wrappers
  import opened Seqs

  datatype NamedMap<V> = NamedMap(order: seq<string>, entries: map<string, V>) {

    /** Every name is listed once, and exactly the stored names are listed. */
    ghost predicate Valid() {
      && (forall i, j :: 0 <= i < j < |order| ==> order[i] != order[j])
      && (forall n :: n in entries <==> n in order)
    }

    /** `isset($array[$name])` */
    predicate Has(name: string) {
      name in entries
    }

    /** `$array[$name] ?? null` */
    function Get(name: string): (r: Option<V>)
      ensures r.Some? <==> Has(name)
      ensures r.Some? ==> r.value == entries[name]
    {
      if name in entries then Some(entries[name]) else None
    }

    /** The stored values in insertion order (`foreach`). */
    function Values(): seq<V> {
      Project(order, entries)
    }

    /** Stores `v` under `name` unless the name is taken: the first write wins. */
    function Add(name: string, v: V): (r: NamedMap<V>)
      ensures Has(name) ==> r == this
      ensures !Has(name) ==> r.entries == entries[name := v]
      ensures r.Get(name) == (if Has(name) then Get(name) else Some(v))
      ensures forall n :: n != name ==> r.Get(n) == Get(n)
      ensures Valid() ==> r.Valid()
      ensures Valid() && !Has(name) ==> r.order == order + [name] && r.Values() == Values() + [v]
    {
      if name in entries then this
      else
        AppendFresh(this, name, v);
        NamedMap(order + [name], entries[name := v])
    }

    /** `$array[$name] = $v`: the last write wins, a known name keeps its position. */
    function Put(name: string, v: V): (r: NamedMap<V>)
      ensures r.entries == entries[name := v]
      ensures r.Get(name) == Some(v)
      ensures forall n :: n != name ==> r.Get(n) == Get(n)
      ensures Valid() ==> r.Valid()
      ensures Has(name) ==> r.order == order
      ensures !Has(name) ==> r.order == order + [name]
    {
      if name in entries then NamedMap(order, entries[name := v])
      else NamedMap(order + [name], entries[name := v])
    }
  }

  /** An empty PHP array. */
  function Empty<V>(): (r: NamedMap<V>)
    ensures r.Valid() && r.Values() == []
    ensures forall n :: !r.Has(n)
  {
    NamedMap([], map[])
  }

  /** The values stored under `names`, in that order, skipping names that are not stored. */
  function Project<V>(names: seq<string>, m: map<string, V>): seq<V> {
    if names == [] then []
    else
      Project(names[..|names| - 1], m)
      + (if names[|names| - 1] in m then [m[names[|names| - 1]]] else [])
  }

  lemma {:induction false} ProjectIgnoresOthers<V>(names: seq<string>, m: map<string, V>, n: string, v: V)
    requires n !in names
    ensures Project(names, m[n := v]) == Project(names, m)
  {
    if names != [] {
      ProjectIgnoresOthers(names[..|names| - 1], m, n, v);
    }
  }

  lemma AppendFresh<V>(c: NamedMap<V>, n: string, v: V)
    requires n !in c.entries
    ensures c.Valid() ==>
      Project(c.order + [n], c.entries[n := v]) == Project(c.order, c.entries) + [v]
  {
    if c.Valid() {
      ProjectIgnoresOthers(c.order, c.entries, n, v);
      assert (c.order + [n])[..|c.order|] == c.order;
    }
  }

  /** A value is listed exactly when some listed name stores it. */
  lemma {:induction false} ProjectContents<V>(names: seq<string>, m: map<string, V>, x: V)
    ensures x in Project(names, m) <==> exists n :: n in names && n in m && m[n] == x
  {
    if names != [] {
      var init := names[..|names| - 1];
      var last := names[|names| - 1];
      ProjectContents(init, m, x);
      assert names == init + [last];
      if exists n :: n in init && n in m && m[n] == x {
        var n :| n in init && n in m && m[n] == x;
        assert n in names;
      }
      if exists n :: n in names && n in m && m[n] == x {
        var n :| n in names && n in m && m[n] == x;
        if n != last {
          assert n in init;
        }
      }
    }
  }

  /** For a valid collection, the listed values are exactly the stored values. */
  lemma ValuesContents<V>(c: NamedMap<V>, x: V)
    ensures c.Valid() ==> (x in c.Values() <==> exists n :: n in c.entries && c.entries[n] == x)
  {
    ProjectContents(c.order, c.entries, x);
  }

  lemma {:induction false} ProjectIndex<V>(names: seq<string>, m: map<string, V>)
    requires forall n :: n in names ==> n in m
    ensures |Project(names, m)| == |names|
    ensures forall i :: 0 <= i < |names| ==> Project(names, m)[i] == m[names[i]]
  {
    if names != [] {
      ProjectIndex(names[..|names| - 1], m);
    }
  }

  /**
   * When every value is stored under its own name, the listed values are
   * stored under their names and no two of them share a name.
   */
  lemma ValuesNamed<V(!new)>(c: NamedMap<V>, name: V -> string)
    requires c.Valid()
    requires forall n :: n in c.entries ==> name(c.entries[n]) == n
    ensures forall x :: x in c.Values() ==> name(x) in c.entries && c.entries[name(x)] == x
    ensures DistinctBy(c.Values(), name)
  {
    ProjectIndex(c.order, c.entries);
    forall x | x in c.Values() ensures name(x) in c.entries && c.entries[name(x)] == x {
      ValuesContents(c, x);
    }
  }
}
