/**
 * `usort` by a string key compared with `strcmp`, modelled as a stable
 * insertion sort, and the fact that a strictly sorted sequence is fixed by
 * its elements alone.
 */
module Sorting {
  import opened Strings
  import opened Seqs

  ghost predicate SortedBy<T>(s: seq<T>, key: T -> string) {
    forall i, j :: 0 <= i < j < |s| ==> StrLe(key(s[i]), key(s[j]))
  }

  ghost predicate StrictlySortedBy<T>(s: seq<T>, key: T -> string) {
    forall i, j :: 0 <= i < j < |s| ==> StrLess(key(s[i]), key(s[j]))
  }

  /** Strictly increasing keys never repeat, so neither do the elements. */
  lemma StrictlySortedDistinct<T>(s: seq<T>, key: T -> string)
    requires StrictlySortedBy(s, key)
    ensures DistinctBy(s, key) && Distinct(s)
  {
    forall i, j | 0 <= i < j < |s| ensures key(s[i]) != key(s[j]) {
      StrLessIrreflexive(key(s[i]));
    }
  }

  lemma ConsSorted<T(!new)>(y: T, t: seq<T>, key: T -> string)
    requires SortedBy(t, key)
    requires forall z :: z in t ==> StrLe(key(y), key(z))
    ensures SortedBy([y] + t, key)
  {
    var r := [y] + t;
    forall i, j | 0 <= i < j < |r| ensures StrLe(key(r[i]), key(r[j])) {
      if i == 0 {
        assert r[j] in t;
      } else {
        assert r[i] == t[i - 1] && r[j] == t[j - 1];
      }
    }
  }

  lemma ConsStrictlySorted<T(!new)>(y: T, t: seq<T>, key: T -> string)
    requires StrictlySortedBy(t, key)
    requires forall z :: z in t ==> StrLess(key(y), key(z))
    ensures StrictlySortedBy([y] + t, key)
  {
    var r := [y] + t;
    forall i, j | 0 <= i < j < |r| ensures StrLess(key(r[i]), key(r[j])) {
      if i == 0 {
        assert r[j] in t;
      } else {
        assert r[i] == t[i - 1] && r[j] == t[j - 1];
      }
    }
  }

  /** In a sorted sequence the first key bounds every key. */
  lemma HeadBelowAll<T(!new)>(b: string, s: seq<T>, key: T -> string)
    requires SortedBy(s, key) && |s| > 0 && StrLe(b, key(s[0]))
    ensures forall z :: z in s ==> StrLe(b, key(z))
  {
    forall z | z in s ensures StrLe(b, key(z)) {
      var k :| 0 <= k < |s| && s[k] == z;
      if k > 0 {
        StrLeTransitive(b, key(s[0]), key(z));
      }
    }
  }

  lemma HeadBelowAllStrict<T(!new)>(b: string, s: seq<T>, key: T -> string)
    requires StrictlySortedBy(s, key) && |s| > 0 && StrLess(b, key(s[0]))
    ensures forall z :: z in s ==> StrLess(b, key(z))
  {
    forall z | z in s ensures StrLess(b, key(z)) {
      var k :| 0 <= k < |s| && s[k] == z;
      if k > 0 {
        StrLessTransitive(b, key(s[0]), key(z));
      }
    }
  }

  lemma TailSorted<T>(s: seq<T>, key: T -> string)
    requires |s| > 0
    ensures SortedBy(s, key) ==> SortedBy(s[1..], key)
    ensures StrictlySortedBy(s, key) ==> StrictlySortedBy(s[1..], key)
  {
    forall i, j | 0 <= i < j < |s[1..]| ensures s[1..][i] == s[i + 1] && s[1..][j] == s[j + 1] {
    }
  }

  /** The properties `Insert` promises, for the case where `x` goes first. */
  lemma InsertFront<T(!new)>(x: T, s: seq<T>, key: T -> string)
    requires SortedBy(s, key)
    requires s == [] || StrLe(key(x), key(s[0]))
    ensures SortedBy([x] + s, key)
    ensures StrictlySortedBy(s, key) && (forall y :: y in s ==> key(y) != key(x)) ==>
      StrictlySortedBy([x] + s, key)
  {
    if s != [] {
      HeadBelowAll(key(x), s, key);
    }
    ConsSorted(x, s, key);
    if s != [] && StrictlySortedBy(s, key) && (forall y :: y in s ==> key(y) != key(x)) {
      assert key(s[0]) != key(x);
      HeadBelowAllStrict(key(x), s, key);
      ConsStrictlySorted(x, s, key);
    }
  }

  /** The properties `Insert` promises, for the case where `x` goes into the tail `t`. */
  lemma InsertBehind<T(!new)>(x: T, s: seq<T>, t: seq<T>, key: T -> string)
    requires SortedBy(s, key) && |s| > 0 && StrLess(key(s[0]), key(x))
    requires SortedBy(t, key) && multiset(t) == multiset(s[1..]) + multiset{x}
    requires StrictlySortedBy(s[1..], key) && (forall y :: y in s[1..] ==> key(y) != key(x)) ==>
      StrictlySortedBy(t, key)
    ensures SortedBy([s[0]] + t, key)
    ensures StrictlySortedBy(s, key) && (forall y :: y in s ==> key(y) != key(x)) ==>
      StrictlySortedBy([s[0]] + t, key)
  {
    assert s == [s[0]] + s[1..];
    forall z | z in t ensures StrLe(key(s[0]), key(z)) && (StrictlySortedBy(s, key) ==> StrLess(key(s[0]), key(z))) {
      assert z in multiset(t);
      if z != x {
        assert z in multiset(s[1..]);
        var k :| 0 <= k < |s[1..]| && s[1..][k] == z;
        assert s[k + 1] == z;
      }
    }
    ConsSorted(s[0], t, key);
    if StrictlySortedBy(s, key) && (forall y :: y in s ==> key(y) != key(x)) {
      TailSorted(s, key);
      ConsStrictlySorted(s[0], t, key);
    }
  }

  /** Inserts `x` before the first element whose key is not below it. */
  function Insert<T(==,!new)>(x: T, s: seq<T>, key: T -> string): (r: seq<T>)
    requires SortedBy(s, key)
    ensures SortedBy(r, key)
    ensures multiset(r) == multiset(s) + multiset{x}
    ensures StrictlySortedBy(s, key) && (forall y :: y in s ==> key(y) != key(x)) ==>
      StrictlySortedBy(r, key)
  {
    if s == [] || StrLe(key(x), key(s[0])) then
      InsertFront(x, s, key);
      [x] + s
    else
      StrLessTotal(key(x), key(s[0]));
      TailSorted(s, key);
      var t := Insert(x, s[1..], key);
      InsertBehind(x, s, t, key);
      assert s == [s[0]] + s[1..];
      [s[0]] + t
  }

  /** `usort($xs, fn($a, $b) => strcmp(key($a), key($b)))`. */
  function Sort<T(==,!new)>(s: seq<T>, key: T -> string): (r: seq<T>)
    ensures SortedBy(r, key)
    ensures multiset(r) == multiset(s)
    ensures DistinctBy(s, key) ==> StrictlySortedBy(r, key)
  {
    if s == [] then []
    else
      var t := Sort(s[1..], key);
      assert s == [s[0]] + s[1..];
      assert DistinctBy(s, key) ==> DistinctBy(s[1..], key) && forall y :: y in t ==> key(y) != key(s[0]) by {
        if DistinctBy(s, key) {
          DistinctTail(s, t, key);
        }
      }
      Insert(s[0], t, key)
  }

  /** Distinct keys stay distinct in the tail, and none of the tail's elements shares the head's key. */
  lemma DistinctTail<T(!new)>(s: seq<T>, t: seq<T>, key: T -> string)
    requires s != [] && DistinctBy(s, key) && multiset(t) == multiset(s[1..])
    ensures DistinctBy(s[1..], key)
    ensures forall y :: y in t ==> key(y) != key(s[0])
  {
    forall i, j | 0 <= i < j < |s[1..]| ensures key(s[1..][i]) != key(s[1..][j]) {
      assert s[1..][i] == s[i + 1] && s[1..][j] == s[j + 1];
    }
    forall y | y in t ensures key(y) != key(s[0]) {
      assert y in multiset(t);
      var k :| 0 <= k < |s[1..]| && s[1..][k] == y;
      assert s[k + 1] == y;
    }
  }

  /** Two strictly sorted sequences with the same elements are equal. */
  lemma {:induction false} StrictlySortedUnique<T(!new)>(a: seq<T>, b: seq<T>, key: T -> string)
    requires StrictlySortedBy(a, key) && StrictlySortedBy(b, key)
    requires forall x :: x in a <==> x in b
    ensures a == b
  {
    if a != [] {
      assert a[0] in b;
      assert b != [];
      var j :| 0 <= j < |b| && b[j] == a[0];
      assert b[0] in a;
      var i :| 0 <= i < |a| && a[i] == b[0];
      if j > 0 {
        assert StrLess(key(b[0]), key(a[0]));
        if i > 0 {
          assert StrLess(key(a[0]), key(b[0]));
          StrLessAsymmetric(key(a[0]), key(b[0]));
        } else {
          StrLessIrreflexive(key(a[0]));
        }
        assert false;
      }
      forall x ensures x in a[1..] <==> x in b[1..] {
        if x in a[1..] {
          var k :| 0 <= k < |a[1..]| && a[1..][k] == x;
          assert a[k + 1] == x;
          StrLessIrreflexive(key(a[0]));
          assert x != a[0];
          assert x in b;
          var m :| 0 <= m < |b| && b[m] == x;
          assert m != 0;
          assert b[1..][m - 1] == x;
        }
        if x in b[1..] {
          var k :| 0 <= k < |b[1..]| && b[1..][k] == x;
          assert b[k + 1] == x;
          StrLessIrreflexive(key(b[0]));
          assert x != b[0];
          assert x in a;
          var m :| 0 <= m < |a| && a[m] == x;
          assert m != 0;
          assert a[1..][m - 1] == x;
        }
      }
      assert StrictlySortedBy(a[1..], key) by {
        forall p, q | 0 <= p < q < |a[1..]| ensures StrLess(key(a[1..][p]), key(a[1..][q])) {
          assert a[1..][p] == a[p + 1] && a[1..][q] == a[q + 1];
        }
      }
      assert StrictlySortedBy(b[1..], key) by {
        forall p, q | 0 <= p < q < |b[1..]| ensures StrLess(key(b[1..][p]), key(b[1..][q])) {
          assert b[1..][p] == b[p + 1] && b[1..][q] == b[q + 1];
        }
      }
      StrictlySortedUnique(a[1..], b[1..], key);
      assert a == [a[0]] + a[1..] && b == [b[0]] + b[1..];
    } else {
      NoMembersEmpty(b);
    }
  }
}
