/**
 * The sorts the backend delegates to MongoDB: by a number descending
 * (`createdAt: -1`, `count: -1`) and by a string ascending (`sort('name')`).
 * MongoDB leaves the order of equal keys unspecified; these ghost functions
 * pick one such order with `:|` and promise only what the database promises.
 */
module Ordering {
  import opened Common
  import opened Strings

  /** `r` lists every key of `keys` exactly once. */
  ghost predicate Enumerates(keys: set<Id>, r: seq<Id>)
  {
    && |r| == |keys|
    && (forall i :: 0 <= i < |r| ==> r[i] in keys)
    && (forall k :: k in keys ==> k in r)
    && (forall i, j :: 0 <= i < j < |r| ==> r[i] != r[j])
  }

  lemma SetMinusOne(keys: set<Id>, k: Id)
    requires k in keys
    ensures |keys - {k}| == |keys| - 1
  {
  }

  lemma ConsEnumerates(keys: set<Id>, k: Id, rest: seq<Id>)
    requires k in keys && Enumerates(keys - {k}, rest)
    ensures Enumerates(keys, [k] + rest)
  {
    var r := [k] + rest;
    SetMinusOne(keys, k);
    forall j | j in keys ensures j in r {
      if j != k {
        assert j in keys - {k};
      }
    }
    forall i, j | 0 <= i < j < |r| ensures r[i] != r[j] {
      assert r[j] == rest[j - 1];
      if i > 0 {
        assert r[i] == rest[i - 1];
      }
    }
  }

  /** Among a non-empty set of keys one has the largest number. */
  lemma {:induction false} LargestExists(m: map<Id, int>, keys: set<Id>)
    requires keys <= m.Keys && keys != {}
    ensures exists k :: k in keys && forall j :: j in keys ==> m[j] <= m[k]
    decreases |keys|
  {
    var k0 :| k0 in keys;
    var rest := keys - {k0};
    if rest == {} {
      forall j | j in keys ensures m[j] <= m[k0] {
        assert j in rest || j == k0;
      }
    } else {
      LargestExists(m, rest);
      var k1 :| k1 in rest && forall j :: j in rest ==> m[j] <= m[k1];
      if m[k0] <= m[k1] {
        forall j | j in keys ensures m[j] <= m[k1] {
          if j != k0 {
            assert j in rest;
          }
        }
      } else {
        forall j | j in keys ensures m[j] <= m[k0] {
          if j != k0 {
            assert j in rest;
          }
        }
      }
    }
  }

  /** Among a non-empty set of keys one has the text that comes first in code-point order. */
  lemma {:induction false} SmallestTextExists(m: map<Id, string>, keys: set<Id>)
    requires keys <= m.Keys && keys != {}
    ensures exists k :: k in keys && forall j :: j in keys ==> LexLeq(m[k], m[j])
    decreases |keys|
  {
    var k0 :| k0 in keys;
    var rest := keys - {k0};
    LexLeqTotal(m[k0], m[k0]);
    if rest == {} {
      forall j | j in keys ensures LexLeq(m[k0], m[j]) {
        assert j in rest || j == k0;
      }
    } else {
      SmallestTextExists(m, rest);
      var k1 :| k1 in rest && forall j :: j in rest ==> LexLeq(m[k1], m[j]);
      LexLeqTotal(m[k0], m[k1]);
      if LexLeq(m[k1], m[k0]) {
        forall j | j in keys ensures LexLeq(m[k1], m[j]) {
          if j != k0 {
            assert j in rest;
          }
        }
      } else {
        forall j | j in keys ensures LexLeq(m[k0], m[j]) {
          if j != k0 {
            assert j in rest;
            LexLeqTransitive(m[k0], m[k1], m[j]);
          }
        }
      }
    }
  }

  lemma ConsByNumber(m: map<Id, int>, k: Id, rest: seq<Id>)
    requires k in m
    requires forall i :: 0 <= i < |rest| ==> rest[i] in m && m[rest[i]] <= m[k]
    requires forall i, j :: 0 <= i < j < |rest| ==> m[rest[i]] >= m[rest[j]]
    ensures forall i, j :: 0 <= i < j < |[k] + rest| ==> m[([k] + rest)[i]] >= m[([k] + rest)[j]]
  {
    var r := [k] + rest;
    forall i, j | 0 <= i < j < |r| ensures m[r[i]] >= m[r[j]] {
      assert r[j] == rest[j - 1];
      if i > 0 {
        assert r[i] == rest[i - 1];
      }
    }
  }

  lemma ConsByText(m: map<Id, string>, k: Id, rest: seq<Id>)
    requires k in m
    requires forall i :: 0 <= i < |rest| ==> rest[i] in m && LexLeq(m[k], m[rest[i]])
    requires forall i, j :: 0 <= i < j < |rest| ==> LexLeq(m[rest[i]], m[rest[j]])
    ensures forall i, j :: 0 <= i < j < |[k] + rest| ==> LexLeq(m[([k] + rest)[i]], m[([k] + rest)[j]])
  {
    var r := [k] + rest;
    forall i, j | 0 <= i < j < |r| ensures LexLeq(m[r[i]], m[r[j]]) {
      assert r[j] == rest[j - 1];
      if i > 0 {
        assert r[i] == rest[i - 1];
      }
    }
  }

  /** The keys of `keys` ordered by their numbers in `m`, largest first. */
  ghost function SortKeysByNumberDesc(m: map<Id, int>, keys: set<Id>): (r: seq<Id>)
    requires keys <= m.Keys
    ensures Enumerates(keys, r)
    ensures forall i, j :: 0 <= i < j < |r| ==> m[r[i]] >= m[r[j]]
    decreases |keys|
  {
    if keys == {} then []
    else
      LargestExists(m, keys);
      var k :| k in keys && forall j :: j in keys ==> m[j] <= m[k];
      SetMinusOne(keys, k);
      var rest := SortKeysByNumberDesc(m, keys - {k});
      ConsEnumerates(keys, k, rest);
      ConsByNumber(m, k, rest);
      [k] + rest
  }

  /** The keys of `keys` ordered by their texts in `m`, smallest first in code-point order. */
  ghost function SortKeysByTextAsc(m: map<Id, string>, keys: set<Id>): (r: seq<Id>)
    requires keys <= m.Keys
    ensures Enumerates(keys, r)
    ensures forall i, j :: 0 <= i < j < |r| ==> LexLeq(m[r[i]], m[r[j]])
    decreases |keys|
  {
    if keys == {} then []
    else
      SmallestTextExists(m, keys);
      var k :| k in keys && forall j :: j in keys ==> LexLeq(m[k], m[j]);
      SetMinusOne(keys, k);
      var rest := SortKeysByTextAsc(m, keys - {k});
      ConsEnumerates(keys, k, rest);
      ConsByText(m, k, rest);
      [k] + rest
  }

  /** Dropping the first key of an enumeration enumerates the rest. */
  lemma TailEnumerates(keys: set<Id>, r: seq<Id>)
    requires Enumerates(keys, r) && r != []
    ensures Enumerates(keys - {r[0]}, r[1..])
  {
    SetMinusOne(keys, r[0]);
    forall k | k in keys - {r[0]} ensures k in r[1..] {
      var i :| 0 <= i < |r| && r[i] == k;
      assert r[1..][i - 1] == k;
    }
  }

  ghost predicate SortedByText(m: map<Id, string>, r: seq<Id>)
  {
    (forall i :: 0 <= i < |r| ==> r[i] in m) &&
    forall i, j :: 0 <= i < j < |r| ==> LexLeq(m[r[i]], m[r[j]])
  }

  lemma SortedTail(m: map<Id, string>, r: seq<Id>)
    requires SortedByText(m, r) && r != []
    ensures SortedByText(m, r[1..])
  {
    forall i, j | 0 <= i < j < |r| - 1 ensures LexLeq(m[r[1..][i]], m[r[1..][j]]) {
      assert r[1..][i] == r[i + 1] && r[1..][j] == r[j + 1];
    }
  }

  /** Two text-sorted enumerations of keys with distinct texts start with the same key. */
  lemma SameFirst(m: map<Id, string>, keys: set<Id>, a: seq<Id>, b: seq<Id>)
    requires keys <= m.Keys
    requires forall x, y :: x in keys && y in keys && m[x] == m[y] ==> x == y
    requires Enumerates(keys, a) && Enumerates(keys, b) && a != []
    requires SortedByText(m, a) && SortedByText(m, b)
    ensures a[0] == b[0]
  {
    assert a[0] in keys && b[0] in keys;
    if a[0] != b[0] {
      var j :| 0 <= j < |b| && b[j] == a[0];
      var i :| 0 <= i < |a| && a[i] == b[0];
      assert LexLeq(m[b[0]], m[a[0]]) && LexLeq(m[a[0]], m[b[0]]);
      LexLeqAntisymmetric(m[a[0]], m[b[0]]);
    }
  }

  /**
   * When no two keys share a text there is only one ascending order: any two
   * enumerations of the same keys sorted by text are the same sequence.
   */
  lemma {:induction false} TextOrderUnique(m: map<Id, string>, keys: set<Id>, a: seq<Id>, b: seq<Id>)
    requires keys <= m.Keys
    requires forall x, y :: x in keys && y in keys && m[x] == m[y] ==> x == y
    requires Enumerates(keys, a) && Enumerates(keys, b)
    requires SortedByText(m, a) && SortedByText(m, b)
    ensures a == b
    decreases |keys|
  {
    if keys != {} {
      SameFirst(m, keys, a, b);
      TailEnumerates(keys, a);
      TailEnumerates(keys, b);
      SortedTail(m, a);
      SortedTail(m, b);
      TextOrderUnique(m, keys - {a[0]}, a[1..], b[1..]);
      SameHeadAndTail(a, b);
    }
  }

  /** Two non-empty sequences with the same head and the same tail are equal. */
  lemma SameHeadAndTail(a: seq<Id>, b: seq<Id>)
    requires a != [] && b != [] && a[0] == b[0] && a[1..] == b[1..]
    ensures a == b
  {
    assert a == [a[0]] + a[1..] && b == [b[0]] + b[1..];
  }

  /** The keys of `m` ordered by their numbers, largest first. */
  ghost function SortByNumberDesc(m: map<Id, int>): (r: seq<Id>)
    ensures Enumerates(m.Keys, r)
    ensures forall i, j :: 0 <= i < j < |r| ==> m[r[i]] >= m[r[j]]
  {
    SortKeysByNumberDesc(m, m.Keys)
  }

  /** The keys of `m` ordered by their texts in code-point order, smallest first. */
  ghost function SortByTextAsc(m: map<Id, string>): (r: seq<Id>)
    ensures Enumerates(m.Keys, r)
    ensures forall i, j :: 0 <= i < j < |r| ==> LexLeq(m[r[i]], m[r[j]])
  {
    SortKeysByTextAsc(m, m.Keys)
  }
}
