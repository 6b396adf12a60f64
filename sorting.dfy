/** The orderings the compiler relies on: LINQ's OrderBy / ThenBy, which are
    stable sorts by a key, and the ordering of strings used to sort
    accumulator names. */
module Sorting {

  /** A sort key: OrderBy(primary).ThenBy(secondary). */
  datatype Key = Key(primary: int, secondary: int)

  predicate KeyLe(a: Key, b: Key) {
    a.primary < b.primary || (a.primary == b.primary && a.secondary <= b.secondary)
  }

  predicate SortedBy<T>(s: seq<T>, key: T -> Key) {
    forall i, j :: 0 <= i < j < |s| ==> KeyLe(key(s[i]), key(s[j]))
  }

  /** The elements of s whose key is k, in their order in s. */
  function WithKey<T>(s: seq<T>, key: T -> Key, k: Key): seq<T> {
    if s == [] then [] else (if key(s[0]) == k then [s[0]] else []) + WithKey(s[1..], key, k)
  }

  /** Inserts x before the first element whose key is not smaller. */
  function Insert<T>(x: T, s: seq<T>, key: T -> Key): (r: seq<T>)
    requires SortedBy(s, key)
    ensures SortedBy(r, key)
    ensures multiset(r) == multiset(s) + multiset{x}
  {
    if s == [] || KeyLe(key(x), key(s[0])) then
      [x] + s
    else
      var tail := Insert(x, s[1..], key);
      assert s == [s[0]] + s[1..];
      forall j | 0 <= j < |tail| ensures KeyLe(key(s[0]), key(tail[j])) {
        assert tail[j] in multiset(s[1..]) + multiset{x};
        if tail[j] != x {
          HeadFirst(s, key, tail[j]);
        }
      }
      ConsSorted(s[0], tail, key);
      [s[0]] + tail
  }

  /** An element no greater than any element of a sorted sequence can go in
      front of it. */
  lemma ConsSorted<T>(h: T, s: seq<T>, key: T -> Key)
    requires SortedBy(s, key) && forall j :: 0 <= j < |s| ==> KeyLe(key(h), key(s[j]))
    ensures SortedBy([h] + s, key)
  {
    var r := [h] + s;
    forall i, j | 0 <= i < j < |r| ensures KeyLe(key(r[i]), key(r[j])) {
      assert r[j] == s[j - 1];
      if i > 0 {
        assert r[i] == s[i - 1];
      }
    }
  }

  lemma HeadFirst<T>(s: seq<T>, key: T -> Key, y: T)
    requires SortedBy(s, key) && s != [] && y in s[1..]
    ensures KeyLe(key(s[0]), key(y))
  {
    var j :| 0 <= j < |s[1..]| && s[1..][j] == y;
    assert s[j + 1] == y;
  }

  lemma {:induction false} InsertWithKey<T>(x: T, s: seq<T>, key: T -> Key, k: Key)
    requires SortedBy(s, key)
    ensures WithKey(Insert(x, s, key), key, k) == (if key(x) == k then [x] else []) + WithKey(s, key, k)
  {
    var r := Insert(x, s, key);
    if s == [] || KeyLe(key(x), key(s[0])) {
      assert r[1..] == s;
    } else {
      InsertWithKey(x, s[1..], key, k);
      assert r[1..] == Insert(x, s[1..], key);
    }
  }

  /** A stable sort by key, as Enumerable.OrderBy(...).ThenBy(...) performs:
      the result is ordered by key, is a permutation of the input, and keeps
      the input order of the elements that share a key. */
  function StableSortBy<T>(xs: seq<T>, key: T -> Key): (r: seq<T>)
    ensures |r| == |xs|
    ensures SortedBy(r, key)
    ensures multiset(r) == multiset(xs)
  {
    if xs == [] then []
    else
      var r := Insert(xs[0], StableSortBy(xs[1..], key), key);
      assert xs == [xs[0]] + xs[1..];
      assert |r| == |multiset(r)|;
      r
  }

  /** Stability: the elements that share a key keep their input order. */
  lemma {:induction false} StableSortKeepsOrder<T>(xs: seq<T>, key: T -> Key, k: Key)
    ensures WithKey(StableSortBy(xs, key), key, k) == WithKey(xs, key, k)
  {
    if xs != [] {
      StableSortKeepsOrder(xs[1..], key, k);
      InsertWithKey(xs[0], StableSortBy(xs[1..], key), key, k);
    }
  }

  /** SelectMany: the concatenation of a sequence of sequences. */
  function Flatten<T>(ss: seq<seq<T>>): seq<T> {
    if ss == [] then [] else ss[0] + Flatten(ss[1..])
  }

  /** Ordinal (character-code) lexicographic order on strings. */
  predicate StringLe(a: string, b: string) {
    if a == [] then true
    else if b == [] then false
    else if a[0] < b[0] then true
    else if a[0] > b[0] then false
    else StringLe(a[1..], b[1..])
  }

  lemma {:induction false} StringLeTotal(a: string, b: string)
    ensures StringLe(a, b) || StringLe(b, a)
  {
    if a != [] && b != [] && a[0] == b[0] {
      StringLeTotal(a[1..], b[1..]);
    }
  }

  lemma {:induction false} StringLeTransitive(a: string, b: string, c: string)
    requires StringLe(a, b) && StringLe(b, c)
    ensures StringLe(a, c)
  {
    if a != [] && b != [] && c != [] && a[0] == b[0] && b[0] == c[0] {
      StringLeTransitive(a[1..], b[1..], c[1..]);
    }
  }

  lemma {:induction false} StringLeAntisymmetric(a: string, b: string)
    requires StringLe(a, b) && StringLe(b, a)
    ensures a == b
  {
    if a != [] && b != [] {
      StringLeAntisymmetric(a[1..], b[1..]);
      assert a == [a[0]] + a[1..] && b == [b[0]] + b[1..];
    }
  }
}
