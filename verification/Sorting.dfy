/** `sorted(s, key=..., reverse=True)`: descending, and equal keys keep the
    order they came in. */
module Sorting {
  import opened Prelude
  import opened Ordering

  ghost predicate Descending<T(!new)>(s: seq<T>, key: T -> real) {
    forall i, j :: 0 <= i < j < |s| ==> key(s[i]) >= key(s[j])
  }

  function Insert<T(!new)>(x: T, s: seq<T>, key: T -> real): (r: seq<T>)
    ensures |r| == |s| + 1 && forall y :: y in r <==> y == x || y in s
  {
    if s == [] || key(x) >= key(s[0]) then [x] + s
    else [s[0]] + Insert(x, s[1..], key)
  }

  function SortDesc<T(!new)>(s: seq<T>, key: T -> real): (r: seq<T>)
    ensures |r| == |s| && forall y :: y in r <==> y in s
    ensures Descending(r, key)
  {
    if s == [] then []
    else
      var rest := SortDesc(s[1..], key);
      InsertKeepsOrder(s[0], rest, key);
      Insert(s[0], rest, key)
  }

  lemma {:induction false} InsertKeepsOrder<T(!new)>(x: T, s: seq<T>, key: T -> real)
    requires Descending(s, key)
    ensures Descending(Insert(x, s, key), key)
  {
    if s != [] && key(x) < key(s[0]) {
      InsertKeepsOrder(x, s[1..], key);
      var rest := Insert(x, s[1..], key);
      assert forall j :: 0 <= j < |rest| ==> rest[j] in rest;
      forall j | 0 <= j < |rest| ensures key(s[0]) >= key(rest[j]) {
        if rest[j] in s[1..] {
          var k :| 0 <= k < |s[1..]| && s[1..][k] == rest[j];
          assert s[k + 1] == rest[j];
        }
      }
    }
  }

  function HasKey<T>(key: T -> real, v: real): T -> bool { (x: T) => key(x) == v }

  /** Stability: the elements of any one key appear in their original order. */
  lemma {:induction false} SortIsStable<T(!new)>(s: seq<T>, key: T -> real, v: real)
    ensures Filter(SortDesc(s, key), HasKey(key, v)) == Filter(s, HasKey(key, v))
  {
    if s != [] {
      SortIsStable(s[1..], key, v);
      InsertIsStable(s[0], SortDesc(s[1..], key), key, v);
    }
  }

  lemma {:induction false} InsertIsStable<T(!new)>(x: T, s: seq<T>, key: T -> real, v: real)
    requires Descending(s, key)
    ensures Filter(Insert(x, s, key), HasKey(key, v)) == (if key(x) == v then [x] else []) + Filter(s, HasKey(key, v))
  {
    if s != [] && key(x) < key(s[0]) {
      InsertIsStable(x, s[1..], key, v);
    }
  }

  lemma {:induction false} InsertDistinct<T(!new)>(x: T, s: seq<T>, key: T -> real)
    requires Distinct(s) && x !in s
    ensures Distinct(Insert(x, s, key))
  {
    if s != [] && key(x) < key(s[0]) {
      InsertDistinct(x, s[1..], key);
      var rest := Insert(x, s[1..], key);
      forall j | 0 <= j < |rest| ensures s[0] != rest[j] {
        assert rest[j] in rest && s[0] in s;
      }
    }
  }

  lemma {:induction false} SortDistinct<T(!new)>(s: seq<T>, key: T -> real)
    requires Distinct(s)
    ensures Distinct(SortDesc(s, key))
  {
    if s != [] {
      SortDistinct(s[1..], key);
      InsertDistinct(s[0], SortDesc(s[1..], key), key);
    }
  }

  /** What the first `n` of the ranking leave out ranks no higher than any of them. */
  lemma LeftOutRanksLower<T(!new)>(s: seq<T>, key: T -> real, n: nat, x: T)
    requires n <= |s| && x in s && x !in SortDesc(s, key)[..n]
    ensures forall i :: 0 <= i < n ==> key(SortDesc(s, key)[i]) >= key(x)
  {
    var ranked := SortDesc(s, key);
    var k :| 0 <= k < |ranked| && ranked[k] == x;
    assert forall j :: 0 <= j < n ==> ranked[..n][j] == ranked[j] && ranked[j] in ranked[..n];
  }
}
