/** Values and selections shared by the models: an optional value and the
    first-wins `min(..., key=...)` of Python. */
module Prelude {

  datatype Option<+T> = None | Some(value: T)

  function Max(a: int, b: int): int { if a < b then b else a }

  /** `i` is the first position of a least key. */
  ghost predicate IsFirstMin<T>(s: seq<T>, key: T -> int, i: int) {
    && 0 <= i < |s|
    && (forall j :: 0 <= j < |s| ==> key(s[i]) <= key(s[j]))
    && (forall j :: 0 <= j < i ==> key(s[i]) < key(s[j]))
  }

  /** Where Python's `min(s, key=key)` finds its answer: ties go to the earliest element. */
  function MinBy<T>(s: seq<T>, key: T -> int): (i: nat)
    requires s != []
    ensures IsFirstMin(s, key, i)
  {
    if |s| == 1 then 0
    else
      var rest := MinBy(s[1..], key);
      assert forall j :: 1 <= j < |s| ==> s[j] == s[1..][j - 1];
      if key(s[0]) <= key(s[1..][rest]) then 0 else rest + 1
  }

  /** Keys that agree on every element pick the same element. */
  lemma SameKeysSameMin<T>(s: seq<T>, k1: T -> int, k2: T -> int)
    requires s != [] && forall x :: x in s ==> k1(x) == k2(x)
    ensures MinBy(s, k1) == MinBy(s, k2)
  {
    var i, j := MinBy(s, k1), MinBy(s, k2);
    assert s[i] in s && s[j] in s;
  }

  /** The elements satisfying `p`, in order. */
  function Filter<T(!new)>(s: seq<T>, p: T -> bool): (r: seq<T>)
    ensures forall x :: x in r <==> x in s && p(x)
  {
    if s == [] then []
    else if p(s[0]) then [s[0]] + Filter(s[1..], p)
    else Filter(s[1..], p)
  }

  lemma {:induction false} FilterAll<T(!new)>(s: seq<T>, p: T -> bool)
    requires forall x :: x in s ==> p(x)
    ensures Filter(s, p) == s
  {
    if s != [] {
      FilterAll(s[1..], p);
    }
  }

  lemma FilterSame<T(!new)>(s: seq<T>, p: T -> bool, q: T -> bool)
    requires forall x :: x in s ==> p(x) == q(x)
    ensures Filter(s, p) == Filter(s, q)
  {
  }

  lemma FilterNone<T(!new)>(s: seq<T>, p: T -> bool)
    requires forall x :: x in s ==> !p(x)
    ensures Filter(s, p) == []
  {
  }

  lemma {:induction false} FilterAppend<T(!new)>(s: seq<T>, x: T, p: T -> bool)
    ensures Filter(s + [x], p) == Filter(s, p) + if p(x) then [x] else []
  {
    if s == [] {
      assert s + [x] == [x];
    } else {
      FilterAppend(s[1..], x, p);
      assert (s + [x])[1..] == s[1..] + [x];
    }
  }

  ghost predicate Pairwise<T(!new)>(s: seq<T>, rel: (T, T) -> bool) {
    forall i, j :: 0 <= i < j < |s| ==> rel(s[i], s[j])
  }

  /** Leaving elements out keeps whatever holds of every pair. */
  lemma {:induction false} FilterPairwise<T(!new)>(s: seq<T>, p: T -> bool, rel: (T, T) -> bool)
    requires Pairwise(s, rel)
    ensures Pairwise(Filter(s, p), rel)
  {
    if s != [] {
      var rest := Filter(s[1..], p);
      FilterPairwise(s[1..], p, rel);
      forall j | 0 <= j < |rest| ensures rel(s[0], rest[j]) {
        assert rest[j] in rest;
      }
    }
  }

  lemma {:induction false} FilterTwice<T(!new)>(s: seq<T>, p: T -> bool, q: T -> bool, both: T -> bool)
    requires forall x :: x in s ==> both(x) == (p(x) && q(x))
    ensures Filter(Filter(s, p), q) == Filter(s, both)
  {
    if s != [] {
      FilterTwice(s[1..], p, q, both);
    }
  }

  /** If the first least element passes, it is the first least of those that pass. */
  lemma {:induction false} FilterKeepsMin<T(!new)>(s: seq<T>, p: T -> bool, key: T -> int)
    requires s != [] && p(s[MinBy(s, key)])
    ensures var kept := Filter(s, p);
            kept != [] && kept[MinBy(kept, key)] == s[MinBy(s, key)]
  {
    var kept := Filter(s, p);
    assert s[MinBy(s, key)] in kept;
    if MinBy(s, key) == 0 {
      HeadIsMin(kept, key, s[0]);
    } else {
      FilterKeepsMin(s[1..], p, key);
      assert p(s[0]) ==> kept[1..] == Filter(s[1..], p);
    }
  }

  lemma HeadIsMin<T(!new)>(s: seq<T>, key: T -> int, x: T)
    requires s != [] && s[0] == x && forall y :: y in s ==> key(x) <= key(y)
    ensures MinBy(s, key) == 0
  {
    assert IsFirstMin(s, key, 0);
  }

  /** The elements whose key is below a limit, in order. */
  function Below<T(!new)>(s: seq<T>, key: T -> int, limit: int): seq<T> { Filter(s, x => key(x) < limit) }

  /** Dropping every element at or above a limit never changes which element
      `min` returns, unless it drops them all. */
  lemma LimitKeepsMin<T(!new)>(s: seq<T>, key: T -> int, limit: int)
    requires Below(s, key, limit) != []
    ensures s != []
    ensures var kept := Below(s, key, limit);
            kept[MinBy(kept, key)] == s[MinBy(s, key)]
  {
    var x := Below(s, key, limit)[0];
    assert x in Below(s, key, limit);
    FilterKeepsMin(s, x => key(x) < limit, key);
  }

  /** The places of the elements satisfying `p`. */
  ghost function Places<T>(s: seq<T>, p: T -> bool): set<int> { set i | 0 <= i < |s| && p(s[i]) }

  /** A selection has as many elements as there are places of them. */
  lemma {:induction false} FilterCounts<T(!new)>(s: seq<T>, p: T -> bool)
    ensures |Filter(s, p)| == |Places(s, p)|
  {
    if s == [] {
      assert Places(s, p) == {};
    } else {
      var n := |s| - 1;
      FilterCounts(s[..n], p);
      FilterAppend(s[..n], s[n], p);
      assert s[..n] + [s[n]] == s;
      PlacesAppend(s[..n], s[n], p);
    }
  }

  lemma PlacesAppend<T>(s: seq<T>, x: T, p: T -> bool)
    ensures |Places(s + [x], p)| == |Places(s, p)| + if p(x) then 1 else 0
  {
    var before, after := Places(s, p), Places(s + [x], p);
    assert after == before + if p(x) then {|s|} else {};
    assert |s| !in before;
  }
}
