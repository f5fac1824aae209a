/** Orders without repetition, as kept by an ordered dictionary: removing a key
    and looking only at some of the keys commute. */
module Ordering {

  ghost predicate Distinct<K(!new)>(q: seq<K>) {
    forall i, j :: 0 <= i < j < |q| ==> q[i] != q[j]
  }

  function Without<K(==,!new)>(q: seq<K>, k: K): seq<K> {
    if q == [] then []
    else if q[0] == k then Without(q[1..], k)
    else [q[0]] + Without(q[1..], k)
  }

  /** `q` with the keys outside `keep` left out. */
  ghost function Restrict<K(!new)>(q: seq<K>, keep: set<K>): seq<K> {
    if q == [] then []
    else if q[0] in keep then [q[0]] + Restrict(q[1..], keep)
    else Restrict(q[1..], keep)
  }

  lemma {:induction false} WithoutMembers<K(!new)>(q: seq<K>, k: K)
    ensures forall x :: x in Without(q, k) <==> x in q && x != k
  {
    if q != [] {
      WithoutMembers(q[1..], k);
      assert forall x :: x in q <==> x == q[0] || x in q[1..];
    }
  }

  lemma {:induction false} WithoutAbsent<K(!new)>(q: seq<K>, k: K)
    requires k !in q
    ensures Without(q, k) == q
  {
    if q != [] {
      WithoutAbsent(q[1..], k);
    }
  }

  lemma {:induction false} WithoutDistinct<K(!new)>(q: seq<K>, k: K)
    requires Distinct(q)
    ensures Distinct(Without(q, k))
    ensures |Without(q, k)| == |q| - if k in q then 1 else 0
  {
    if q != [] {
      var tail, rest := q[1..], Without(q[1..], k);
      if q[0] == k {
        WithoutAbsent(tail, k);
      } else {
        WithoutDistinct(tail, k);
        WithoutMembers(tail, k);
        forall j | 0 <= j < |rest| ensures q[0] != rest[j] {
          assert rest[j] in rest;
        }
      }
    }
  }

  lemma WithoutHead<K(!new)>(q: seq<K>)
    requires q != [] && Distinct(q)
    ensures Without(q, q[0]) == q[1..]
  {
    WithoutAbsent(q[1..], q[0]);
  }

  lemma {:induction false} RestrictAppend<K(!new)>(q: seq<K>, k: K, keep: set<K>)
    ensures Restrict(q + [k], keep) == Restrict(q, keep) + if k in keep then [k] else []
  {
    if q == [] {
      assert q + [k] == [k];
    } else {
      RestrictAppend(q[1..], k, keep);
      assert (q + [k])[1..] == q[1..] + [k];
    }
  }

  lemma {:induction false} RestrictWithout<K(!new)>(q: seq<K>, k: K, keep: set<K>)
    ensures Restrict(Without(q, k), keep) == Without(Restrict(q, keep), k)
    ensures Restrict(q, keep - {k}) == Without(Restrict(q, keep), k)
  {
    if q != [] {
      RestrictWithout(q[1..], k, keep);
    }
  }

  lemma {:induction false} RestrictAbsent<K(!new)>(q: seq<K>, k: K, keep: set<K>)
    requires k !in q
    ensures Restrict(q, keep + {k}) == Restrict(q, keep)
  {
    if q != [] {
      RestrictAbsent(q[1..], k, keep);
    }
  }

  /** Moving a key to the end, seen through the kept keys and that key. */
  lemma RestrictTouch<K(!new)>(q: seq<K>, k: K, keep: set<K>)
    ensures Restrict(Without(q, k) + [k], keep + {k}) == Without(Restrict(q, keep), k) + [k]
  {
    WithoutMembers(q, k);
    RestrictAppend(Without(q, k), k, keep + {k});
    RestrictAbsent(Without(q, k), k, keep);
    RestrictWithout(q, k, keep);
  }
}
