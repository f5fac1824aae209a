/** What "always give the next lead to the first least-loaded user" does to the
    vector of loads, whatever the tables behind the vector are. */
module LoadBalancing {
  import opened Prelude

  type Loads = v: seq<int> | v != [] witness [0]

  function Least(v: Loads): (i: nat)
    ensures IsFirstMin(v, x => x, i)
  {
    MinBy(v, x => x)
  }

  function Low(v: Loads): int { v[Least(v)] }

  function High(v: Loads): (m: int)
    ensures m in v && forall x :: x in v ==> x <= m
  {
    if |v| == 1 then v[0]
    else
      assert forall x :: x in v <==> x == v[0] || x in v[1..];
      Max(v[0], High(v[1..]))
  }

  function Spread(v: Loads): int { High(v) - Low(v) }

  function Total(v: seq<int>): int {
    if v == [] then 0 else v[0] + Total(v[1..])
  }

  /** How many leads are missing before every user carries as many as the busiest one. */
  function Deficit(v: Loads): int { |v| * High(v) - Total(v) }

  /** One assignment. */
  function Step(v: Loads): Loads { v[Least(v) := Low(v) + 1] }

  function Steps(v: Loads, n: nat): Loads
    decreases n
  {
    if n == 0 then v else Steps(Step(v), n - 1)
  }

  lemma {:induction false} TotalUpdate(v: seq<int>, i: nat, x: int)
    requires i < |v|
    ensures Total(v[i := x]) == Total(v) + x - v[i]
  {
    if i == 0 {
      assert v[0 := x][1..] == v[1..];
    } else {
      TotalUpdate(v[1..], i - 1, x);
      assert v[i := x][1..] == v[1..][i - 1 := x];
    }
  }

  lemma TimesOneMore(x: int, n: nat)
    ensures x * (n + 1) == x * n + x
  {
  }

  lemma {:induction false} TotalAbove(v: seq<int>, lo: int)
    requires forall x :: x in v ==> lo <= x
    ensures lo * |v| <= Total(v)
  {
    if v != [] {
      assert v[0] in v && forall x :: x in v[1..] ==> x in v;
      TotalAbove(v[1..], lo);
      TimesOneMore(lo, |v| - 1);
    }
  }

  lemma {:induction false} TotalBelow(v: seq<int>, hi: int)
    requires forall x :: x in v ==> x <= hi
    ensures Total(v) <= hi * |v|
    ensures Total(v) == hi * |v| ==> forall x :: x in v ==> x == hi
  {
    if v != [] {
      assert v[0] in v && forall x :: x in v[1..] ==> x in v;
      TotalBelow(v[1..], hi);
      TimesOneMore(hi, |v| - 1);
      assert forall x :: x in v ==> x == v[0] || x in v[1..];
    }
  }

  lemma TotalBounds(v: seq<int>, lo: int, hi: int)
    requires forall x :: x in v ==> lo <= x <= hi
    ensures lo * |v| <= Total(v) <= hi * |v|
    ensures Total(v) == hi * |v| ==> forall x :: x in v ==> x == hi
  {
    TotalAbove(v, lo);
    TotalBelow(v, hi);
  }

  lemma TotalAtMost(v: Loads, cap: int)
    requires High(v) <= cap
    ensures Total(v) <= |v| * cap
  {
    forall x | x in v ensures Low(v) <= x <= cap {}
    TotalBounds(v, Low(v), cap);
  }

  /** One assignment moves the extremes as little as possible. */
  lemma StepExtremes(v: Loads)
    ensures Low(v) <= Low(Step(v)) <= Low(v) + 1
    ensures High(Step(v)) == if Low(v) == High(v) then High(v) + 1 else High(v)
    ensures Total(Step(v)) == Total(v) + 1
  {
    var w, i := Step(v), Least(v);
    TotalUpdate(v, i, Low(v) + 1);
    assert forall k :: 0 <= k < |v| ==> w[k] == if k == i then v[i] + 1 else v[k];
    assert w[i] in w && w[Least(w)] in w;
    assert v[i] in v;
    var h :| 0 <= h < |v| && v[h] == High(v);
    assert w[h] in w;
    var g :| 0 <= g < |w| && w[g] == High(w);
    assert v[g] in v;
  }

  lemma StepSpread(v: Loads)
    ensures Spread(Step(v)) <= Max(1, Spread(v))
  {
    StepExtremes(v);
  }

  /** The gap between the busiest and the idlest user never grows past
      max(1, the initial gap), however many leads are assigned. */
  lemma {:induction false} SpreadNeverGrows(v: Loads, n: nat)
    ensures Spread(Steps(v, n)) <= Max(1, Spread(v))
    decreases n
  {
    if n > 0 {
      StepSpread(v);
      SpreadNeverGrows(Step(v), n - 1);
    }
  }

  /** Until the deficit is used up the busiest load stays put and the deficit
      drops by one per lead; from then on the gap is at most one, forever. */
  lemma {:induction false} Converges(v: Loads, n: nat)
    requires n >= Deficit(v)
    ensures Spread(Steps(v, n)) <= 1
    decreases n
  {
    if Spread(v) <= 1 {
      SpreadNeverGrows(v, n);
    } else {
      LowBoundsTotal(v);
      StepExtremes(v);
      Converges(Step(v), n - 1);
    }
  }

  /** An uneven team has room left below its busiest user. */
  lemma LowBoundsTotal(v: Loads)
    ensures Deficit(v) >= 0
    ensures Low(v) < High(v) ==> Deficit(v) > 0
  {
    forall x | x in v ensures Low(v) <= x <= High(v) {}
    TotalBounds(v, Low(v), High(v));
    assert Low(v) in v;
  }

  lemma {:induction false} TotalSteps(v: Loads, n: nat)
    ensures |Steps(v, n)| == |v| && Total(Steps(v, n)) == Total(v) + n
    decreases n
  {
    if n > 0 {
      StepExtremes(v);
      TotalSteps(Step(v), n - 1);
    }
  }

  /** Pigeonhole: while the whole team has room for the leads, nobody passes the cap. */
  lemma {:induction false} NobodyPassesCap(v: Loads, cap: int, n: nat)
    requires forall x :: x in v ==> x <= cap
    requires Total(v) + n <= |v| * cap
    ensures forall x :: x in Steps(v, n) ==> x <= cap
    decreases n
  {
    if n > 0 {
      var w := Step(v);
      StepExtremes(v);
      if Low(v) >= cap {
        TotalBounds(v, cap, High(v));
        assert false;
      }
      forall x | x in w ensures x <= cap {
        var k :| 0 <= k < |w| && w[k] == x;
        assert v[k] in v;
      }
      NobodyPassesCap(w, cap, n - 1);
    }
  }

  /** ... and conversely a full team leaves somebody above the cap. */
  lemma SomebodyPassesCap(v: Loads, cap: int, n: nat)
    requires Total(v) + n > |v| * cap
    ensures exists x :: x in Steps(v, n) && x > cap
  {
    TotalSteps(v, n);
    var w := Steps(v, n);
    assert High(w) in w && |w| * cap == |v| * cap;
    if High(w) <= cap {
      TotalAtMost(w, cap);
    }
  }
}
