/** The static health score: a weighted sum in which every product is floored
    on its own. */
module Score {
  import opened Prelude
  import opened Sorting

  const DEFAULT_SCORE := 50
  const MAX_TOP_FACTORS := 3

  datatype Tier = A | B | C | D

  datatype Weighted = Weighted(field: string, weight: nat)

  const FIELD_WEIGHTS: seq<Weighted> := [
    Weighted("engagement_level", 30),
    Weighted("deal_velocity", 25),
    Weighted("support_health", 20),
    Weighted("payment_history", 15),
    Weighted("product_adoption", 10)]

  const TIER_BOUNDARIES: seq<(int, Tier)> := [(80, A), (60, B), (40, C)]

  /** A stored factor: what `int(raw)` gives, or unreadable where it raises. */
  datatype Raw = Number(n: int) | Unreadable

  datatype Contribution = Contribution(field: string, value: int)

  function Clamp(x: int): (r: int)
    ensures 0 <= r <= 100
  {
    Max(0, if x < 100 then x else 100)
  }

  /** The factor's value: absent and unreadable ones count 0, the rest are clamped. */
  function FactorScore(factors: map<string, Raw>, field: string): (r: int)
    ensures 0 <= r <= 100
  {
    if field !in factors || factors[field].Unreadable? then 0 else Clamp(factors[field].n)
  }

  // ---------------------------------------------------------------------------
  // The sum, for any weight table
  // ---------------------------------------------------------------------------

  type Percents = ws: seq<nat> | Sum(ws) == 100 witness [100]

  function Sum(ws: seq<nat>): nat { if ws == [] then 0 else ws[0] + Sum(ws[1..]) }

  ghost predicate InRange(fs: seq<int>) { forall i :: 0 <= i < |fs| ==> 0 <= fs[i] <= 100 }

  /** What the loop adds up: one floor per factor. */
  function FloorSum(ws: seq<nat>, fs: seq<int>): int
    requires |ws| == |fs|
  {
    if ws == [] then 0 else fs[0] * ws[0] / 100 + FloorSum(ws[1..], fs[1..])
  }

  /** A hundred times the weighted mean. */
  function ExactSum(ws: seq<nat>, fs: seq<int>): int
    requires |ws| == |fs|
  {
    if ws == [] then 0 else fs[0] * ws[0] + ExactSum(ws[1..], fs[1..])
  }

  /** Each floor loses less than one point. */
  lemma {:induction false} FloorLoss(ws: seq<nat>, fs: seq<int>)
    requires |ws| == |fs|
    ensures 100 * FloorSum(ws, fs) <= ExactSum(ws, fs) <= 100 * FloorSum(ws, fs) + 99 * |ws|
    ensures 100 * FloorSum(ws, fs) == ExactSum(ws, fs) <==> forall i :: 0 <= i < |ws| ==> fs[i] * ws[i] % 100 == 0
  {
    if ws != [] {
      FloorLoss(ws[1..], fs[1..]);
      var x := fs[0] * ws[0];
      assert x == 100 * (x / 100) + x % 100;
      if 100 * FloorSum(ws, fs) == ExactSum(ws, fs) {
        forall i | 0 <= i < |ws| ensures fs[i] * ws[i] % 100 == 0 {
          if i > 0 { assert fs[i] * ws[i] == fs[1..][i - 1] * ws[1..][i - 1]; }
        }
      }
      if forall i :: 0 <= i < |ws| ==> fs[i] * ws[i] % 100 == 0 {
        forall i | 0 <= i < |ws| - 1 ensures fs[1..][i] * ws[1..][i] % 100 == 0 {
          assert fs[1..][i] * ws[1..][i] == fs[i + 1] * ws[i + 1];
        }
      }
    }
  }

  /** The floored total is at most the floor of the exact one, at most n - 1
      below it, and exact exactly when every product is a multiple of 100. */
  lemma {:induction false} FloorSumBounds(ws: seq<nat>, fs: seq<int>)
    requires |ws| == |fs| > 0
    ensures ExactSum(ws, fs) / 100 - (|ws| - 1) <= FloorSum(ws, fs) <= ExactSum(ws, fs) / 100
    ensures 100 * FloorSum(ws, fs) == ExactSum(ws, fs) <==> forall i :: 0 <= i < |ws| ==> fs[i] * ws[i] % 100 == 0
  {
    FloorLoss(ws, fs);
  }

  lemma ProductMonotone(f: int, g: int, w: nat)
    requires f <= g
    ensures f * w <= g * w && f * w / 100 <= g * w / 100
  {
    assert (g - f) * w >= 0;
  }

  /** Raising factors never lowers the score. */
  lemma {:induction false} FloorSumMonotone(ws: seq<nat>, fs: seq<int>, gs: seq<int>)
    requires |ws| == |fs| == |gs| && forall i :: 0 <= i < |fs| ==> fs[i] <= gs[i]
    ensures FloorSum(ws, fs) <= FloorSum(ws, gs)
  {
    if ws != [] {
      ProductMonotone(fs[0], gs[0], ws[0]);
      FloorSumMonotone(ws[1..], fs[1..], gs[1..]);
    }
  }

  lemma FullFactor(f: int, w: nat)
    requires 0 <= f <= 100
    ensures 0 <= f * w / 100 <= w
    ensures f * w / 100 == w <==> f == 100 || w == 0
  {
    assert f * w <= 100 * w && 0 <= f * w;
    if w > 0 && f < 100 {
      assert f * w <= 99 * w;
    }
  }

  /** The sum is within 0..the total weight, and reaches it exactly when every
      factor that weighs anything is full. */
  lemma {:induction false} FloorSumRange(ws: seq<nat>, fs: seq<int>)
    requires |ws| == |fs| && InRange(fs)
    ensures 0 <= FloorSum(ws, fs) <= Sum(ws)
    ensures FloorSum(ws, fs) == Sum(ws) <==> forall i :: 0 <= i < |ws| && ws[i] > 0 ==> fs[i] == 100
  {
    if ws != [] {
      FullFactor(fs[0], ws[0]);
      FloorSumRange(ws[1..], fs[1..]);
      if forall i :: 0 <= i < |ws| && ws[i] > 0 ==> fs[i] == 100 {
        assert forall i :: 0 <= i < |ws| - 1 ==> ws[1..][i] == ws[i + 1] && fs[1..][i] == fs[i + 1];
      } else {
        var i :| 0 <= i < |ws| && ws[i] > 0 && fs[i] != 100;
        if i > 0 { assert ws[1..][i - 1] == ws[i] && fs[1..][i - 1] == fs[i]; }
      }
    }
  }

  /** With weights that sum to 100 the final clamp never does anything, and 100
      is reached exactly when every factor with a weight is 100. */
  lemma ClampIsIdle(ws: Percents, fs: seq<int>)
    requires |ws| == |fs| && InRange(fs)
    ensures Clamp(FloorSum(ws, fs)) == FloorSum(ws, fs)
    ensures FloorSum(ws, fs) == 100 <==> forall i :: 0 <= i < |ws| && ws[i] > 0 ==> fs[i] == 100
  {
    FloorSumRange(ws, fs);
  }

  // ---------------------------------------------------------------------------
  // The score of a customer
  // ---------------------------------------------------------------------------

  function Weights(): (r: seq<nat>)
    ensures |r| == |FIELD_WEIGHTS| && forall i :: 0 <= i < |r| ==> r[i] == FIELD_WEIGHTS[i].weight
    ensures Sum(r) == 100
  {
    var r := [30, 25, 20, 15, 10];
    assert r[1..] == [25, 20, 15, 10] && r[1..][1..] == [20, 15, 10] && r[1..][1..][1..] == [15, 10];
    r
  }

  function FactorScores(factors: map<string, Raw>): (r: seq<int>)
    ensures |r| == |FIELD_WEIGHTS| && InRange(r)
    ensures forall i :: 0 <= i < |r| ==> r[i] == FactorScore(factors, FIELD_WEIGHTS[i].field)
  {
    seq(|FIELD_WEIGHTS|, i requires 0 <= i < |FIELD_WEIGHTS| => FactorScore(factors, FIELD_WEIGHTS[i].field))
  }

  function Contributions(factors: map<string, Raw>): (r: seq<Contribution>)
    ensures |r| == |FIELD_WEIGHTS|
    ensures forall i :: 0 <= i < |r| ==> r[i] == Contribution(FIELD_WEIGHTS[i].field, FactorScores(factors)[i])
  {
    seq(|FIELD_WEIGHTS|, i requires 0 <= i < |FIELD_WEIGHTS| =>
      Contribution(FIELD_WEIGHTS[i].field, FactorScores(factors)[i]))
  }

  predicate Scored(factors: Option<map<string, Raw>>) { factors.Some? && factors.value != map[] }

  /** The tier of a score: `t` is the best whose threshold it meets. */
  function TierOf(score: int): Tier {
    if score >= 80 then A else if score >= 60 then B else if score >= 40 then C else D
  }

  function Rank(t: Tier): nat {
    match t
    case D => 0
    case C => 1
    case B => 2
    case A => 3
  }

  function Value(): Contribution -> real { (c: Contribution) => c.value as real }

  /** `[k for k, v in sorted_contrib[:3] if v > 0]`. */
  function TopFactors(cs: seq<Contribution>): seq<string>
    requires |cs| >= MAX_TOP_FACTORS
  {
    Positive(SortDesc(cs, Value())[..MAX_TOP_FACTORS])
  }

  function Positive(cs: seq<Contribution>): (r: seq<string>)
    ensures |r| <= |cs|
    ensures forall f :: f in r <==> exists c :: c in cs && c.field == f && c.value > 0
  {
    if cs == [] then []
    else (if cs[0].value > 0 then [cs[0].field] else []) + Positive(cs[1..])
  }

  /** `calculate_score` without the AI annotation. */
  method CalculateScore(factors: Option<map<string, Raw>>) returns (score: int, tier: Tier, top: seq<string>)
    ensures !Scored(factors) ==> score == 50 && tier == C && top == []
    ensures Scored(factors) ==>
              && score == FloorSum(Weights(), FactorScores(factors.value))
              && tier == TierOf(score)
              && top == TopFactors(Contributions(factors.value))
    ensures 0 <= score <= 100 && tier == TierOf(score)
  {
    if !Scored(factors) { return DEFAULT_SCORE, C, []; }
    var total := 0;
    var contributions: seq<Contribution> := [];
    ghost var ws, fs := Weights(), FactorScores(factors.value);
    for i := 0 to |FIELD_WEIGHTS|
      invariant contributions == Contributions(factors.value)[..i]
      invariant total == FloorSum(ws[..i], fs[..i])
    {
      var field, weight := FIELD_WEIGHTS[i].field, FIELD_WEIGHTS[i].weight;
      var factorScore := 0;
      if field in factors.value && factors.value[field].Number? {
        factorScore := factors.value[field].n;
      }
      factorScore := Max(0, if factorScore < 100 then factorScore else 100);
      contributions := contributions + [Contribution(field, factorScore)];
      FloorSumAppend(ws, fs, i);
      total := total + factorScore * weight / 100;
    }
    assert ws[..|ws|] == ws && fs[..|fs|] == fs;
    assert contributions == Contributions(factors.value);
    ClampIsIdle(ws, fs);
    score := Max(0, if total < 100 then total else 100);
    tier := D;
    assert TIER_BOUNDARIES[0] == (80, A) && TIER_BOUNDARIES[1] == (60, B) && TIER_BOUNDARIES[2] == (40, C);
    for i := 0 to |TIER_BOUNDARIES|
      invariant tier == D && forall k :: 0 <= k < i ==> score < TIER_BOUNDARIES[k].0
    {
      if score >= TIER_BOUNDARIES[i].0 {
        tier := TIER_BOUNDARIES[i].1;
        assert i == 0 || i == 1 || i == 2;
        break;
      }
    }
    top := TopFactors(contributions);
  }

  lemma {:induction false} FloorSumAppend(ws: seq<nat>, fs: seq<int>, i: nat)
    requires |ws| == |fs| && i < |ws|
    ensures FloorSum(ws[..i + 1], fs[..i + 1]) == FloorSum(ws[..i], fs[..i]) + fs[i] * ws[i] / 100
  {
    if i > 0 {
      FloorSumAppend(ws[1..], fs[1..], i - 1);
      assert ws[..i + 1][1..] == ws[1..][..i] && fs[..i + 1][1..] == fs[1..][..i];
      assert ws[..i][1..] == ws[1..][..i - 1] && fs[..i][1..] == fs[1..][..i - 1];
    }
  }

  /** The score of a scored customer: at most 4 below the floor of the weighted
      mean, never above it, and equal to the mean exactly when no product
      leaves a remainder. */
  lemma ScoreNearMean(factors: map<string, Raw>)
    ensures var exact, score := ExactSum(Weights(), FactorScores(factors)), FloorSum(Weights(), FactorScores(factors));
            && exact / 100 - 4 <= score <= exact / 100
            && (100 * score == exact <==>
                  forall i :: 0 <= i < 5 ==> FactorScores(factors)[i] * FIELD_WEIGHTS[i].weight % 100 == 0)
  {
    FloorSumBounds(Weights(), FactorScores(factors));
    assert forall i :: 0 <= i < 5 ==>
             FactorScores(factors)[i] * Weights()[i] == FactorScores(factors)[i] * FIELD_WEIGHTS[i].weight;
  }

  /** The bound is met: a customer with 99 in every factor scores 95. */
  lemma NinetyNinesScoreNinetyFive(factors: map<string, Raw>)
    requires forall i :: 0 <= i < 5 ==> FactorScore(factors, FIELD_WEIGHTS[i].field) == 99
    ensures FloorSum(Weights(), FactorScores(factors)) == 95
    ensures ExactSum(Weights(), FactorScores(factors)) == 9900
  {
    var ws, fs := Weights(), FactorScores(factors);
    assert ws[1..] == [25, 20, 15, 10] && ws[1..][1..] == [20, 15, 10] && ws[1..][1..][1..] == [15, 10];
    assert fs == [99, 99, 99, 99, 99];
    assert fs[1..] == [99, 99, 99, 99] && fs[1..][1..] == [99, 99, 99] && fs[1..][1..][1..] == [99, 99];
    assert ws[1..][1..][1..][1..] == [10] && fs[1..][1..][1..][1..] == [99];
    assert FloorSum([10], [99]) == 9 && ExactSum([10], [99]) == 990;
    assert FloorSum([15, 10], [99, 99]) == 23 && ExactSum([15, 10], [99, 99]) == 2475;
    assert FloorSum([20, 15, 10], [99, 99, 99]) == 42 && ExactSum([20, 15, 10], [99, 99, 99]) == 4455;
    assert FloorSum(ws[1..], fs[1..]) == 66 && ExactSum(ws[1..], fs[1..]) == 6930;
  }

  /** A customer whose every factor is at least another's has at least the other's score and tier. */
  lemma BetterFactorsBetterTier(factors: map<string, Raw>, better: map<string, Raw>)
    requires forall i :: 0 <= i < 5 ==>
               FactorScore(factors, FIELD_WEIGHTS[i].field) <= FactorScore(better, FIELD_WEIGHTS[i].field)
    ensures var s, t := FloorSum(Weights(), FactorScores(factors)), FloorSum(Weights(), FactorScores(better));
            s <= t && Rank(TierOf(s)) <= Rank(TierOf(t))
  {
    FloorSumMonotone(Weights(), FactorScores(factors), FactorScores(better));
  }

  /** The top factors are the highest: a field with a positive value that is not
      among them gives way to three that are, none of them lower. */
  lemma TopFactorsAreHighest(cs: seq<Contribution>, c: Contribution)
    requires |cs| >= MAX_TOP_FACTORS && c in cs && c.value > 0 && c.field !in TopFactors(cs)
    requires forall i, j :: 0 <= i < j < |cs| ==> cs[i].field != cs[j].field
    ensures |TopFactors(cs)| == MAX_TOP_FACTORS
    ensures forall d :: d in cs && d.field in TopFactors(cs) ==> d.value >= c.value
  {
    var first := SortDesc(cs, Value())[..MAX_TOP_FACTORS];
    assert c !in first;
    LeftOutRanksLower(cs, Value(), MAX_TOP_FACTORS, c);
    forall i | 0 <= i < 3 ensures first[i].value >= c.value {
      assert Value()(first[i]) >= Value()(c);
    }
    AllPositive(first);
    forall d | d in cs && d.field in TopFactors(cs) ensures d.value >= c.value {
      var e :| e in first && e.field == d.field;
      assert e in SortDesc(cs, Value());
      assert e == d;
      var i :| 0 <= i < 3 && first[i] == e;
    }
  }

  lemma AllPositive(cs: seq<Contribution>)
    requires forall i :: 0 <= i < |cs| ==> cs[i].value > 0
    ensures |Positive(cs)| == |cs|
  {
  }

  // ---------------------------------------------------------------------------
  // What the numbers mean
  // ---------------------------------------------------------------------------

  /** A stored factor counts as itself within 0..100, else as the nearer bound;
      an absent or unreadable one counts 0. */
  lemma FactorCounts(factors: map<string, Raw>, field: string)
    ensures field !in factors ==> FactorScore(factors, field) == 0
    ensures field in factors && factors[field] == Unreadable ==> FactorScore(factors, field) == 0
    ensures forall n :: field in factors && factors[field] == Number(n) ==>
              && (n <= 0 ==> FactorScore(factors, field) == 0)
              && (0 <= n <= 100 ==> FactorScore(factors, field) == n)
              && (n >= 100 ==> FactorScore(factors, field) == 100)
  {
  }

  /** What each field weighs: a customer with one full factor and no other scores its weight. */
  lemma OneFullFactorScoresItsWeight(factors: map<string, Raw>, field: string)
    requires factors == map[field := Number(100)]
    requires field in {"engagement_level", "deal_velocity", "support_health", "payment_history", "product_adoption"}
    ensures FloorSum(Weights(), FactorScores(factors)) ==
              match field
              case "engagement_level" => 30
              case "deal_velocity" => 25
              case "support_health" => 20
              case "payment_history" => 15
              case _ => 10
  {
    var ws, fs := Weights(), FactorScores(factors);
    assert ws == [30, 25, 20, 15, 10];
    FloorSumOfFive(fs);
  }

  lemma FloorSumOfFive(fs: seq<int>)
    requires |fs| == 5
    ensures FloorSum([30, 25, 20, 15, 10], fs)
         == fs[0] * 30 / 100 + fs[1] * 25 / 100 + fs[2] * 20 / 100 + fs[3] * 15 / 100 + fs[4] * 10 / 100
  {
    var ws: seq<nat> := [30, 25, 20, 15, 10];
    FloorSumAppend(ws, fs, 0);
    FloorSumAppend(ws, fs, 1);
    FloorSumAppend(ws, fs, 2);
    FloorSumAppend(ws, fs, 3);
    FloorSumAppend(ws, fs, 4);
    assert ws[..5] == ws && fs[..5] == fs && ws[..0] == [] && fs[..0] == [];
  }

  /** The tiers' ranges. */
  lemma TierExactlyWhen(score: int)
    ensures TierOf(score) == A <==> 80 <= score
    ensures TierOf(score) == B <==> 60 <= score < 80
    ensures TierOf(score) == C <==> 40 <= score < 60
    ensures TierOf(score) == D <==> score < 40
  {
  }

  /** The top factors come highest first, all positive. */
  lemma TopFactorsDescend(cs: seq<Contribution>, i: nat, j: nat)
    requires |cs| >= MAX_TOP_FACTORS && i < j < |TopFactors(cs)|
    ensures exists c, e :: c in cs && e in cs && c.field == TopFactors(cs)[i] && e.field == TopFactors(cs)[j]
                           && c.value >= e.value > 0
  {
    var sorted := SortDesc(cs, Value());
    assert forall k, l :: 0 <= k < l < |sorted| ==> Value()(sorted[k]) >= Value()(sorted[l]);
    var k, l := PositivePlaces(sorted[..MAX_TOP_FACTORS], i, j);
    assert sorted[k] in sorted && sorted[l] in sorted;
    assert Value()(sorted[k]) >= Value()(sorted[l]);
  }

  lemma {:induction false} PositivePlaces(cs: seq<Contribution>, i: nat, j: nat) returns (k: nat, l: nat)
    requires i < j < |Positive(cs)|
    ensures k < l < |cs| && cs[k].field == Positive(cs)[i] && cs[l].field == Positive(cs)[j]
    ensures cs[k].value > 0 && cs[l].value > 0
  {
    if cs[0].value <= 0 {
      k, l := PositivePlaces(cs[1..], i, j);
      k, l := k + 1, l + 1;
    } else if i > 0 {
      k, l := PositivePlaces(cs[1..], i - 1, j - 1);
      k, l := k + 1, l + 1;
    } else {
      var p := PositivePlace(cs[1..], j - 1);
      k, l := 0, p + 1;
    }
  }

  lemma {:induction false} PositivePlace(cs: seq<Contribution>, j: nat) returns (l: nat)
    requires j < |Positive(cs)|
    ensures l < |cs| && cs[l].field == Positive(cs)[j] && cs[l].value > 0
  {
    if cs[0].value <= 0 {
      l := PositivePlace(cs[1..], j);
      l := l + 1;
    } else if j > 0 {
      l := PositivePlace(cs[1..], j - 1);
      l := l + 1;
    } else {
      l := 0;
    }
  }
}
