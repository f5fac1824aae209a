/** Churn scoring of one customer, and of a batch. */
module Churn {
  import opened Prelude
  import opened Sorting

  datatype Customer = Customer(id: int, tenantId: int)
  datatype Activity = Activity(tenantId: int, customerId: int, kind: string, createdAt: int)
  datatype Opportunity = Opportunity(tenantId: int, customerId: int, stage: string, createdAt: int)
  datatype Ticket = Ticket(tenantId: int, customerId: int, status: string)

  datatype Tables = Tables(
    customers: seq<Customer>, activities: seq<Activity>, opportunities: seq<Opportunity>, tickets: seq<Ticket>)

  const DAY := 86400
  const LOGIN_DAYS := 30

  datatype Dimension = LoginFrequency | PurchaseRecency | SupportTicketCount | EngagementScore

  datatype Metrics = Metrics(
    loginFrequency: int, purchaseRecencyDays: real, supportTicketCount: int, engagementRaw: int)

  datatype Factor = Factor(name: Dimension, weight: real, score: real)

  datatype Action = PrioritizeTickets | ReactivateBuyer | PersonalizeContent | KeepGoing

  datatype Prediction = Prediction(
    customerId: int, score: real, tier: string, topThree: seq<Factor>, actions: seq<Action>)

  predicate Exists(db: Tables, id: int, tenantId: int) { Customer(id, tenantId) in db.customers }

  // ---------------------------------------------------------------------------
  // The single path: filtered aggregates
  // ---------------------------------------------------------------------------

  function Recent(tenantId: int, since: int): Activity -> bool {
    (a: Activity) => a.tenantId == tenantId && a.createdAt >= since
  }
  function Won(tenantId: int): Opportunity -> bool {
    (o: Opportunity) => o.tenantId == tenantId && o.stage == "won"
  }
  function Open(tenantId: int): Ticket -> bool {
    (t: Ticket) => t.tenantId == tenantId && (t.status == "open" || t.status == "pending")
  }

  /** `where p and customer_id = id`. */
  function Of<T>(p: T -> bool, owner: T -> int, id: int): T -> bool { (x: T) => p(x) && owner(x) == id }

  function ActivityOwner(): Activity -> int { (a: Activity) => a.customerId }
  function OpportunityOwner(): Opportunity -> int { (o: Opportunity) => o.customerId }
  function TicketOwner(): Ticket -> int { (t: Ticket) => t.customerId }

  /** `count(distinct type)`. */
  function Kinds(rows: seq<Activity>): set<string> { set a | a in rows :: a.kind }

  /** `max(created_at)`: null over no rows. */
  function Latest(rows: seq<Opportunity>): (r: Option<int>)
    ensures r.None? <==> rows == []
    ensures r.Some? ==> (exists o :: o in rows && o.createdAt == r.value) && forall o :: o in rows ==> o.createdAt <= r.value
  {
    if rows == [] then None
    else
      var n := |rows| - 1;
      var before := Latest(rows[..n]);
      assert forall o :: o in rows <==> o in rows[..n] || o == rows[n];
      Some(Later(before, rows[n].createdAt))
  }

  function Later(before: Option<int>, at: int): int {
    if before.None? || before.value < at then at else before.value
  }

  function RecencyDays(last: Option<int>, now: int): real {
    if last.None? then 90.0
    else
      var days := (now - last.value) as real / DAY as real;
      if days < 0.0 then 0.0 else days
  }

  /** `_fetch_raw_metrics` for an existing customer. */
  function RawMetrics(db: Tables, id: int, tenantId: int, now: int): Metrics {
    var recent := Filter(db.activities, Of(Recent(tenantId, now - LOGIN_DAYS * DAY), ActivityOwner(), id));
    Metrics(
      |recent|,
      RecencyDays(Latest(Filter(db.opportunities, Of(Won(tenantId), OpportunityOwner(), id))), now),
      |Filter(db.tickets, Of(Open(tenantId), TicketOwner(), id))|,
      |Kinds(recent)|)
  }

  // ---------------------------------------------------------------------------
  // Scoring
  // ---------------------------------------------------------------------------

  function MinR(a: real, b: real): real { if b < a then b else a }
  function MaxR(a: real, b: real): real { if b > a then b else a }

  /** `_normalize_score`. */
  function Normalize(name: Dimension, raw: real): real {
    match name
    case LoginFrequency => MinR(raw / 10.0 * 100.0, 100.0)
    case PurchaseRecency => MaxR(0.0, 100.0 - raw)
    case SupportTicketCount => MaxR(0.0, 100.0 - MinR(raw / 5.0 * 100.0, 100.0))
    case EngagementScore => MinR(raw / 5.0 * 100.0, 100.0)
  }

  const DIMENSIONS := [LoginFrequency, PurchaseRecency, SupportTicketCount, EngagementScore]
  const WEIGHT := 0.25

  function Raw(m: Metrics, name: Dimension): real {
    match name
    case LoginFrequency => m.loginFrequency as real
    case PurchaseRecency => m.purchaseRecencyDays
    case SupportTicketCount => m.supportTicketCount as real
    case EngagementScore => m.engagementRaw as real
  }

  function Health(m: Metrics): Dimension -> real { (name: Dimension) => Normalize(name, Raw(m, name)) }

  function Risk(m: Metrics): Dimension -> real { (name: Dimension) => 100.0 - Health(m)(name) }

  function WeightedHealth(m: Metrics): real {
    Health(m)(LoginFrequency) * WEIGHT + Health(m)(PurchaseRecency) * WEIGHT
    + Health(m)(SupportTicketCount) * WEIGHT + Health(m)(EngagementScore) * WEIGHT
  }

  function Tier(risk: real): string {
    if risk >= 70.0 then "high" else if risk >= 40.0 then "medium" else "low"
  }

  /** `_build_top_3_factors`. */
  function TopThree(m: Metrics): seq<Factor> {
    var ranked := SortDesc(DIMENSIONS, Risk(m));
    seq(3, i requires 0 <= i < 3 => Factor(ranked[i], WEIGHT, Health(m)(ranked[i])))
  }

  function Actions(m: Metrics): seq<Action> {
    var found :=
      (if m.supportTicketCount > 2 then [PrioritizeTickets] else [])
      + (if m.purchaseRecencyDays > 60.0 then [ReactivateBuyer] else [])
      + (if m.loginFrequency < 3 then [PersonalizeContent] else []);
    if found == [] then [KeepGoing] else found
  }

  /** The prediction both paths build from the metrics; `round2` is Python's `round(x, 2)`. */
  function Predict(id: int, m: Metrics, round2: real -> real): Prediction {
    var health := round2(MaxR(0.0, MinR(WeightedHealth(m), 100.0)));
    Prediction(id, health, Tier(ChurnRisk(health, round2)), TopThree(m), Actions(m))
  }

  function ChurnRisk(health: real, round2: real -> real): real { round2(MaxR(0.0, MinR(100.0 - health, 100.0))) }

  /** `calculate_score`; `None` is NotFound. */
  function CalculateScore(db: Tables, id: int, tenantId: int, now: int, round2: real -> real): Option<Prediction> {
    if Exists(db, id, tenantId) then Some(Predict(id, RawMetrics(db, id, tenantId, now), round2)) else None
  }

  /** Every metric of the tables gives sub-scores in 0..100, so the clamp of
      the weighted sum changes nothing. */
  lemma HealthInRange(db: Tables, id: int, tenantId: int, now: int)
    ensures var m := RawMetrics(db, id, tenantId, now);
            && (forall d :: 0.0 <= Health(m)(d) <= 100.0)
            && MaxR(0.0, MinR(WeightedHealth(m), 100.0)) == WeightedHealth(m)
  {
    var m := RawMetrics(db, id, tenantId, now);
    forall d ensures 0.0 <= Health(m)(d) <= 100.0 {
      assert Raw(m, d) >= 0.0;
      if d == LoginFrequency { assert Raw(m, d) / 10.0 >= 0.0; }
    }
  }

  /** The first three of the ranking are distinct, and nothing outside them ranks above them. */
  lemma RankingOfFour(key: Dimension -> real, d: Dimension)
    ensures var ranked := SortDesc(DIMENSIONS, key);
            && |ranked| == 4
            && (forall i, j :: 0 <= i < j < 3 ==> ranked[i] != ranked[j] && key(ranked[i]) >= key(ranked[j]))
            && (d !in ranked[..3] ==> forall i :: 0 <= i < 3 ==> key(ranked[i]) >= key(d))
  {
    SortDistinct(DIMENSIONS, key);
    assert d in DIMENSIONS;
    if d !in SortDesc(DIMENSIONS, key)[..3] { LeftOutRanksLower(DIMENSIONS, key, 3, d); }
  }

  lemma TopThreeRanked(m: Metrics)
    ensures var ranked, top := SortDesc(DIMENSIONS, Risk(m)), TopThree(m);
            |ranked| == 4 && |top| == 3
            && forall i :: 0 <= i < 3 ==>
                 && top[i].name == ranked[i] && top[i].weight == 0.25 && top[i].score == Health(m)(ranked[i])
                 && Risk(m)(ranked[i]) == 100.0 - top[i].score
  {
  }

  /** The three factors are distinct dimensions, worst health first, and the one
      left out is no worse than any of them. */
  lemma TopThreeAreWorst(m: Metrics, d: Dimension)
    ensures var top := TopThree(m);
            && |top| == 3
            && (forall i :: 0 <= i < 3 ==> top[i].weight == 0.25 && top[i].score == Health(m)(top[i].name))
            && (forall i, j :: 0 <= i < j < 3 ==> top[i].name != top[j].name && top[i].score <= top[j].score)
            && ((forall i :: 0 <= i < 3 ==> top[i].name != d) ==>
                  forall i :: 0 <= i < 3 ==> top[i].score <= Health(m)(d))
  {
    RankingOfFour(Risk(m), d);
    TopThreeRanked(m);
    var ranked := SortDesc(DIMENSIONS, Risk(m));
    assert Risk(m)(d) == 100.0 - Health(m)(d);
    assert ranked[..3] == [ranked[0], ranked[1], ranked[2]];
  }

  // ---------------------------------------------------------------------------
  // What the numbers mean
  // ---------------------------------------------------------------------------

  /** The metrics count the customer's rows in the tenant: activities of the last
      30 days (2592000 seconds) and their kinds, open and pending tickets, days
      since the last win. */
  lemma MetricsCount(db: Tables, id: int, tenantId: int, now: int)
    ensures var m := RawMetrics(db, id, tenantId, now);
            && m.loginFrequency == |set i | 0 <= i < |db.activities| && IsRecent(db.activities[i], id, tenantId, now)|
            && m.engagementRaw
               == |set i | 0 <= i < |db.activities| && IsRecent(db.activities[i], id, tenantId, now) :: db.activities[i].kind|
            && m.supportTicketCount == |set i | 0 <= i < |db.tickets| && IsOpen(db.tickets[i], id, tenantId)|
  {
    RecentCount(db.activities, id, tenantId, now);
    OpenCount(db.tickets, id, tenantId);
  }

  lemma RecentCount(rows: seq<Activity>, id: int, tenantId: int, now: int)
    ensures var recent := Filter(rows, Of(Recent(tenantId, now - LOGIN_DAYS * DAY), ActivityOwner(), id));
            && |recent| == |set i | 0 <= i < |rows| && IsRecent(rows[i], id, tenantId, now)|
            && Kinds(recent) == set i | 0 <= i < |rows| && IsRecent(rows[i], id, tenantId, now) :: rows[i].kind
  {
    var recent := Of(Recent(tenantId, now - LOGIN_DAYS * DAY), ActivityOwner(), id);
    assert forall i :: 0 <= i < |rows| ==> (recent(rows[i]) <==> IsRecent(rows[i], id, tenantId, now));
    FilterCounts(rows, recent);
    assert Places(rows, recent) == set i | 0 <= i < |rows| && IsRecent(rows[i], id, tenantId, now);
    KindsOf(rows, recent);
  }

  lemma OpenCount(rows: seq<Ticket>, id: int, tenantId: int)
    ensures |Filter(rows, Of(Open(tenantId), TicketOwner(), id))|
         == |set i | 0 <= i < |rows| && IsOpen(rows[i], id, tenantId)|
  {
    var open := Of(Open(tenantId), TicketOwner(), id);
    FilterCounts(rows, open);
    assert Places(rows, open) == set i | 0 <= i < |rows| && IsOpen(rows[i], id, tenantId);
  }

  lemma KindsOf(rows: seq<Activity>, p: Activity -> bool)
    ensures Kinds(Filter(rows, p)) == set i | 0 <= i < |rows| && p(rows[i]) :: rows[i].kind
  {
    var kinds := set i | 0 <= i < |rows| && p(rows[i]) :: rows[i].kind;
    forall k | k in Kinds(Filter(rows, p)) ensures k in kinds {
      var a :| a in Filter(rows, p) && a.kind == k;
      var i :| 0 <= i < |rows| && rows[i] == a;
    }
    forall k | k in kinds ensures k in Kinds(Filter(rows, p)) {
      var i :| 0 <= i < |rows| && p(rows[i]) && rows[i].kind == k;
      assert rows[i] in Filter(rows, p);
    }
  }

  ghost predicate IsRecent(a: Activity, id: int, tenantId: int, now: int) {
    a.tenantId == tenantId && a.customerId == id && now - a.createdAt <= 2592000
  }

  ghost predicate IsOpen(t: Ticket, id: int, tenantId: int) {
    t.tenantId == tenantId && t.customerId == id && t.status in {"open", "pending"}
  }

  ghost predicate IsWin(o: Opportunity, id: int, tenantId: int) {
    o.tenantId == tenantId && o.customerId == id && o.stage == "won"
  }

  /** Recency is 90 days without a win, else the days since the latest one, 0 if that lies ahead. */
  lemma RecencyMeans(db: Tables, id: int, tenantId: int, now: int)
    ensures var days := RawMetrics(db, id, tenantId, now).purchaseRecencyDays;
            if exists o :: o in db.opportunities && IsWin(o, id, tenantId) then
              exists o ::
                && o in db.opportunities && IsWin(o, id, tenantId)
                && (forall q :: q in db.opportunities && IsWin(q, id, tenantId) ==> q.createdAt <= o.createdAt)
                && 86400.0 * days == (if o.createdAt <= now then now - o.createdAt else 0) as real
            else days == 90.0
  {
    var wins := Filter(db.opportunities, Of(Won(tenantId), OpportunityOwner(), id));
    assert forall o :: o in wins <==> o in db.opportunities && IsWin(o, id, tenantId);
    if wins != [] {
      assert wins[0] in wins;
      var o := LatestRow(wins);
      DaysOf(o.createdAt, now);
    }
  }

  lemma LatestRow(rows: seq<Opportunity>) returns (o: Opportunity)
    requires rows != []
    ensures o in rows && Latest(rows) == Some(o.createdAt) && forall q :: q in rows ==> q.createdAt <= o.createdAt
  {
    var last := Latest(rows);
    o :| o in rows && o.createdAt == last.value;
  }

  lemma DaysOf(at: int, now: int)
    ensures 86400.0 * RecencyDays(Some(at), now) == (if at <= now then now - at else 0) as real
  {
    var days := (now - at) as real / 86400.0;
    assert 86400.0 * days == (now - at) as real;
  }

  /** The four sub-scores, between their end points: 10 a login up to 100, 100
      less one a day down to 0, 100 less 20 a ticket down to 0, 20 a kind up to 100. */
  lemma SubScores(m: Metrics)
    ensures Health(m)(LoginFrequency) == if m.loginFrequency >= 10 then 100.0 else (10 * m.loginFrequency) as real
    ensures Health(m)(PurchaseRecency)
         == if m.purchaseRecencyDays >= 100.0 then 0.0 else 100.0 - m.purchaseRecencyDays
    ensures m.supportTicketCount >= 0 ==>
              Health(m)(SupportTicketCount) == if m.supportTicketCount >= 5 then 0.0 else (100 - 20 * m.supportTicketCount) as real
    ensures Health(m)(EngagementScore) == if m.engagementRaw >= 5 then 100.0 else (20 * m.engagementRaw) as real
  {
    assert (10 * m.loginFrequency) as real == m.loginFrequency as real / 10.0 * 100.0;
    assert (20 * m.supportTicketCount) as real == m.supportTicketCount as real / 5.0 * 100.0;
    assert (20 * m.engagementRaw) as real == m.engagementRaw as real / 5.0 * 100.0;
  }

  /** The end points of each dimension. */
  lemma EndPoints(m: Metrics)
    ensures m.loginFrequency == 0 ==> Health(m)(LoginFrequency) == 0.0
    ensures m.loginFrequency == 10 ==> Health(m)(LoginFrequency) == 100.0
    ensures m.purchaseRecencyDays == 0.0 ==> Health(m)(PurchaseRecency) == 100.0
    ensures m.purchaseRecencyDays == 100.0 ==> Health(m)(PurchaseRecency) == 0.0
    ensures m.supportTicketCount == 0 ==> Health(m)(SupportTicketCount) == 100.0
    ensures m.supportTicketCount == 5 ==> Health(m)(SupportTicketCount) == 0.0
    ensures m.engagementRaw == 0 ==> Health(m)(EngagementScore) == 0.0
    ensures m.engagementRaw == 5 ==> Health(m)(EngagementScore) == 100.0
  {
    SubScores(m);
  }

  /** At least as active, at least as varied, no more open tickets and no older a win. */
  ghost predicate NoWorse(m: Metrics, m': Metrics) {
    && m.loginFrequency <= m'.loginFrequency && m.engagementRaw <= m'.engagementRaw
    && m.supportTicketCount >= m'.supportTicketCount && m.purchaseRecencyDays >= m'.purchaseRecencyDays
  }

  function TierRank(tier: string): int {
    if tier == "high" then 2 else if tier == "medium" then 1 else 0
  }

  ghost predicate Monotone(f: real -> real) { forall x, y :: x <= y ==> f(x) <= f(y) }

  /** More activities or kinds never lower the health score, more open tickets
      or an older win never raise it; the churn tier goes the other way. */
  lemma NoWorseScoresNoLower(id: int, m: Metrics, m': Metrics, round2: real -> real)
    requires NoWorse(m, m') && Monotone(round2)
    ensures Predict(id, m, round2).score <= Predict(id, m', round2).score
    ensures TierRank(Predict(id, m, round2).tier) >= TierRank(Predict(id, m', round2).tier)
  {
    forall d ensures Health(m)(d) <= Health(m')(d) {
      SubScoreMonotone(m, m', d);
    }
  }

  lemma SubScoreMonotone(m: Metrics, m': Metrics, d: Dimension)
    requires NoWorse(m, m')
    ensures Health(m)(d) <= Health(m')(d)
  {
    var x, y := Raw(m, d), Raw(m', d);
    assert d in {LoginFrequency, EngagementScore} ==> x / 10.0 * 100.0 <= y / 10.0 * 100.0 && x / 5.0 * 100.0 <= y / 5.0 * 100.0;
    assert d == SupportTicketCount ==> x / 5.0 * 100.0 >= y / 5.0 * 100.0;
  }

  /** The score is the rounded mean of the four sub-scores, for whatever the
      tables hold; the tier is high exactly from a rounded risk of 70 on, medium
      from 40 on; the weights are equal. */
  lemma ScoreIsMean(db: Tables, id: int, tenantId: int, now: int, round2: real -> real)
    ensures var m := RawMetrics(db, id, tenantId, now);
            var score := Predict(id, m, round2).score;
            && Predict(id, m, round2).customerId == id
            && score == round2((Health(m)(LoginFrequency) + Health(m)(PurchaseRecency)
                                + Health(m)(SupportTicketCount) + Health(m)(EngagementScore)) / 4.0)
            && (0.0 <= score <= 100.0 ==> IsTierOf(Predict(id, m, round2).tier, round2(100.0 - score)))
  {
    var m := RawMetrics(db, id, tenantId, now);
    HealthInRange(db, id, tenantId, now);
    WeightedHealthIsMean(m);
    TierExactlyWhen(m, id, round2);
  }

  ghost predicate IsTierOf(tier: string, risk: real) {
    && (tier == "high" <==> risk >= 70.0)
    && (tier == "medium" <==> 40.0 <= risk < 70.0)
    && (tier == "low" <==> risk < 40.0)
  }

  lemma TierExactlyWhen(m: Metrics, id: int, round2: real -> real)
    ensures var p := Predict(id, m, round2);
            0.0 <= p.score <= 100.0 ==> IsTierOf(p.tier, round2(100.0 - p.score))
  {
    PredictTier(id, m, round2);
    TierOfScore(Predict(id, m, round2).score, round2);
  }

  lemma TierOfScore(score: real, round2: real -> real)
    ensures 0.0 <= score <= 100.0 ==> IsTierOf(Tier(ChurnRisk(score, round2)), round2(100.0 - score))
  {
    if 0.0 <= score <= 100.0 {
      RiskUnclamped(score, round2);
      TierRange(round2(100.0 - score));
    }
  }

  lemma PredictTier(id: int, m: Metrics, round2: real -> real)
    ensures Predict(id, m, round2).tier == Tier(ChurnRisk(Predict(id, m, round2).score, round2))
  {
  }

  lemma RiskUnclamped(score: real, round2: real -> real)
    requires 0.0 <= score <= 100.0
    ensures ChurnRisk(score, round2) == round2(100.0 - score)
  {
  }

  lemma TierRange(risk: real)
    ensures IsTierOf(Tier(risk), risk)
  {
    assert "high"[0] == 'h' && "medium"[0] == 'm' && "low"[0] == 'l';
  }

  lemma WeightedHealthIsMean(m: Metrics)
    ensures WeightedHealth(m) == (Health(m)(LoginFrequency) + Health(m)(PurchaseRecency)
                                  + Health(m)(SupportTicketCount) + Health(m)(EngagementScore)) / 4.0
  {
  }

  /** Exactly when each action is recommended. */
  lemma ActionsExactlyWhen(m: Metrics)
    ensures PrioritizeTickets in Actions(m) <==> m.supportTicketCount >= 3
    ensures ReactivateBuyer in Actions(m) <==> m.purchaseRecencyDays > 60.0
    ensures PersonalizeContent in Actions(m) <==> m.loginFrequency <= 2
    ensures KeepGoing in Actions(m) <==>
              m.supportTicketCount <= 2 && m.purchaseRecencyDays <= 60.0 && m.loginFrequency >= 3
    ensures forall i, j :: 0 <= i < j < |Actions(m)| ==> Actions(m)[i] != Actions(m)[j]
  {
  }

  // ---------------------------------------------------------------------------
  // The batch path: one pass per table, grouped by customer
  // ---------------------------------------------------------------------------

  /** `where p and customer_id in ids`. */
  function Among<T>(p: T -> bool, owner: T -> int, ids: seq<int>): T -> bool { (x: T) => p(x) && owner(x) in ids }

  function OwnedBy<T>(owner: T -> int, id: int): T -> bool { (x: T) => owner(x) == id }

  /** Grouping the batch's rows by a customer of the batch gives that customer's own rows. */
  lemma {:induction false} GroupIsOwnRows<T(!new)>(rows: seq<T>, p: T -> bool, owner: T -> int, ids: seq<int>, id: int)
    requires id in ids
    ensures Filter(Filter(rows, Among(p, owner, ids)), OwnedBy(owner, id)) == Filter(rows, Of(p, owner, id))
  {
    if rows != [] {
      GroupIsOwnRows(rows[1..], p, owner, ids, id);
    }
  }

  lemma GroupStep<T(!new)>(rows: seq<T>, i: nat, owner: T -> int)
    requires i < |rows|
    ensures forall id :: Filter(rows[..i + 1], OwnedBy(owner, id))
                      == Filter(rows[..i], OwnedBy(owner, id)) + if owner(rows[i]) == id then [rows[i]] else []
  {
    assert rows[..i + 1] == rows[..i] + [rows[i]];
    forall id ensures Filter(rows[..i + 1], OwnedBy(owner, id))
                   == Filter(rows[..i], OwnedBy(owner, id)) + if owner(rows[i]) == id then [rows[i]] else []
    {
      FilterAppend(rows[..i], rows[i], OwnedBy(owner, id));
    }
  }

  /** The dictionaries filled from the grouped rows, `get` with a default: for
      every customer what its own group of rows gives. */
  ghost predicate CountsRows<T(!new)>(m: map<int, int>, rows: seq<T>, owner: T -> int) {
    forall id :: (if id in m then m[id] else 0) == |Filter(rows, OwnedBy(owner, id))|
  }

  ghost predicate CollectsKinds(m: map<int, set<string>>, rows: seq<Activity>) {
    forall id :: (if id in m then m[id] else {}) == Kinds(Filter(rows, OwnedBy(ActivityOwner(), id)))
  }

  ghost predicate FindsLatest(m: map<int, int>, rows: seq<Opportunity>) {
    forall id :: (if id in m then Some(m[id]) else None) == Latest(Filter(rows, OwnedBy(OpportunityOwner(), id)))
  }

  /** `select customer_id, count(id) ... group by customer_id`. */
  method CountByOwner<T(!new)>(rows: seq<T>, owner: T -> int) returns (m: map<int, int>)
    ensures CountsRows(m, rows, owner)
  {
    m := map[];
    for i := 0 to |rows|
      invariant CountsRows(m, rows[..i], owner)
    {
      GroupStep(rows, i, owner);
      var id := owner(rows[i]);
      m := m[id := (if id in m then m[id] else 0) + 1];
    }
    assert rows[..|rows|] == rows;
  }

  /** `select customer_id, count(distinct type) ... group by customer_id`. */
  method KindsByOwner(rows: seq<Activity>) returns (m: map<int, set<string>>)
    ensures CollectsKinds(m, rows)
  {
    m := map[];
    for i := 0 to |rows|
      invariant CollectsKinds(m, rows[..i])
    {
      GroupStep(rows, i, ActivityOwner());
      var id := rows[i].customerId;
      assert Kinds(Filter(rows[..i + 1], OwnedBy(ActivityOwner(), id)))
          == Kinds(Filter(rows[..i], OwnedBy(ActivityOwner(), id))) + {rows[i].kind};
      m := m[id := (if id in m then m[id] else {}) + {rows[i].kind}];
    }
    assert rows[..|rows|] == rows;
  }

  /** `select customer_id, max(created_at) ... group by customer_id`. */
  method LatestByOwner(rows: seq<Opportunity>) returns (m: map<int, int>)
    ensures FindsLatest(m, rows)
  {
    m := map[];
    for i := 0 to |rows|
      invariant FindsLatest(m, rows[..i])
    {
      LatestStep(rows, i);
      var id := rows[i].customerId;
      m := m[id := Later(if id in m then Some(m[id]) else None, rows[i].createdAt)];
    }
    assert rows[..|rows|] == rows;
  }

  lemma LatestAppend(rows: seq<Opportunity>, o: Opportunity)
    ensures Latest(rows + [o]) == Some(Later(Latest(rows), o.createdAt))
  {
    assert (rows + [o])[..|rows|] == rows;
  }

  lemma LatestStep(rows: seq<Opportunity>, i: nat)
    requires i < |rows|
    ensures forall id :: Latest(Filter(rows[..i + 1], OwnedBy(OpportunityOwner(), id)))
                      == var before := Latest(Filter(rows[..i], OwnedBy(OpportunityOwner(), id)));
                         if rows[i].customerId == id then Some(Later(before, rows[i].createdAt)) else before
  {
    GroupStep(rows, i, OpportunityOwner());
    var owner := rows[i].customerId;
    var before := Filter(rows[..i], OwnedBy(OpportunityOwner(), owner));
    LatestAppend(before, rows[i]);
    assert Filter(rows[..i + 1], OwnedBy(OpportunityOwner(), owner)) == before + [rows[i]];
    forall id | id != owner
      ensures Filter(rows[..i + 1], OwnedBy(OpportunityOwner(), id)) == Filter(rows[..i], OwnedBy(OpportunityOwner(), id))
    {
    }
  }

  /** The three selections of the batch. */
  function RecentAmong(db: Tables, ids: seq<int>, tenantId: int, now: int): seq<Activity> {
    Filter(db.activities, Among(Recent(tenantId, now - LOGIN_DAYS * DAY), ActivityOwner(), ids))
  }
  function WonAmong(db: Tables, ids: seq<int>, tenantId: int): seq<Opportunity> {
    Filter(db.opportunities, Among(Won(tenantId), OpportunityOwner(), ids))
  }
  function OpenAmong(db: Tables, ids: seq<int>, tenantId: int): seq<Ticket> {
    Filter(db.tickets, Among(Open(tenantId), TicketOwner(), ids))
  }

  /** One entry of the metrics dictionary, looked up in the four grouped dictionaries. */
  function LookedUp(logins: map<int, int>, kinds: map<int, set<string>>, last: map<int, int>, tickets: map<int, int>,
                    id: int, now: int): Metrics
  {
    Metrics(
      if id in logins then logins[id] else 0,
      RecencyDays(if id in last then Some(last[id]) else None, now),
      if id in tickets then tickets[id] else 0,
      |if id in kinds then kinds[id] else {}|)
  }

  lemma LookedUpIsRaw(db: Tables, ids: seq<int>, tenantId: int, now: int, logins: map<int, int>,
                      kinds: map<int, set<string>>, last: map<int, int>, tickets: map<int, int>, id: int)
    requires CountsRows(logins, RecentAmong(db, ids, tenantId, now), ActivityOwner())
    requires CollectsKinds(kinds, RecentAmong(db, ids, tenantId, now))
    requires FindsLatest(last, WonAmong(db, ids, tenantId))
    requires CountsRows(tickets, OpenAmong(db, ids, tenantId), TicketOwner())
    requires id in ids
    ensures LookedUp(logins, kinds, last, tickets, id, now) == RawMetrics(db, id, tenantId, now)
  {
    GroupIsOwnRows(db.activities, Recent(tenantId, now - LOGIN_DAYS * DAY), ActivityOwner(), ids, id);
    GroupIsOwnRows(db.opportunities, Won(tenantId), OpportunityOwner(), ids, id);
    GroupIsOwnRows(db.tickets, Open(tenantId), TicketOwner(), ids, id);
  }

  /** `_fetch_raw_metrics_batch`: the grouped one-pass aggregates give every
      existing customer of the batch the metrics the single path computes. */
  method FetchRawMetricsBatch(db: Tables, ids: seq<int>, tenantId: int, now: int) returns (metrics: map<int, Metrics>)
    ensures forall id :: id in metrics <==> id in ids && Exists(db, id, tenantId)
    ensures forall id :: id in metrics ==> metrics[id] == RawMetrics(db, id, tenantId, now)
  {
    var recent := RecentAmong(db, ids, tenantId, now);
    var logins := CountByOwner(recent, ActivityOwner());
    var kinds := KindsByOwner(recent);
    var last := LatestByOwner(WonAmong(db, ids, tenantId));
    var tickets := CountByOwner(OpenAmong(db, ids, tenantId), TicketOwner());
    metrics := map[];
    for i := 0 to |ids|
      invariant forall id :: id in metrics <==> id in ids[..i] && Exists(db, id, tenantId)
      invariant forall id :: id in metrics ==> metrics[id] == RawMetrics(db, id, tenantId, now)
    {
      var id := ids[i];
      assert ids[..i + 1] == ids[..i] + [id];
      if Exists(db, id, tenantId) {
        LookedUpIsRaw(db, ids, tenantId, now, logins, kinds, last, tickets, id);
        metrics := metrics[id := LookedUp(logins, kinds, last, tickets, id, now)];
      }
    }
    assert ids[..|ids|] == ids;
  }

  /** The results of the single path along a list of ids, and the ids it has no result for. */
  function Singles(db: Tables, ids: seq<int>, tenantId: int, now: int, round2: real -> real): seq<Prediction> {
    if ids == [] then []
    else
      var n := |ids| - 1;
      var r := CalculateScore(db, ids[n], tenantId, now, round2);
      Singles(db, ids[..n], tenantId, now, round2) + if r.Some? then [r.value] else []
  }

  function Missing(db: Tables, ids: seq<int>, tenantId: int): seq<int> {
    if ids == [] then []
    else
      var n := |ids| - 1;
      Missing(db, ids[..n], tenantId) + if Exists(db, ids[n], tenantId) then [] else [ids[n]]
  }

  /** `predict_churn`: at one instant the batch is exactly the single path run
      on each id in turn, duplicates included, and the skipped ids are exactly
      those it would not find, in order. */
  method PredictChurn(db: Tables, ids: seq<int>, tenantId: int, now: int, round2: real -> real)
    returns (found: seq<Prediction>, skipped: seq<int>)
    ensures found == Singles(db, ids, tenantId, now, round2)
    ensures skipped == Missing(db, ids, tenantId)
  {
    found, skipped := [], [];
    if ids == [] { return; }
    var metrics := FetchRawMetricsBatch(db, ids, tenantId, now);
    for i := 0 to |ids|
      invariant found == Singles(db, ids[..i], tenantId, now, round2)
      invariant skipped == Missing(db, ids[..i], tenantId)
    {
      var id := ids[i];
      assert ids[..i + 1][..i] == ids[..i];
      if id !in metrics {
        skipped := skipped + [id];
      } else {
        found := found + [Predict(id, metrics[id], round2)];
      }
    }
    assert ids[..|ids|] == ids;
  }

  /** The batch's answer is made up of the answers for its ids, one by one:
      nobody's depends on who else is asked for. */
  lemma BatchIsPiecewise(db: Tables, a: seq<int>, b: seq<int>, tenantId: int, now: int, round2: real -> real)
    ensures Singles(db, a + b, tenantId, now, round2)
         == Singles(db, a, tenantId, now, round2) + Singles(db, b, tenantId, now, round2)
    ensures Missing(db, a + b, tenantId) == Missing(db, a, tenantId) + Missing(db, b, tenantId)
  {
    SinglesConcat(db, a, b, tenantId, now, round2);
    MissingConcat(db, a, b, tenantId);
  }

  lemma {:induction false} SinglesConcat(db: Tables, a: seq<int>, b: seq<int>, tenantId: int, now: int,
                                         round2: real -> real)
    ensures Singles(db, a + b, tenantId, now, round2)
         == Singles(db, a, tenantId, now, round2) + Singles(db, b, tenantId, now, round2)
    decreases |b|
  {
    if b == [] {
      assert a + b == a;
    } else {
      var n := |b| - 1;
      SinglesConcat(db, a, b[..n], tenantId, now, round2);
      assert (a + b)[..|a + b| - 1] == a + b[..n] && (a + b)[|a + b| - 1] == b[n];
      SinglesSnoc(db, a + b, tenantId, now, round2);
      SinglesSnoc(db, b, tenantId, now, round2);
    }
  }

  function Single(db: Tables, id: int, tenantId: int, now: int, round2: real -> real): seq<Prediction> {
    var r := CalculateScore(db, id, tenantId, now, round2);
    if r.Some? then [r.value] else []
  }

  lemma SinglesSnoc(db: Tables, ids: seq<int>, tenantId: int, now: int, round2: real -> real)
    requires ids != []
    ensures var n := |ids| - 1;
            Singles(db, ids, tenantId, now, round2)
            == Singles(db, ids[..n], tenantId, now, round2) + Single(db, ids[n], tenantId, now, round2)
  {
  }

  lemma {:induction false} MissingConcat(db: Tables, a: seq<int>, b: seq<int>, tenantId: int)
    ensures Missing(db, a + b, tenantId) == Missing(db, a, tenantId) + Missing(db, b, tenantId)
    decreases |b|
  {
    if b == [] {
      assert a + b == a;
    } else {
      var n := |b| - 1;
      MissingConcat(db, a, b[..n], tenantId);
      assert (a + b)[..|a + b| - 1] == a + b[..n];
    }
  }

  lemma BatchOfOne(db: Tables, id: int, tenantId: int, now: int, round2: real -> real)
    ensures if Customer(id, tenantId) in db.customers
            then Singles(db, [id], tenantId, now, round2) == [Predict(id, RawMetrics(db, id, tenantId, now), round2)]
                 && Missing(db, [id], tenantId) == []
            else Singles(db, [id], tenantId, now, round2) == [] && Missing(db, [id], tenantId) == [id]
  {
    assert [id][..0] == [];
  }
}
