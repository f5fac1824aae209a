/** Automatic assignment: who gets the next lead, and what a run of
    assignments does to the loads of the team. */
module LeadRouting {
  import opened Prelude
  import opened LeadTables
  import opened LeadRules
  import LB = LoadBalancing
  import opened LeadLifecycle

  const DEFAULT_MAX_LOAD_PER_REP := 20

  /** Does the rule restrict the active users of the tenant? A missing or zero
      `assignee_id` does not. */
  predicate Narrows(rule: Rule) {
    !rule.assigneeType.RoundRobin? && rule.assigneeId.Some? && rule.assigneeId.value != 0
  }

  predicate MayServe(rule: Rule, u: User) {
    Narrows(rule) ==>
      if rule.assigneeType.OneUser? then u.id == rule.assigneeId.value
      else u.role == rule.assigneeId.value
  }

  /** The user query of `_get_load_balanced_assignee`. */
  function Eligible(users: seq<User>, rule: Rule, tenantId: int): (r: seq<User>)
    ensures forall u :: u in r <==> u in users && u.tenantId == tenantId && u.active && MayServe(rule, u)
    ensures !Narrows(rule) ==> r == ActiveUsers(users, tenantId)
  {
    assert !Narrows(rule) ==> Filter(users, ServerFor(rule, tenantId)) == ActiveUsers(users, tenantId) by {
      if !Narrows(rule) { FilterSame(users, ServerFor(rule, tenantId), ActiveIn(tenantId)); }
    }
    Filter(users, ServerFor(rule, tenantId))
  }

  function ServerFor(rule: Rule, tenantId: int): User -> bool {
    (u: User) => u.tenantId == tenantId && u.active && MayServe(rule, u)
  }

  function LoadKey(cs: seq<Customer>, tenantId: int): User -> int {
    (u: User) => Load(cs, tenantId, u.id)
  }

  /** The first of the users carrying the fewest active leads of the tenant. */
  function LeastLoaded(us: seq<User>, cs: seq<Customer>, tenantId: int): (r: Option<int>)
    ensures r.None? <==> us == []
    ensures r.Some? ==> exists i :: IsFirstMin(us, LoadKey(cs, tenantId), i) && us[i].id == r.value
  {
    if us == [] then None
    else
      var key := LoadKey(cs, tenantId);
      assert IsFirstMin(us, key, MinBy(us, key));
      Some(us[MinBy(us, key)].id)
  }

  /** Whom `auto_assign_lead` chooses for a customer row. */
  function Choice(users: seq<User>, rules: seq<Rule>, cs: seq<Customer>, c: Customer): Option<int> {
    var team := LeastLoaded(ActiveUsers(users, c.tenantId), cs, c.tenantId);
    match MatchingRule(rules, c.tenantId, AutoRecord(c.company, c.createdAt))
    case None => team
    case Some(rule) =>
      var served := LeastLoaded(Eligible(users, rule, c.tenantId), cs, c.tenantId);
      if served.None? then team else served
  }

  /** The row written by an assignment. */
  function Assigned(c: Customer, owner: int, now: int): Customer {
    c.(ownerId := owner, assignedAt := Some(now))
  }

  function Assign(cs: seq<Customer>, id: int, tenantId: int, owner: int, now: int): seq<Customer> {
    Update(cs, id, tenantId, c => Assigned(c, owner, now))
  }

  /** An assignment writes the owner and the time into the customer's row, and nothing else anywhere. */
  lemma AssignWrites(cs: seq<Customer>, id: int, tenantId: int, owner: int, now: int)
    ensures var after := Assign(cs, id, tenantId, owner, now);
            && |after| == |cs|
            && forall i :: 0 <= i < |cs| ==>
                 var c := cs[i];
                 after[i] == if c.id == id && c.tenantId == tenantId
                             then Customer(c.id, c.tenantId, c.status, owner, Some(now), c.recycleCount, c.history,
                                           c.company, c.createdAt)
                             else c
  {
  }

  /** So the background job takes an assigned lead back exactly at the cutoffs
      after the assignment, while the lead is below the limit. */
  lemma AssignedLeadIsRecycledExactlyAfter(cs: seq<Customer>, i: nat, owner: int, now: int, tenants: set<int>,
                                           cutoff: int, at: int, limit: int)
    requires i < |cs| && cs[i].status == Lead && cs[i].tenantId in tenants && owner != 0
    ensures var row := Assign(cs, cs[i].id, cs[i].tenantId, owner, now)[i];
            var after := JobRow(row, tenants, cutoff, at, limit);
            && (IsStale(row, row.tenantId, cutoff, limit) <==> now < cutoff && cs[i].recycleCount < limit)
            && (cutoff > now && limit > cs[i].recycleCount ==>
                  && after.ownerId == 0 && after.assignedAt == None && after.recycleCount == cs[i].recycleCount + 1
                  && after.history == cs[i].history + [Entry(at, owner, "stale_no_response")])
            && (!(cutoff > now && limit > cs[i].recycleCount) ==> after.ownerId == owner && after.assignedAt == Some(now))
  {
  }

  /** With the default of 24 hours that is when more than 86400 seconds have passed. */
  lemma DefaultJobTakesAfterADay(c: Customer, owner: int, since: int, now: int)
    requires c.status == Lead && c.recycleCount == 0 && owner != 0
    ensures var row := Assign([c], c.id, c.tenantId, owner, since)[0];
            JobRow(row, {c.tenantId}, now - 24 * HOUR, now, 3).ownerId == (if now - since > 86400 then 0 else owner)
  {
  }

  /** One entry for each of the owners that has an active lead: how many it has. */
  ghost predicate Grouped(groups: map<int, int>, cs: seq<Customer>, tenantId: int, owners: set<int>) {
    && (forall o :: o in groups <==> o in owners && Load(cs, tenantId, o) > 0)
    && (forall o :: o in groups ==> groups[o] == Load(cs, tenantId, o))
  }

  lemma GroupedStep(groups: map<int, int>, cs: seq<Customer>, c: Customer, tenantId: int, owners: set<int>)
    requires Grouped(groups, cs, tenantId, owners)
    ensures var counted := c.tenantId == tenantId && c.status == Lead && c.ownerId in owners;
            var groups' := if counted
                           then groups[c.ownerId := (if c.ownerId in groups then groups[c.ownerId] else 0) + 1]
                           else groups;
            Grouped(groups', cs + [c], tenantId, owners)
  {
    forall o ensures Load(cs + [c], tenantId, o) == Load(cs, tenantId, o) + if IsLoad(c, tenantId, o) then 1 else 0 {
      LoadAppend(cs, c, tenantId, o);
    }
  }

  /** The service with the tables its session reads and writes. */
  class LeadRoutingService {
    var users: seq<User>
    var customers: seq<Customer>
    var rules: seq<Rule>
    // max_load_per_rep of the tenants whose settings give one
    var maxLoad: map<int, int>

    constructor (users: seq<User>, customers: seq<Customer>, rules: seq<Rule>, maxLoad: map<int, int>)
      ensures this.users == users && this.customers == customers
      ensures this.rules == rules && this.maxLoad == maxLoad
    {
      this.users, this.customers, this.rules, this.maxLoad := users, customers, rules, maxLoad;
    }

    /** The grouped count: one pass over the rows, one entry per owner with a lead. */
    method GroupByOwner(tenantId: int, owners: set<int>) returns (groups: map<int, int>)
      ensures Grouped(groups, customers, tenantId, owners)
    {
      groups := map[];
      for i := 0 to |customers|
        invariant Grouped(groups, customers[..i], tenantId, owners)
      {
        var c := customers[i];
        assert customers[..i + 1] == customers[..i] + [c];
        GroupedStep(groups, customers[..i], c, tenantId, owners);
        if c.tenantId == tenantId && c.status == Lead && c.ownerId in owners {
          groups := groups[c.ownerId := (if c.ownerId in groups then groups[c.ownerId] else 0) + 1];
        }
      }
      assert customers[..|customers|] == customers;
    }

    /** The `lead_counts` dictionary: zero for everyone, then the grouped counts. */
    method LeadCounts(us: seq<User>, tenantId: int) returns (leadCounts: map<int, int>)
      ensures forall u :: u in us ==> u.id in leadCounts && leadCounts[u.id] == Load(customers, tenantId, u.id)
    {
      leadCounts := map u | u in us :: u.id := 0;
      var groups := GroupByOwner(tenantId, leadCounts.Keys);
      assert forall o :: o in groups.Keys ==> o in groups && o in leadCounts.Keys;
      var todo := groups.Keys;
      while todo != {}
        invariant todo <= groups.Keys <= leadCounts.Keys
        invariant forall u :: u in us ==> u.id in leadCounts
        invariant forall o :: o in leadCounts ==>
                    leadCounts[o] == if o in groups && o !in todo then groups[o] else 0
      {
        var owner :| owner in todo;
        leadCounts := leadCounts[owner := groups[owner]];
        todo := todo - {owner};
      }
    }

    /** `_get_load_balanced_assignee`. Whatever `maxLoad` is, the cap filter
        leaves the answer alone: the first least-loaded eligible user. */
    method LoadBalancedAssignee(rule: Rule, tenantId: int, maxLoadPerRep: int) returns (r: Option<int>)
      ensures r == LeastLoaded(Eligible(users, rule, tenantId), customers, tenantId)
    {
      var us := Eligible(users, rule, tenantId);
      if us == [] { return None; }
      var leadCounts := LeadCounts(us, tenantId);
      var key := (u: User) => if u.id in leadCounts then leadCounts[u.id] else 0;
      var underThreshold := Below(us, key, maxLoadPerRep);
      var candidates := if underThreshold != [] then underThreshold else us;
      r := Some(candidates[MinBy(candidates, key)].id);
      if underThreshold != [] { LimitKeepsMin(us, key, maxLoadPerRep); }
      SameKeysSameMin(us, key, LoadKey(customers, tenantId));
    }

    /** `_round_robin_assignee`. */
    method RoundRobinAssignee(tenantId: int) returns (r: Option<int>)
      ensures r == LeastLoaded(ActiveUsers(users, tenantId), customers, tenantId)
    {
      var us := ActiveUsers(users, tenantId);
      if us == [] { return None; }
      var leadCounts := LeadCounts(us, tenantId);
      var key := (u: User) => if u.id in leadCounts then leadCounts[u.id] else 0;
      r := Some(us[MinBy(us, key)].id);
      SameKeysSameMin(us, key, LoadKey(customers, tenantId));
    }

    method SelectAssignee(rule: Rule, tenantId: int) returns (r: Option<int>)
      ensures r == LeastLoaded(Eligible(users, rule, tenantId), customers, tenantId)
    {
      r := LoadBalancedAssignee(rule, tenantId,
                                if tenantId in maxLoad then maxLoad[tenantId] else DEFAULT_MAX_LOAD_PER_REP);
    }

    /** `auto_assign_lead`. */
    method AutoAssignLead(customerId: int, tenantId: int, now: int) returns (r: Option<int>)
      modifies this`customers
      ensures var found := Find(old(customers), customerId, tenantId);
              r == if found.None? then None else Choice(users, rules, old(customers), found.value)
      ensures customers == if r.None? then old(customers)
                           else Assign(old(customers), customerId, tenantId, r.value, now)
      ensures |customers| == |old(customers)|
      ensures forall i :: 0 <= i < |customers| ==>
                var c := old(customers)[i];
                customers[i] == if r.Some? && c.id == customerId && c.tenantId == tenantId
                                then c.(ownerId := r.value, assignedAt := Some(now)) else c
    {
      var found := Find(customers, customerId, tenantId);
      if found.None? { return None; }
      var rule := MatchingRule(rules, tenantId, AutoRecord(found.value.company, found.value.createdAt));
      if rule.Some? {
        r := SelectAssignee(rule.value, tenantId);
        if r.None? {
          r := RoundRobinAssignee(tenantId);
        }
      } else {
        r := RoundRobinAssignee(tenantId);
      }
      if r.None? { return; }
      customers := Assign(customers, customerId, tenantId, r.value, now);
    }

    /** `preview_assign`: the rule, the assignee it names and how. Its check for
        unsupported fields never fires: a condition with one fails its own
        validation (src/models/routing.py:32-37), so `Field` has none. */
    method PreviewAssign(conditions: seq<Condition>, data: Record, tenantId: int)
      returns (rule: Option<Rule>, r: Option<int>, assigneeType: AssigneeType)
      ensures rule == if Evaluate(conditions, data) then MatchingRule(rules, tenantId, data) else None
      ensures r == Previewed(users, rules, customers, conditions, data, tenantId)
      ensures assigneeType == if rule.Some? then rule.value.assigneeType else RoundRobin
    {
      rule := None;
      if Evaluate(conditions, data) {
        rule := MatchingRule(rules, tenantId, data);
      }
      if rule.Some? {
        r := SelectAssignee(rule.value, tenantId);
        assigneeType := rule.value.assigneeType;
      } else {
        r := RoundRobinAssignee(tenantId);
        assigneeType := RoundRobin;
      }
    }

    /** `recycle_stale_leads`: a loop of single-row updates over the selected leads. */
    method RecycleStaleLeads(tenantId: int, cutoff: int, at: int, maxRecycle: int) returns (recycled: seq<int>)
      requires UniqueIds(customers)
      modifies this`customers
      ensures customers == After(RecycleStale(tenantId, cutoff, at, maxRecycle), old(customers))
      ensures recycled == Ids(StaleRows(old(customers), tenantId, cutoff, maxRecycle))
    {
      ghost var was := customers;
      var leads := StaleRows(customers, tenantId, cutoff, maxRecycle);
      SelectionUnique(customers, StaleIn(tenantId, cutoff, maxRecycle));
      recycled := [];
      assert customers == Partly(was, leads[..0], Release(at));
      for k := 0 to |leads|
        invariant recycled == Ids(leads[..k])
        invariant customers == Partly(was, leads[..k], Release(at))
      {
        var lead := leads[k];
        var e := Entry(at, lead.ownerId, "stale_no_response");
        var change := (c: Customer) => c.(ownerId := 0, assignedAt := None,
                                          recycleCount := lead.recycleCount + 1, history := lead.history + [e]);
        assert lead in leads;
        PartlyStep(was, leads, k, Release(at), change);
        customers := Update(customers, lead.id, tenantId, change);
        recycled := recycled + [lead.id];
      }
      assert leads[..|leads|] == leads;
      assert customers == After(RecycleStale(tenantId, cutoff, at, maxRecycle), was);
    }

    /** `disqualify_overcycled_leads`. */
    method DisqualifyOvercycledLeads(tenantId: int, maxRecycle: int) returns (disqualified: seq<int>)
      requires UniqueIds(customers)
      modifies this`customers
      ensures customers == After(Disqualify(tenantId, maxRecycle), old(customers))
      ensures disqualified == Ids(OvercycledRows(old(customers), tenantId, maxRecycle))
    {
      ghost var was := customers;
      var leads := OvercycledRows(customers, tenantId, maxRecycle);
      SelectionUnique(customers, OvercycledIn(tenantId, maxRecycle));
      disqualified := [];
      assert customers == Partly(was, leads[..0], MarkDisqualified());
      for k := 0 to |leads|
        invariant disqualified == Ids(leads[..k])
        invariant customers == Partly(was, leads[..k], MarkDisqualified())
      {
        var lead := leads[k];
        assert lead in leads;
        PartlyStep(was, leads, k, MarkDisqualified(), MarkDisqualified());
        customers := Update(customers, lead.id, tenantId, MarkDisqualified());
        disqualified := disqualified + [lead.id];
      }
      assert leads[..|leads|] == leads;
      assert customers == After(Disqualify(tenantId, maxRecycle), was);
    }

    /** The notification loop: each recycled lead's last history entry names whom to tell. */
    method NotifyPreviousOwners(recycled: seq<int>, tenantId: int, ghost leads: seq<Customer>, ghost at: int)
      returns (notices: seq<Notice>)
      requires recycled == Ids(leads)
      requires forall c :: c in leads ==> c.tenantId == tenantId
      requires forall c :: c in leads ==> Find(customers, c.id, tenantId) == Some(StaleReleased(c, at))
      ensures notices == Notices(leads)
    {
      notices := [];
      for k := 0 to |recycled|
        invariant notices == Notices(leads[..k])
      {
        assert leads[k] in leads;
        var row := Find(customers, recycled[k], tenantId);
        var history := if row.Some? then row.value.history else [];
        if history != [] {
          notices := notices + [Notice(history[|history| - 1].previousOwnerId, recycled[k], tenantId)];
        }
        NoticesSnoc(leads, k);
      }
      assert leads[..|leads|] == leads;
    }

    /** One tenant's turn in the background job: recycle, notify, disqualify. */
    method RecycleTenant(tenantId: int, cutoff: int, at: int, maxRecycle: int)
      returns (recycledCount: int, disqualifiedCount: int, notices: seq<Notice>)
      requires UniqueIds(customers)
      modifies this`customers
      ensures var between := After(RecycleStale(tenantId, cutoff, at, maxRecycle), old(customers));
              && customers == After(Disqualify(tenantId, maxRecycle), between)
              && disqualifiedCount == |OvercycledRows(between, tenantId, maxRecycle)|
      ensures notices == Notices(StaleRows(old(customers), tenantId, cutoff, maxRecycle))
      ensures recycledCount == |notices|
    {
      ghost var was := customers;
      ghost var leads := StaleRows(was, tenantId, cutoff, maxRecycle);
      var recycled := RecycleStaleLeads(tenantId, cutoff, at, maxRecycle);
      forall c | c in leads ensures Find(customers, c.id, tenantId) == Some(StaleReleased(c, at)) {
        RecycledRowFound(was, tenantId, cutoff, at, maxRecycle, c);
      }
      notices := NotifyPreviousOwners(recycled, tenantId, leads, at);
      var disqualified := DisqualifyOvercycledLeads(tenantId, maxRecycle);
      recycledCount, disqualifiedCount := |recycled|, |disqualified|;
    }

    /** `check_and_recycle_leads` at one instant, over the distinct tenant ids. */
    method CheckAndRecycleLeads(tenantIds: seq<int>, now: int, staleHours: int, maxRecycle: int)
      returns (recycledCount: int, disqualifiedCount: int, notices: seq<Notice>)
      requires UniqueIds(customers)
      requires forall i, j :: 0 <= i < j < |tenantIds| ==> tenantIds[i] != tenantIds[j]
      modifies this`customers
      ensures customers == JobRows(old(customers), SetOf(tenantIds), now - staleHours * HOUR, now, maxRecycle)
      ensures notices == AllNotices(tenantIds, old(customers), now - staleHours * HOUR, maxRecycle)
      ensures recycledCount == |notices|
      ensures disqualifiedCount == DisqualifiedTotal(tenantIds, old(customers), now - staleHours * HOUR, maxRecycle)
    {
      ghost var was := customers;
      var cutoff := now - staleHours * HOUR;
      recycledCount, disqualifiedCount, notices := 0, 0, [];
      for k := 0 to |tenantIds|
        invariant customers == JobRows(was, SetOf(tenantIds[..k]), cutoff, now, maxRecycle)
        invariant notices == AllNotices(tenantIds[..k], was, cutoff, maxRecycle)
        invariant recycledCount == |notices|
        invariant disqualifiedCount == DisqualifiedTotal(tenantIds[..k], was, cutoff, maxRecycle)
      {
        var tid := tenantIds[k];
        JobTurn(was, tenantIds, k, cutoff, now, maxRecycle);
        var r, d, sent := RecycleTenant(tid, cutoff, now, maxRecycle);
        recycledCount, disqualifiedCount := recycledCount + r, disqualifiedCount + d;
        notices := notices + sent;
      }
      assert tenantIds[..|tenantIds|] == tenantIds;
    }
  }

  ghost predicate UniqueUsers(users: seq<User>) {
    forall i, j :: 0 <= i < j < |users| ==> users[i].id != users[j].id
  }

  lemma UsersUnique(users: seq<User>, p: User -> bool)
    requires UniqueUsers(users)
    ensures UniqueUsers(Filter(users, p))
  {
    var rel := (u: User, u': User) => u.id != u'.id;
    FilterPairwise(users, p, rel);
    assert Pairwise(Filter(users, p), rel);
  }

  /** With a matching rule the choice is among those it leaves, or among all if it leaves nobody. */
  lemma ChoiceByRule(users: seq<User>, rules: seq<Rule>, cs: seq<Customer>, c: Customer, rule: Rule)
    requires MatchingRule(rules, c.tenantId, AutoRecord(c.company, c.createdAt)) == Some(rule)
    ensures var eligible := Eligible(users, rule, c.tenantId);
            Choice(users, rules, cs, c)
            == LeastLoaded(if eligible == [] then ActiveUsers(users, c.tenantId) else eligible, cs, c.tenantId)
  {
  }

  /** A lead whose rule names one user goes to that user if he is active in the
      tenant; if he is not, to the least-loaded of the whole team. */
  lemma UserRuleAssignsUser(users: seq<User>, rules: seq<Rule>, cs: seq<Customer>, c: Customer, rule: Rule, id: int)
    requires MatchingRule(rules, c.tenantId, AutoRecord(c.company, c.createdAt)) == Some(rule)
    requires rule.assigneeType == OneUser && rule.assigneeId == Some(id) && id != 0
    ensures Choice(users, rules, cs, c) ==
              if exists u :: u in users && u.id == id && u.tenantId == c.tenantId && u.active then Some(id)
              else LeastLoaded(ActiveUsers(users, c.tenantId), cs, c.tenantId)
  {
    ChoiceByRule(users, rules, cs, c, rule);
    UserEligible(users, rule, c.tenantId, id);
    var eligible := Eligible(users, rule, c.tenantId);
    if eligible != [] {
      var i :| IsFirstMin(eligible, LoadKey(cs, c.tenantId), i) && Some(eligible[i].id) == LeastLoaded(eligible, cs, c.tenantId);
    }
  }

  lemma UserEligible(users: seq<User>, rule: Rule, tenantId: int, id: int)
    requires rule.assigneeType == OneUser && rule.assigneeId == Some(id) && id != 0
    ensures var eligible := Eligible(users, rule, tenantId);
            && (eligible != [] <==> exists u :: u in users && u.id == id && u.tenantId == tenantId && u.active)
            && forall i :: 0 <= i < |eligible| ==> eligible[i].id == id
  {
    var eligible := Eligible(users, rule, tenantId);
    assert forall u :: u in eligible <==> u in users && u.id == id && u.tenantId == tenantId && u.active;
    assert forall i :: 0 <= i < |eligible| ==> eligible[i] in eligible;
    if eligible != [] {
      assert eligible[0] in users && eligible[0].id == id && eligible[0].tenantId == tenantId && eligible[0].active;
    }
  }

  /** A lead whose rule names a team goes to the least-loaded active user with
      that role, if there is one; else to the least-loaded of everybody. */
  lemma TeamRuleAssignsRole(users: seq<User>, rules: seq<Rule>, cs: seq<Customer>, c: Customer, rule: Rule, role: int)
    requires MatchingRule(rules, c.tenantId, AutoRecord(c.company, c.createdAt)) == Some(rule)
    requires rule.assigneeType == Team && rule.assigneeId == Some(role) && role != 0
    ensures var staffed := exists u :: u in users && u.role == role && u.tenantId == c.tenantId && u.active;
            && (staffed ==> exists u ::
                  && u in users && u.role == role && u.tenantId == c.tenantId && u.active
                  && Choice(users, rules, cs, c) == Some(u.id)
                  && forall v :: v in users && v.role == role && v.tenantId == c.tenantId && v.active ==>
                       Load(cs, c.tenantId, u.id) <= Load(cs, c.tenantId, v.id))
            && (!staffed ==> Choice(users, rules, cs, c) == LeastLoaded(ActiveUsers(users, c.tenantId), cs, c.tenantId))
  {
    var eligible, key := Eligible(users, rule, c.tenantId), LoadKey(cs, c.tenantId);
    ChoiceByRule(users, rules, cs, c, rule);
    assert forall u :: u in eligible <==> u in users && u.role == role && u.tenantId == c.tenantId && u.active;
    if eligible != [] {
      var u := eligible[MinBy(eligible, key)];
      assert u in eligible;
      forall v | v in eligible ensures Load(cs, c.tenantId, u.id) <= Load(cs, c.tenantId, v.id) {
        var j :| 0 <= j < |eligible| && eligible[j] == v;
        assert key(u) <= key(eligible[j]);
      }
    }
  }

  /** A rule without a user or team to name leaves the whole team. */
  lemma OpenRuleAssignsTeam(users: seq<User>, rules: seq<Rule>, cs: seq<Customer>, c: Customer, rule: Rule)
    requires MatchingRule(rules, c.tenantId, AutoRecord(c.company, c.createdAt)) == Some(rule)
    requires rule.assigneeType == RoundRobin || rule.assigneeId in {None, Some(0)}
    ensures Choice(users, rules, cs, c) == LeastLoaded(ActiveUsers(users, c.tenantId), cs, c.tenantId)
  {
  }

  /** What `preview_assign` names for a record: its own conditions decide whether the rules are asked at all. */
  function Previewed(users: seq<User>, rules: seq<Rule>, cs: seq<Customer>, conditions: seq<Condition>, data: Record,
                     tenantId: int): Option<int>
  {
    var rule := if Evaluate(conditions, data) then MatchingRule(rules, tenantId, data) else None;
    LeastLoaded(if rule.Some? then Eligible(users, rule.value, tenantId) else ActiveUsers(users, tenantId), cs, tenantId)
  }

  /** The least-loaded of the whole team and of those a rule leaves are the same
      user exactly when the rule leaves that user; else it leaves other people or nobody. */
  lemma RuleMissesLeastLoaded(users: seq<User>, rule: Rule, cs: seq<Customer>, tenantId: int)
    requires UniqueUsers(users) && Eligible(users, rule, tenantId) != []
    ensures ActiveUsers(users, tenantId) != []
    ensures var team := ActiveUsers(users, tenantId);
            LeastLoaded(team, cs, tenantId) == LeastLoaded(Eligible(users, rule, tenantId), cs, tenantId)
            <==> MayServe(rule, team[MinBy(team, LoadKey(cs, tenantId))])
  {
    var key, served := LoadKey(cs, tenantId), (u: User) => MayServe(rule, u);
    var team, eligible := ActiveUsers(users, tenantId), Eligible(users, rule, tenantId);
    FilterTwice(users, ActiveIn(tenantId), served, ServerFor(rule, tenantId));
    assert eligible[0] in eligible && eligible[0] in team;
    var first, chosen := team[MinBy(team, key)], eligible[MinBy(eligible, key)];
    if served(first) {
      FilterKeepsMin(team, served, key);
    } else {
      assert chosen in eligible && chosen in users && first in users;
      SameIdSameUser(users, chosen, first);
    }
  }

  lemma SameIdSameUser(users: seq<User>, u: User, v: User)
    requires UniqueUsers(users) && u in users && v in users
    ensures u.id == v.id <==> u == v
  {
  }

  /** A preview on the customer's own record names the user `auto_assign_lead`
      picks exactly in these cases: no rule matches; the preview's conditions
      hold, and the rule has somebody to serve it or there is nobody at all; or
      they do not hold, and the rule has nobody or leaves the team's
      least-loaded user. */
  lemma PreviewAgreesExactlyWhen(users: seq<User>, rules: seq<Rule>, cs: seq<Customer>, c: Customer,
                                 conditions: seq<Condition>)
    requires UniqueUsers(users)
    ensures var data, team := AutoRecord(c.company, c.createdAt), ActiveUsers(users, c.tenantId);
            var rule := MatchingRule(rules, c.tenantId, data);
            Previewed(users, rules, cs, conditions, data, c.tenantId) == Choice(users, rules, cs, c) <==>
              || rule.None?
              || (var eligible := Eligible(users, rule.value, c.tenantId);
                  if Evaluate(conditions, data) then eligible != [] || team == []
                  else eligible == [] || (team != [] && MayServe(rule.value, team[MinBy(team, LoadKey(cs, c.tenantId))])))
  {
    var data := AutoRecord(c.company, c.createdAt);
    var rule := MatchingRule(rules, c.tenantId, data);
    if rule.Some? && !Evaluate(conditions, data) && Eligible(users, rule.value, c.tenantId) != [] {
      RuleMissesLeastLoaded(users, rule.value, cs, c.tenantId);
    }
  }

  /** A rule for a user who has left: the preview names nobody, the assignment
      falls back on the one active user. */
  lemma PreviewCanDiffer(company: Value)
    returns (users: seq<User>, rules: seq<Rule>, c: Customer, rule: Rule)
    ensures users == [User(1, 0, true, 0), User(2, 0, false, 0)]
    ensures rules == [rule] && rule == Rule(1, 0, [], OneUser, Some(2), 0, true)
    ensures c == Customer(1, 0, Lead, 0, None, 0, [], company, 0)
    ensures Previewed(users, rules, [c], [], AutoRecord(c.company, c.createdAt), 0) == None
    ensures Choice(users, rules, [c], c) == Some(1)
  {
    users, rule := [User(1, 0, true, 0), User(2, 0, false, 0)], Rule(1, 0, [], OneUser, Some(2), 0, true);
    rules, c := [rule], Customer(1, 0, Lead, 0, None, 0, [], company, 0);
    assert rule in rules && users[0] in users;
    assert forall x :: x in rules ==> x == rule;
    var found := MatchingRule(rules, 0, AutoRecord(company, 0));
    assert found.Some? ==> found.value == rule;
    assert Eligible(users, rule, 0) == [];
    assert users[0] in ActiveUsers(users, 0);
    assert forall u :: u in ActiveUsers(users, 0) ==> u == users[0];
  }

  /** A rule for the second of two idle users, and a preview whose own condition
      fails: it names the first, the assignment goes to the second. */
  lemma PreviewCanNameAnother(c: Customer) returns (users: seq<User>, rules: seq<Rule>, conditions: seq<Condition>)
    requires c.tenantId == 0 && c.ownerId == 0 && c.company == Null
    ensures users == [User(1, 0, true, 0), User(2, 0, true, 0)]
    ensures rules == [Rule(1, 0, [], OneUser, Some(2), 0, true)]
    ensures conditions == [Condition(Company, NotEquals, Null)]
    ensures Previewed(users, rules, [c], conditions, AutoRecord(c.company, c.createdAt), 0) == Some(1)
    ensures Choice(users, rules, [c], c) == Some(2)
  {
    var rule := Rule(1, 0, [], OneUser, Some(2), 0, true);
    users, rules, conditions := [User(1, 0, true, 0), User(2, 0, true, 0)], [rule], [Condition(Company, NotEquals, Null)];
    var data := AutoRecord(c.company, c.createdAt);
    assert rule in rules && conditions[0] in conditions && !Evaluate(conditions, data);
    assert MatchingRule(rules, 0, data) == Some(rule);
    FirstOfIdle(users, c);
    var eligible := Eligible(users, rule, 0);
    assert users[1] in eligible && forall u :: u in eligible ==> u == users[1];
  }

  lemma FirstOfIdle(users: seq<User>, c: Customer)
    requires users == [User(1, 0, true, 0), User(2, 0, true, 0)] && c.ownerId == 0
    ensures LeastLoaded(ActiveUsers(users, 0), [c], 0) == Some(1)
  {
    FilterAll(users, ActiveIn(0));
    assert Load([c], 0, 1) == 0 && Load([c], 0, 2) == 0;
    assert IsFirstMin(users, LoadKey([c], 0), 0);
  }

  // ---------------------------------------------------------------------------
  // Runs of assignments
  // ---------------------------------------------------------------------------

  /** The loads of a list of users, in its order. */
  function LoadsOf(us: seq<User>, cs: seq<Customer>, tenantId: int): (v: seq<int>)
    ensures |v| == |us| && forall i :: 0 <= i < |us| ==> v[i] == Load(cs, tenantId, us[i].id)
  {
    seq(|us|, i requires 0 <= i < |us| => Load(cs, tenantId, us[i].id))
  }

  /** The customer is a lead none of the team's active users owns, and the rule
      it matches (if any) leaves the whole team to choose from. */
  ghost predicate Fresh(users: seq<User>, rules: seq<Rule>, cs: seq<Customer>, id: int, tenantId: int) {
    && Find(cs, id, tenantId).Some?
    && var c := Find(cs, id, tenantId).value;
       && c.status == Lead
       && (forall u :: u in ActiveUsers(users, tenantId) ==> c.ownerId != u.id)
       && var rule := MatchingRule(rules, tenantId, AutoRecord(c.company, c.createdAt));
          rule.None? || !Narrows(rule.value) || Eligible(users, rule.value, tenantId) == []
  }

  /** Handing an unowned lead to one user raises that user's load by one and no other's. */
  lemma AssignRaisesOneLoad(us: seq<User>, cs: seq<Customer>, c: Customer, owner: int, now: int)
    requires UniqueIds(cs) && c in cs && c.status == Lead
    requires forall u :: u in us ==> c.ownerId != u.id
    ensures var after := Assign(cs, c.id, c.tenantId, owner, now);
            && UniqueIds(after)
            && forall u :: u in us ==> Load(after, c.tenantId, u.id)
                                       == Load(cs, c.tenantId, u.id) + if u.id == owner then 1 else 0
  {
    var after := Assign(cs, c.id, c.tenantId, owner, now);
    var k :| 0 <= k < |cs| && cs[k] == c;
    assert after == cs[k := Assigned(c, owner, now)];
    forall u | u in us
      ensures Load(after, c.tenantId, u.id) == Load(cs, c.tenantId, u.id) + if u.id == owner then 1 else 0
    {
      LoadReplace(cs, k, Assigned(c, owner, now), c.tenantId, u.id);
    }
  }

  /** The least-loaded user's place in the vector of loads. */
  lemma LeastLoadedPlace(us: seq<User>, cs: seq<Customer>, tenantId: int)
    requires us != []
    ensures LeastLoaded(us, cs, tenantId) == Some(us[LB.Least(LoadsOf(us, cs, tenantId))].id)
  {
    var v, key := LoadsOf(us, cs, tenantId), LoadKey(cs, tenantId);
    assert forall j :: 0 <= j < |us| ==> key(us[j]) == v[j];
    assert IsFirstMin(v, x => x, MinBy(us, key));
  }

  /** One assignment of a fresh lead is one balancing step on the loads. */
  lemma AssignIsStep(users: seq<User>, rules: seq<Rule>, cs: seq<Customer>, id: int, tenantId: int, now: int)
    requires UniqueIds(cs) && UniqueUsers(users) && ActiveUsers(users, tenantId) != []
    requires Fresh(users, rules, cs, id, tenantId)
    ensures var us, r := ActiveUsers(users, tenantId), Choice(users, rules, cs, Find(cs, id, tenantId).value);
            && r.Some?
            && var after := Assign(cs, id, tenantId, r.value, now);
               UniqueIds(after) && LoadsOf(us, after, tenantId) == LB.Step(LoadsOf(us, cs, tenantId))
  {
    var us, c := ActiveUsers(users, tenantId), Find(cs, id, tenantId).value;
    var r := LeastLoaded(us, cs, tenantId);
    assert Choice(users, rules, cs, c) == r;
    AssignRaisesOneLoad(us, cs, c, r.value, now);
    UsersUnique(users, ActiveIn(tenantId));
    RaisedLeastIsStep(us, cs, Assign(cs, id, tenantId, r.value, now), tenantId);
  }

  /** If only the first least-loaded user's count went up, by one, the loads made one balancing step. */
  lemma RaisedLeastIsStep(us: seq<User>, cs: seq<Customer>, after: seq<Customer>, tenantId: int)
    requires us != [] && UniqueUsers(us)
    requires forall u :: u in us ==>
               Load(after, tenantId, u.id)
               == Load(cs, tenantId, u.id) + if u.id == LeastLoaded(us, cs, tenantId).value then 1 else 0
    ensures LoadsOf(us, after, tenantId) == LB.Step(LoadsOf(us, cs, tenantId))
  {
    LeastLoadedPlace(us, cs, tenantId);
    var k := LB.Least(LoadsOf(us, cs, tenantId));
    assert LeastLoaded(us, cs, tenantId).value == us[k].id;
    RaisedPlace(us, cs, after, tenantId, k);
  }

  lemma RaisedPlace(us: seq<User>, cs: seq<Customer>, after: seq<Customer>, tenantId: int, k: nat)
    requires k < |us| && UniqueUsers(us)
    requires forall u :: u in us ==>
               Load(after, tenantId, u.id) == Load(cs, tenantId, u.id) + if u.id == us[k].id then 1 else 0
    ensures var v := LoadsOf(us, cs, tenantId);
            LoadsOf(us, after, tenantId) == v[k := v[k] + 1]
  {
    forall i | 0 <= i < |us| ensures LoadsOf(us, after, tenantId)[i]
                                     == LoadsOf(us, cs, tenantId)[i] + if i == k then 1 else 0 {
      assert us[i] in us;
    }
  }

  /** What happens to the customer table between two looks at the loads: an
      automatic assignment, or any other change. */
  datatype TeamEvent = AutoAssign(id: int, now: int) | Change(after: seq<Customer>)

  function AfterEvent(users: seq<User>, rules: seq<Rule>, cs: seq<Customer>, tenantId: int, e: TeamEvent): seq<Customer> {
    match e
    case Change(after) => after
    case AutoAssign(id, now) =>
      var found := Find(cs, id, tenantId);
      var r := if found.None? then None else Choice(users, rules, cs, found.value);
      if r.None? then cs else Assign(cs, id, tenantId, r.value, now)
  }

  function AfterEvents(users: seq<User>, rules: seq<Rule>, cs: seq<Customer>, tenantId: int, es: seq<TeamEvent>)
    : seq<Customer>
    decreases |es|
  {
    if es == [] then cs else AfterEvents(users, rules, AfterEvent(users, rules, cs, tenantId, es[0]), tenantId, es[1..])
  }

  function Assignments(es: seq<TeamEvent>): nat {
    if es == [] then 0 else Assignments(es[1..]) + if es[0].AutoAssign? then 1 else 0
  }

  ghost predicate EventFits(users: seq<User>, rules: seq<Rule>, cs: seq<Customer>, tenantId: int, e: TeamEvent) {
    match e
    case AutoAssign(id, _) => Fresh(users, rules, cs, id, tenantId)
    case Change(after) =>
      && UniqueIds(after)
      && LoadsOf(ActiveUsers(users, tenantId), after, tenantId) == LoadsOf(ActiveUsers(users, tenantId), cs, tenantId)
  }

  /** Every assignment of the run is of a fresh lead; every other change
      (new leads, edited rows, rows of other tenants) keeps ids unique and the
      active users' loads as they are. */
  ghost predicate FreshRun(users: seq<User>, rules: seq<Rule>, cs: seq<Customer>, tenantId: int, es: seq<TeamEvent>)
    decreases |es|
  {
    es == [] ||
    (&& EventFits(users, rules, cs, tenantId, es[0])
     && FreshRun(users, rules, AfterEvent(users, rules, cs, tenantId, es[0]), tenantId, es[1..]))
  }

  lemma {:induction false} RunIsSteps(users: seq<User>, rules: seq<Rule>, cs: seq<Customer>, tenantId: int, es: seq<TeamEvent>)
    requires UniqueIds(cs) && UniqueUsers(users) && ActiveUsers(users, tenantId) != []
    requires FreshRun(users, rules, cs, tenantId, es)
    ensures var us := ActiveUsers(users, tenantId);
            LoadsOf(us, AfterEvents(users, rules, cs, tenantId, es), tenantId)
            == LB.Steps(LoadsOf(us, cs, tenantId), Assignments(es))
    decreases |es|
  {
    if es != [] {
      EventIsSteps(users, rules, cs, tenantId, es[0]);
      RunIsSteps(users, rules, AfterEvent(users, rules, cs, tenantId, es[0]), tenantId, es[1..]);
    }
  }

  /** An assignment is one balancing step, any other change none. */
  lemma EventIsSteps(users: seq<User>, rules: seq<Rule>, cs: seq<Customer>, tenantId: int, e: TeamEvent)
    requires UniqueIds(cs) && UniqueUsers(users) && ActiveUsers(users, tenantId) != []
    requires EventFits(users, rules, cs, tenantId, e)
    ensures var us, after := ActiveUsers(users, tenantId), AfterEvent(users, rules, cs, tenantId, e);
            && UniqueIds(after)
            && LoadsOf(us, after, tenantId)
               == if e.AutoAssign? then LB.Step(LoadsOf(us, cs, tenantId)) else LoadsOf(us, cs, tenantId)
  {
    if e.AutoAssign? {
      AssignIsStep(users, rules, cs, e.id, tenantId, e.now);
      assert Find(cs, e.id, tenantId).value.tenantId == tenantId;
    }
  }

  /** Least-loaded assignment converges: over any run the gap between the
      busiest and the idlest active user stays within max(1, initial gap), and
      after as many assignments as the initial deficit it is at most one. */
  lemma {:induction false} TeamStaysBalanced(users: seq<User>, rules: seq<Rule>, cs: seq<Customer>, tenantId: int, es: seq<TeamEvent>)
    requires UniqueIds(cs) && UniqueUsers(users) && ActiveUsers(users, tenantId) != []
    requires FreshRun(users, rules, cs, tenantId, es)
    ensures var us := ActiveUsers(users, tenantId);
            var before, after := LoadsOf(us, cs, tenantId), LoadsOf(us, AfterEvents(users, rules, cs, tenantId, es), tenantId);
            && LB.Spread(after) <= Max(1, LB.Spread(before))
            && (Assignments(es) >= LB.Deficit(before) ==> LB.Spread(after) <= 1)
  {
    RunIsSteps(users, rules, cs, tenantId, es);
    var before := LoadsOf(ActiveUsers(users, tenantId), cs, tenantId);
    LB.SpreadNeverGrows(before, Assignments(es));
    if Assignments(es) >= LB.Deficit(before) {
      LB.Converges(before, Assignments(es));
    }
  }

  /** Nobody passes the cap before the whole team is full, and somebody does
      as soon as the team's leads exceed its capacity. */
  lemma {:induction false} CapHoldsExactlyWhileTeamHasRoom(users: seq<User>, rules: seq<Rule>, cs: seq<Customer>, tenantId: int,
                                        es: seq<TeamEvent>, cap: int)
    requires UniqueIds(cs) && UniqueUsers(users) && ActiveUsers(users, tenantId) != []
    requires FreshRun(users, rules, cs, tenantId, es)
    requires forall u :: u in ActiveUsers(users, tenantId) ==> Load(cs, tenantId, u.id) <= cap
    ensures var us := ActiveUsers(users, tenantId);
            var end := AfterEvents(users, rules, cs, tenantId, es);
            (forall u :: u in us ==> Load(end, tenantId, u.id) <= cap) <==>
            LB.Total(LoadsOf(us, cs, tenantId)) + Assignments(es) <= |us| * cap
  {
    RunIsSteps(users, rules, cs, tenantId, es);
    var us, end, n := ActiveUsers(users, tenantId), AfterEvents(users, rules, cs, tenantId, es), Assignments(es);
    var before, after := LoadsOf(us, cs, tenantId), LoadsOf(us, end, tenantId);
    forall x | x in before ensures x <= cap {
      var k :| 0 <= k < |us| && before[k] == x;
      assert us[k] in us;
    }
    if LB.Total(before) + n <= |us| * cap {
      LB.NobodyPassesCap(before, cap, n);
      forall u | u in us ensures Load(end, tenantId, u.id) <= cap {
        var k :| 0 <= k < |us| && us[k] == u;
        assert after[k] in after;
      }
    } else {
      LB.SomebodyPassesCap(before, cap, n);
      var x :| x in after && x > cap;
      var k :| 0 <= k < |us| && after[k] == x;
      assert us[k] in us;
    }
  }
}
