/** Ticket assignment by round robin over a fixed pool of agents, the turn
    being read off the number of assigned tickets. */
module Tickets {
  import opened Prelude

  const AGENT_POOL: seq<int> := [1, 2, 3]
  const POOL_SIZE := 3

  datatype Status = Open | Pending | Resolved | OtherStatus(name: string)

  datatype Ticket = Ticket(
    id: int,
    tenantId: int,
    status: Status,
    assignedTo: Option<int>,
    updatedAt: int,
    firstResponseAt: Option<int>,
    resolvedAt: Option<int>)

  datatype Desk = Desk(tickets: seq<Ticket>, nextId: int)

  /** A call of the service. `AssignTicket` also stands for `update_ticket` with
      an `assigned_to`, which may be null; `Touch` for the other updates. */
  datatype Op =
    | CreateTicket(tenantId: int, assignedTo: Option<int>, now: int)
    | AssignTicket(id: int, tenantId: int, assignedTo: Option<int>, now: int)
    | AutoAssign(id: int, tenantId: int, now: int)
    | AddReply(id: int, tenantId: int, internal: bool, now: int)
    | ChangeStatus(id: int, tenantId: int, status: Status, now: int)
    | Touch(id: int, tenantId: int, now: int)

  ghost predicate Valid(d: Desk) {
    && (forall t :: t in d.tickets ==> t.id < d.nextId)
    && forall i, j :: 0 <= i < j < |d.tickets| ==> d.tickets[i].id != d.tickets[j].id
  }

  predicate IsTicket(t: Ticket, id: int, tenantId: int) { t.id == id && t.tenantId == tenantId }

  /** `_fetch`; `None` is NotFound. */
  function Fetch(ts: seq<Ticket>, id: int, tenantId: int): (r: Option<Ticket>)
    ensures r.Some? ==> r.value in ts && IsTicket(r.value, id, tenantId)
    ensures r.None? ==> forall t :: t in ts ==> !IsTicket(t, id, tenantId)
  {
    if ts == [] then None
    else if IsTicket(ts[0], id, tenantId) then Some(ts[0])
    else Fetch(ts[1..], id, tenantId)
  }

  /** `update tickets where id`. */
  function Update(ts: seq<Ticket>, id: int, change: Ticket -> Ticket): (r: seq<Ticket>)
    ensures |r| == |ts|
    ensures forall i :: 0 <= i < |ts| ==> r[i] == if ts[i].id == id then change(ts[i]) else ts[i]
  {
    seq(|ts|, i requires 0 <= i < |ts| => if ts[i].id == id then change(ts[i]) else ts[i])
  }

  predicate Counts(t: Ticket, tenantId: int) { t.tenantId == tenantId && t.assignedTo.Some? }

  /** The tenant's assigned tickets. */
  function AssignedCount(ts: seq<Ticket>, tenantId: int): nat {
    if ts == [] then 0 else (if Counts(ts[0], tenantId) then 1 else 0) + AssignedCount(ts[1..], tenantId)
  }

  function Agent(n: nat): int { AGENT_POOL[n % POOL_SIZE] }

  /** `_next_agent`. */
  function NextAgent(ts: seq<Ticket>, tenantId: int): int { Agent(AssignedCount(ts, tenantId)) }

  /** The ticket a call has fetched, after the call; `agent` is the one whose turn it is. */
  function Changed(op: Op, agent: int, t: Ticket): (r: Ticket)
    ensures r.id == t.id && r.tenantId == t.tenantId
  {
    match op
    case CreateTicket(_, _, _) => t
    case AssignTicket(_, _, assignedTo, now) => t.(assignedTo := assignedTo, updatedAt := now)
    case AutoAssign(_, _, now) => if t.assignedTo.Some? then t else t.(assignedTo := Some(agent), updatedAt := now)
    case AddReply(_, _, internal, now) =>
      if t.firstResponseAt.None? && !internal then t.(firstResponseAt := Some(now), updatedAt := now) else t
    case ChangeStatus(_, _, status, now) =>
      t.(status := status, updatedAt := now, resolvedAt := if status == Resolved then Some(now) else t.resolvedAt)
    case Touch(_, _, now) => t.(updatedAt := now)
  }

  function ChangedAll(ts: seq<Ticket>, op: Op, agent: int): (r: seq<Ticket>)
    requires !op.CreateTicket?
    ensures |r| == |ts|
    ensures forall i :: 0 <= i < |ts| ==> r[i] == if ts[i].id == op.id then Changed(op, agent, ts[i]) else ts[i]
  {
    seq(|ts|, i requires 0 <= i < |ts| => if ts[i].id == op.id then Changed(op, agent, ts[i]) else ts[i])
  }

  predicate Reaches(ts: seq<Ticket>, op: Op) {
    op.CreateTicket? || Fetch(ts, op.id, op.tenantId).Some?
  }

  function Created(d: Desk, op: Op): Ticket
    requires op.CreateTicket?
  {
    Ticket(d.nextId, op.tenantId, Open,
           Some(if op.assignedTo.Some? then op.assignedTo.value else NextAgent(d.tickets, op.tenantId)),
           op.now, None, None)
  }

  function Step(d: Desk, op: Op): Desk {
    if op.CreateTicket? then Desk(d.tickets + [Created(d, op)], d.nextId + 1)
    else if !Reaches(d.tickets, op) then d
    else d.(tickets := ChangedAll(d.tickets, op, NextAgent(d.tickets, op.tenantId)))
  }

  /** Does the call pick an agent in turn? */
  predicate PicksAgent(d: Desk, op: Op) {
    || (op.CreateTicket? && op.assignedTo.None?)
    || (op.AutoAssign? && Reaches(d.tickets, op) && Fetch(d.tickets, op.id, op.tenantId).value.assignedTo.None?)
  }

  /** Automatic assignment of a ticket the tenant has: nothing if it is
      assigned, otherwise an assignment to the agent whose turn it is. */
  lemma AutoAssignIsAssign(d: Desk, id: int, tenantId: int, now: int)
    requires Valid(d) && Fetch(d.tickets, id, tenantId).Some?
    ensures Step(d, AutoAssign(id, tenantId, now)) ==
              if Fetch(d.tickets, id, tenantId).value.assignedTo.Some? then d
              else Step(d, AssignTicket(id, tenantId, Some(NextAgent(d.tickets, tenantId)), now))
  {
    var agent, t := NextAgent(d.tickets, tenantId), Fetch(d.tickets, id, tenantId).value;
    var k :| 0 <= k < |d.tickets| && d.tickets[k] == t;
    var auto := ChangedAll(d.tickets, AutoAssign(id, tenantId, now), agent);
    if t.assignedTo.Some? {
      assert auto == d.tickets;
    } else {
      assert auto == ChangedAll(d.tickets, AssignTicket(id, tenantId, Some(agent), now), agent);
    }
  }

  class TicketService {
    var tickets: seq<Ticket>
    var nextId: int

    constructor ()
      ensures State() == Desk([], 1)
    {
      tickets, nextId := [], 1;
    }

    function State(): Desk
      reads this
    {
      Desk(tickets, nextId)
    }

    /** The count query: tickets of the tenant with an assignee. */
    method NextAgentOf(tenantId: int) returns (agent: int)
      ensures agent == NextAgent(tickets, tenantId)
      ensures agent in AGENT_POOL
    {
      var count := AssignedCount(tickets, tenantId);
      agent := AGENT_POOL[count % |AGENT_POOL|];
    }

    method Create(tenantId: int, assignedTo: Option<int>, now: int) returns (t: Ticket)
      modifies this
      ensures State() == Step(old(State()), CreateTicket(tenantId, assignedTo, now))
      ensures t == Created(old(State()), CreateTicket(tenantId, assignedTo, now))
    {
      var agent: int;
      if assignedTo.None? {
        agent := NextAgentOf(tenantId);
      } else {
        agent := assignedTo.value;
      }
      t := Ticket(nextId, tenantId, Open, Some(agent), now, None, None);
      tickets, nextId := tickets + [t], nextId + 1;
    }

    /** `update_ticket` restricted to the assignee; false is NotFound. */
    method Assign(id: int, tenantId: int, assignedTo: Option<int>, now: int) returns (ok: bool)
      modifies this
      ensures State() == Step(old(State()), AssignTicket(id, tenantId, assignedTo, now))
      ensures ok == Reaches(old(tickets), AssignTicket(id, tenantId, assignedTo, now))
    {
      ok := Fetch(tickets, id, tenantId).Some?;
      if ok {
        ghost var was := tickets;
        tickets := Update(tickets, id, (t: Ticket) => t.(assignedTo := assignedTo, updatedAt := now));
        assert tickets == ChangedAll(was, AssignTicket(id, tenantId, assignedTo, now), NextAgent(was, tenantId));
      }
    }

    method AutoAssignTicket(id: int, tenantId: int, now: int) returns (ok: bool)
      requires Valid(State())
      modifies this
      ensures State() == Step(old(State()), AutoAssign(id, tenantId, now))
      ensures ok == Reaches(old(tickets), AutoAssign(id, tenantId, now))
    {
      var found := Fetch(tickets, id, tenantId);
      if found.None? { return false; }
      AutoAssignIsAssign(State(), id, tenantId, now);
      if found.value.assignedTo.Some? { return true; }
      var agent := NextAgentOf(tenantId);
      ok := Assign(id, tenantId, Some(agent), now);
    }

    method Reply(id: int, tenantId: int, internal: bool, now: int) returns (ok: bool)
      requires Valid(State())
      modifies this
      ensures State() == Step(old(State()), AddReply(id, tenantId, internal, now))
      ensures ok == Reaches(old(tickets), AddReply(id, tenantId, internal, now))
    {
      var found := Fetch(tickets, id, tenantId);
      if found.None? { return false; }
      ghost var was := tickets;
      ghost var k :| 0 <= k < |was| && was[k] == found.value;
      if found.value.firstResponseAt.None? && !internal {
        tickets := Update(tickets, id, (t: Ticket) => t.(firstResponseAt := Some(now), updatedAt := now));
      }
      assert tickets == ChangedAll(was, AddReply(id, tenantId, internal, now), NextAgent(was, tenantId));
      ok := true;
    }

    method ChangeStatusOf(id: int, tenantId: int, status: Status, now: int) returns (ok: bool)
      modifies this
      ensures State() == Step(old(State()), ChangeStatus(id, tenantId, status, now))
      ensures ok == Reaches(old(tickets), ChangeStatus(id, tenantId, status, now))
    {
      ghost var was := tickets;
      ok := Fetch(tickets, id, tenantId).Some?;
      if !ok { return; }
      if status == Resolved {
        tickets := Update(tickets, id, (t: Ticket) => t.(status := status, updatedAt := now, resolvedAt := Some(now)));
      } else {
        tickets := Update(tickets, id, (t: Ticket) => t.(status := status, updatedAt := now));
      }
      assert tickets == ChangedAll(was, ChangeStatus(id, tenantId, status, now), NextAgent(was, tenantId));
    }
  }

  // ---------------------------------------------------------------------------
  // Runs
  // ---------------------------------------------------------------------------

  lemma {:induction false} CountAppend(ts: seq<Ticket>, t: Ticket, tenantId: int)
    ensures AssignedCount(ts + [t], tenantId) == AssignedCount(ts, tenantId) + if Counts(t, tenantId) then 1 else 0
  {
    if ts == [] {
      assert ts + [t] == [t];
    } else {
      CountAppend(ts[1..], t, tenantId);
      assert (ts + [t])[1..] == ts[1..] + [t];
    }
  }

  lemma {:induction false} CountReplace(ts: seq<Ticket>, k: nat, t: Ticket, tenantId: int)
    requires k < |ts|
    ensures AssignedCount(ts[k := t], tenantId)
         == AssignedCount(ts, tenantId) - (if Counts(ts[k], tenantId) then 1 else 0) + (if Counts(t, tenantId) then 1 else 0)
  {
    if k == 0 {
      assert ts[0 := t][1..] == ts[1..];
    } else {
      CountReplace(ts[1..], k - 1, t, tenantId);
      assert ts[k := t][1..] == ts[1..][k - 1 := t];
    }
  }

  /** What a call adds to its tenant's count of assigned tickets. */
  function Added(d: Desk, op: Op): int {
    if op.CreateTicket? || PicksAgent(d, op) then 1
    else if op.AssignTicket? && Reaches(d.tickets, op) then
      var t := Fetch(d.tickets, op.id, op.tenantId).value;
      (if op.assignedTo.Some? then 1 else 0) - (if t.assignedTo.Some? then 1 else 0)
    else 0
  }

  /** A call on an existing ticket replaces that one row. */
  lemma StepReplacesOneRow(d: Desk, op: Op)
    requires Valid(d) && !op.CreateTicket? && Reaches(d.tickets, op)
    ensures var t := Fetch(d.tickets, op.id, op.tenantId).value;
            exists k :: 0 <= k < |d.tickets| && d.tickets[k] == t
                        && Step(d, op).tickets == d.tickets[k := Changed(op, NextAgent(d.tickets, op.tenantId), t)]
  {
    var t := Fetch(d.tickets, op.id, op.tenantId).value;
    var k :| 0 <= k < |d.tickets| && d.tickets[k] == t;
    assert Step(d, op).tickets == d.tickets[k := Changed(op, NextAgent(d.tickets, op.tenantId), t)];
  }

  lemma StepKeepsValid(d: Desk, op: Op)
    requires Valid(d)
    ensures Valid(Step(d, op))
  {
    var d' := Step(d, op);
    if !op.CreateTicket? {
      forall t | t in d'.tickets ensures t.id < d'.nextId {
        var k :| 0 <= k < |d'.tickets| && d'.tickets[k] == t;
        assert d.tickets[k] in d.tickets;
      }
    } else {
      assert forall i :: 0 <= i < |d.tickets| ==> d.tickets[i] in d.tickets;
    }
  }

  /** What the changed row adds to the count of its tenant is what the call adds. */
  lemma ChangeAdds(d: Desk, op: Op, t: Ticket, t': Ticket)
    requires !op.CreateTicket? && Fetch(d.tickets, op.id, op.tenantId) == Some(t)
    requires t' == Changed(op, NextAgent(d.tickets, op.tenantId), t)
    ensures t.tenantId == t'.tenantId == op.tenantId
    ensures (if t'.assignedTo.Some? then 1 else 0) - (if t.assignedTo.Some? then 1 else 0) == Added(d, op)
  {
  }

  lemma StepCounts(d: Desk, op: Op, tenantId: int)
    requires Valid(d)
    ensures AssignedCount(Step(d, op).tickets, tenantId)
         == AssignedCount(d.tickets, tenantId) + if op.tenantId == tenantId then Added(d, op) else 0
  {
    if op.CreateTicket? {
      CountAppend(d.tickets, Created(d, op), tenantId);
    } else if Reaches(d.tickets, op) {
      StepReplacesOneRow(d, op);
      var t := Fetch(d.tickets, op.id, op.tenantId).value;
      var t' := Changed(op, NextAgent(d.tickets, op.tenantId), t);
      var k :| 0 <= k < |d.tickets| && d.tickets[k] == t && Step(d, op).tickets == d.tickets[k := t'];
      ChangeAdds(d, op, t, t');
      CountReplace(d.tickets, k, t', tenantId);
    }
  }

  predicate Turns(d: Desk, op: Op, tenantId: int) { op.tenantId == tenantId && PicksAgent(d, op) }

  /** The agent a call picks for the tenant, if it picks one. */
  function Turn(d: Desk, op: Op, tenantId: int): seq<int> {
    if Turns(d, op, tenantId) then [NextAgent(d.tickets, tenantId)] else []
  }

  /** The agents picked in turn for a tenant along a run. */
  function Picks(d: Desk, ops: seq<Op>, tenantId: int): seq<int>
    decreases |ops|
  {
    if ops == [] then []
    else
      Turn(d, ops[0], tenantId) + Picks(Step(d, ops[0]), ops[1..], tenantId)
  }

  // ---------------------------------------------------------------------------
  // Which agent every pick goes to, and when the round robin is one
  // ---------------------------------------------------------------------------

  /** What a call that is no pick of the tenant adds to its count. */
  function Drift(d: Desk, op: Op, tenantId: int): int {
    if op.tenantId == tenantId && !PicksAgent(d, op) then Added(d, op) else 0
  }

  /** The drift at each of the tenant's picks: what all of the tenant's calls
      other than picks have added to the count by then, from `drift` on. */
  function Drifts(d: Desk, ops: seq<Op>, tenantId: int, drift: int): seq<int>
    decreases |ops|
  {
    if ops == [] then []
    else if Turns(d, ops[0], tenantId) then [drift] + Drifts(Step(d, ops[0]), ops[1..], tenantId, drift)
    else Drifts(Step(d, ops[0]), ops[1..], tenantId, drift + Drift(d, ops[0], tenantId))
  }

  /** A pick moves the count by one, any other call by what it drifts. */
  lemma CountMoves(d: Desk, op: Op, tenantId: int)
    requires Valid(d)
    ensures Valid(Step(d, op))
    ensures AssignedCount(Step(d, op).tickets, tenantId)
         == AssignedCount(d.tickets, tenantId) + if Turns(d, op, tenantId) then 1 else Drift(d, op, tenantId)
  {
    StepKeepsValid(d, op);
    StepCounts(d, op, tenantId);
  }

  /** The `j`-th agent is the one whose turn it is `n + j + drifts[j]` turns from the start of the pool. */
  ghost predicate Follow(picks: seq<int>, drifts: seq<int>, n: nat) {
    && |picks| == |drifts|
    && forall j :: 0 <= j < |picks| ==> n + j + drifts[j] >= 0 && picks[j] == Agent(n + j + drifts[j])
  }

  lemma FollowCons(agent: int, drift: int, picks: seq<int>, drifts: seq<int>, n: nat)
    requires n + drift >= 0 && agent == Agent(n + drift) && Follow(picks, drifts, n + 1)
    ensures Follow([agent] + picks, [drift] + drifts, n)
  {
    var ps, ds := [agent] + picks, [drift] + drifts;
    forall j | 0 <= j < |ps| ensures n + j + ds[j] >= 0 && ps[j] == Agent(n + j + ds[j]) {
      if j > 0 {
        assert ps[j] == picks[j - 1] && ds[j] == drifts[j - 1];
        assert (n + 1) + (j - 1) + drifts[j - 1] == n + j + ds[j];
      }
    }
  }

  /** What the first call of a run puts before the picks and the drifts of the rest. */
  lemma FirstPick(d: Desk, ops: seq<Op>, tenantId: int, drift: int)
    requires ops != []
    ensures var d' := Step(d, ops[0]);
            if Turns(d, ops[0], tenantId) then
              && Picks(d, ops, tenantId) == [NextAgent(d.tickets, tenantId)] + Picks(d', ops[1..], tenantId)
              && Drifts(d, ops, tenantId, drift) == [drift] + Drifts(d', ops[1..], tenantId, drift)
            else
              && Picks(d, ops, tenantId) == Picks(d', ops[1..], tenantId)
              && Drifts(d, ops, tenantId, drift)
                 == Drifts(d', ops[1..], tenantId, drift + Drift(d, ops[0], tenantId))
  {
    var rest := Picks(Step(d, ops[0]), ops[1..], tenantId);
    assert Picks(d, ops, tenantId) == Turn(d, ops[0], tenantId) + rest;
    assert [] + rest == rest;
  }

  ghost predicate RunFollows(d: Desk, ops: seq<Op>, tenantId: int, n: nat, drift: int) {
    Follow(Picks(d, ops, tenantId), Drifts(d, ops, tenantId, drift), n)
  }

  lemma FollowStep(d: Desk, ops: seq<Op>, tenantId: int, n: nat, drift: int)
    requires ops != [] && n + drift == AssignedCount(d.tickets, tenantId)
    requires if Turns(d, ops[0], tenantId) then RunFollows(Step(d, ops[0]), ops[1..], tenantId, n + 1, drift)
             else RunFollows(Step(d, ops[0]), ops[1..], tenantId, n, drift + Drift(d, ops[0], tenantId))
    ensures RunFollows(d, ops, tenantId, n, drift)
  {
    FirstPick(d, ops, tenantId, drift);
    if Turns(d, ops[0], tenantId) {
      FollowCons(NextAgent(d.tickets, tenantId), drift, Picks(Step(d, ops[0]), ops[1..], tenantId),
                 Drifts(Step(d, ops[0]), ops[1..], tenantId, drift), n);
    }
  }

  /** Whatever else happens, the tenant's `j`-th pick is `j` turns on from where
      the count stood, plus the drift. */
  lemma {:induction false} PicksFollowDrifts(d: Desk, ops: seq<Op>, tenantId: int, n: nat, drift: int)
    requires Valid(d) && n + drift == AssignedCount(d.tickets, tenantId)
    ensures RunFollows(d, ops, tenantId, n, drift)
    decreases |ops|
  {
    if ops != [] {
      var op, d' := ops[0], Step(d, ops[0]);
      CountMoves(d, op, tenantId);
      if Turns(d, op, tenantId) {
        PicksFollowDrifts(d', ops[1..], tenantId, n + 1, drift);
      } else {
        PicksFollowDrifts(d', ops[1..], tenantId, n, drift + Drift(d, op, tenantId));
      }
      FollowStep(d, ops, tenantId, n, drift);
    }
  }

  lemma SameTurn(n: nat, m: nat)
    ensures Agent(n) == Agent(m) <==> (n - m) % 3 == 0
  {
  }

  /** The agents of consecutive turns, from turn `n`. */
  ghost predicate Cyclic(s: seq<int>, n: nat) {
    forall j :: 0 <= j < |s| ==> s[j] == Agent(n + j)
  }

  /** At every pick the drift is a multiple of the pool's size. */
  ghost predicate Driftless(drifts: seq<int>) {
    forall j :: 0 <= j < |drifts| ==> drifts[j] % 3 == 0
  }

  lemma CyclicFollowsDrifts(picks: seq<int>, drifts: seq<int>, n: nat)
    requires Follow(picks, drifts, n)
    ensures Cyclic(picks, n) <==> Driftless(drifts)
  {
    forall j | 0 <= j < |picks| ensures picks[j] == Agent(n + j) <==> drifts[j] % 3 == 0 {
      SameTurn(n + j + drifts[j], n + j);
    }
  }

  /** The round robin is one exactly when, at every pick, the calls that are not
      picks have together added a multiple of the pool's size to the count. */
  lemma CyclicExactlyWithoutDrift(d: Desk, ops: seq<Op>, tenantId: int)
    requires Valid(d)
    ensures Cyclic(Picks(d, ops, tenantId), AssignedCount(d.tickets, tenantId))
       <==> Driftless(Drifts(d, ops, tenantId, 0))
  {
    PicksFollowDrifts(d, ops, tenantId, AssignedCount(d.tickets, tenantId), 0);
    CyclicFollowsDrifts(Picks(d, ops, tenantId), Drifts(d, ops, tenantId, 0), AssignedCount(d.tickets, tenantId));
  }

  /** In the tenant's part of the run only the calls that pick an agent change
      how many tickets are assigned: no ticket is created for a named agent, a
      named assignment only moves a ticket between agents, none is unassigned. */
  ghost predicate OnlyPicksAdd(d: Desk, ops: seq<Op>, tenantId: int)
    decreases |ops|
  {
    ops == [] ||
    (&& (ops[0].tenantId == tenantId ==> PicksAgent(d, ops[0]) || Added(d, ops[0]) == 0)
     && OnlyPicksAdd(Step(d, ops[0]), ops[1..], tenantId))
  }

  lemma {:induction false} OnlyPicksAddNeverDrifts(d: Desk, ops: seq<Op>, tenantId: int, drift: int)
    requires OnlyPicksAdd(d, ops, tenantId)
    requires drift % 3 == 0
    ensures Driftless(Drifts(d, ops, tenantId, drift))
    decreases |ops|
  {
    if ops != [] {
      OnlyPicksAddNeverDrifts(Step(d, ops[0]), ops[1..], tenantId, drift);
      DriftlessCons(drift, Drifts(Step(d, ops[0]), ops[1..], tenantId, drift));
    }
  }

  lemma DriftlessCons(drift: int, drifts: seq<int>)
    requires drift % 3 == 0 && Driftless(drifts)
    ensures Driftless([drift] + drifts)
  {
  }

  /** In particular, if only picks add to the count, they walk the pool cyclically. */
  lemma PicksAreCyclic(d: Desk, ops: seq<Op>, tenantId: int)
    requires Valid(d) && OnlyPicksAdd(d, ops, tenantId)
    ensures Cyclic(Picks(d, ops, tenantId), AssignedCount(d.tickets, tenantId))
  {
    OnlyPicksAddNeverDrifts(d, ops, tenantId, 0);
    CyclicExactlyWithoutDrift(d, ops, tenantId);
  }

  // ---------------------------------------------------------------------------
  // Fairness
  // ---------------------------------------------------------------------------

  function Occurrences(s: seq<int>, x: int): nat {
    if s == [] then 0 else (if s[|s| - 1] == x then 1 else 0) + Occurrences(s[..|s| - 1], x)
  }

  /** In every window any two agents come up equally often, give or take one. */
  ghost predicate Fair(s: seq<int>) {
    forall a, b, x, y :: 0 <= a <= b <= |s| && x in AGENT_POOL && y in AGENT_POOL ==> FairIn(s, a, b, x, y)
  }

  ghost predicate FairIn(s: seq<int>, a: nat, b: nat, x: int, y: int)
    requires a <= b <= |s|
  {
    Occurrences(s[a..b], x) <= Occurrences(s[a..b], y) + 1
  }

  /** Nobody comes up again within the next two picks. */
  ghost predicate Rotating(s: seq<int>) {
    forall i, j :: 0 <= i < j < |s| && j <= i + 2 ==> s[i] != s[j]
  }

  ghost predicate OfPool(s: seq<int>) { forall i :: 0 <= i < |s| ==> s[i] in AGENT_POOL }

  lemma OccurrencesOfTwo(x: int, y: int, z: int)
    ensures Occurrences([x, y], z) == (if x == z then 1 else 0) + (if y == z then 1 else 0)
  {
    assert [x, y][..1] == [x] && [x][..0] == [];
    assert Occurrences([x], z) == if x == z then 1 else 0;
  }

  lemma OccurrencesOfThree(s: seq<int>, x: int)
    requires |s| >= 3
    ensures var n := |s|;
            Occurrences(s, x) == Occurrences(s[..n - 3], x)
                                 + (if s[n - 3] == x then 1 else 0) + (if s[n - 2] == x then 1 else 0)
                                 + (if s[n - 1] == x then 1 else 0)
  {
    var n := |s|;
    assert s[..n - 1][..n - 2] == s[..n - 2] && s[..n - 2][..n - 3] == s[..n - 3];
    assert Occurrences(s[..n - 2], x) == Occurrences(s[..n - 3], x) + if s[n - 3] == x then 1 else 0;
    assert Occurrences(s[..n - 1], x) == Occurrences(s[..n - 2], x) + if s[n - 2] == x then 1 else 0;
  }

  /** Three rotating picks are the whole pool, so they add one to every agent. */
  lemma {:induction false} RotatingIsEven(s: seq<int>, x: int, y: int)
    requires Rotating(s) && OfPool(s) && x in AGENT_POOL && y in AGENT_POOL
    ensures Occurrences(s, x) <= Occurrences(s, y) + 1
    decreases |s|
  {
    var n := |s|;
    if n >= 3 {
      RotatingIsEven(s[..n - 3], x, y);
      OccurrencesOfThree(s, x);
      OccurrencesOfThree(s, y);
      assert s[n - 3] != s[n - 2] && s[n - 2] != s[n - 1] && s[n - 3] != s[n - 1];
    } else if n == 2 {
      assert s == [s[0], s[1]] && s[0] != s[1];
      OccurrencesOfTwo(s[0], s[1], x);
    } else if n == 1 {
      assert s[..0] == [];
    }
  }

  /** Two picks of one agent within three are unfair already. */
  lemma RepeatIsUnfair(s: seq<int>, i: nat, j: nat)
    requires OfPool(s) && i < j < |s| && j <= i + 2 && s[i] == s[j]
    ensures !Fair(s)
  {
    if Fair(s) {
      var w := s[i..j + 1];
      var other := s[if j == i + 2 then i + 1 else i];
      var missing := if s[i] != 1 && other != 1 then 1 else if s[i] != 2 && other != 2 then 2 else 3;
      assert FairIn(s, i, j + 1, s[i], missing);
      if j == i + 1 {
        assert w == [s[i], s[j]];
        OccurrencesOfTwo(s[i], s[j], s[i]);
        OccurrencesOfTwo(s[i], s[j], missing);
      } else {
        assert w == [s[i], s[i + 1], s[j]] && w[..0] == [];
        OccurrencesOfThree(w, s[i]);
        OccurrencesOfThree(w, missing);
      }
    }
  }

  lemma FairExactlyWhenRotating(s: seq<int>)
    requires OfPool(s)
    ensures Fair(s) <==> Rotating(s)
  {
    if Rotating(s) {
      forall a, b, x, y | 0 <= a <= b <= |s| && x in AGENT_POOL && y in AGENT_POOL ensures FairIn(s, a, b, x, y) {
        var w := s[a..b];
        assert forall i :: 0 <= i < |w| ==> w[i] == s[a + i];
        RotatingIsEven(w, x, y);
      }
    } else {
      var i, j :| 0 <= i < j < |s| && j <= i + 2 && s[i] == s[j];
      RepeatIsUnfair(s, i, j);
    }
  }

  /** The picks are fair in every window exactly when, from any pick to either of
      the next two, the count never moves by a multiple of the pool's size. */
  lemma FairExactlyWhenDriftNeverCatchesUp(d: Desk, ops: seq<Op>, tenantId: int)
    requires Valid(d)
    ensures Fair(Picks(d, ops, tenantId)) <==> NeverCatchesUp(Drifts(d, ops, tenantId, 0))
  {
    var n := AssignedCount(d.tickets, tenantId);
    var picks, drifts := Picks(d, ops, tenantId), Drifts(d, ops, tenantId, 0);
    PicksFollowDrifts(d, ops, tenantId, n, 0);
    FairExactlyWhenRotating(picks);
    RotatingFollowsDrifts(picks, drifts, n);
  }

  lemma RotatingFollowsDrifts(picks: seq<int>, drifts: seq<int>, n: nat)
    requires Follow(picks, drifts, n)
    ensures Rotating(picks) <==> NeverCatchesUp(drifts)
  {
    forall i, j | 0 <= i < j < |drifts| ensures picks[i] == picks[j] <==> CatchesUp(drifts, i, j) {
      SameTurn(n + j + drifts[j], n + i + drifts[i]);
      assert n + j + drifts[j] - (n + i + drifts[i]) == j - i + drifts[j] - drifts[i];
    }
    if NeverCatchesUp(drifts) {
      forall i, j | 0 <= i < j < |picks| && j <= i + 2 ensures picks[i] != picks[j] {
        assert !CatchesUp(drifts, i, j);
      }
    }
  }

  /** From pick `i` to pick `j` the count has moved by a multiple of the pool's size. */
  ghost predicate CatchesUp(drifts: seq<int>, i: nat, j: nat)
    requires i < j < |drifts|
  {
    (j - i + drifts[j] - drifts[i]) % 3 == 0
  }

  ghost predicate NeverCatchesUp(drifts: seq<int>) {
    forall i, j :: 0 <= i < j < |drifts| && j <= i + 2 ==> !CatchesUp(drifts, i, j)
  }

  lemma DriftlessNeverCatchesUp(drifts: seq<int>)
    requires Driftless(drifts)
    ensures NeverCatchesUp(drifts)
  {
  }

  /** A run without drift is fair. */
  lemma PicksAreFair(d: Desk, ops: seq<Op>, tenantId: int, a: nat, b: nat, x: int, y: int)
    requires Valid(d) && Driftless(Drifts(d, ops, tenantId, 0))
    requires a <= b <= |Picks(d, ops, tenantId)| && x in AGENT_POOL && y in AGENT_POOL
    ensures var window := Picks(d, ops, tenantId)[a..b];
            Occurrences(window, x) <= Occurrences(window, y) + 1
  {
    DriftlessNeverCatchesUp(Drifts(d, ops, tenantId, 0));
    FairExactlyWhenDriftNeverCatchesUp(d, ops, tenantId);
    assert FairIn(Picks(d, ops, tenantId), a, b, x, y);
  }

  lemma PicksCons(d: Desk, op: Op, rest: seq<Op>, tenantId: int)
    ensures Picks(d, [op] + rest, tenantId)
         == Turn(d, op, tenantId) + Picks(Step(d, op), rest, tenantId)
  {
    assert ([op] + rest)[1..] == rest;
  }

  /** Creating a ticket adds one to the count, whoever it is for. */
  lemma CreationCounts(d: Desk, op: Op)
    requires Valid(d) && op.CreateTicket? && op.tenantId == 0
    ensures Valid(Step(d, op)) && AssignedCount(Step(d, op).tickets, 0) == AssignedCount(d.tickets, 0) + 1
  {
    StepKeepsValid(d, op);
    StepCounts(d, op, 0);
  }

  /** A run of `n` picks with two tickets for named agents after each, entered
      `phase` tickets after a pick. */
  function SkewedRun(phase: nat, n: nat): seq<Op>
    requires phase < 3
    decreases n, (3 - phase) % 3
  {
    if phase > 0 then [CreateTicket(0, Some(1), 0)] + SkewedRun((phase + 1) % 3, n)
    else if n > 0 then [CreateTicket(0, None, 0)] + SkewedRun(1, n - 1)
    else []
  }

  /** With drift it can fail as badly as can be: two tickets created
      for named agents between picks send every pick to the same agent. */
  lemma {:induction false} NamedCreationsSkewPicks(d: Desk, phase: nat, n: nat)
    requires Valid(d) && phase < 3 && AssignedCount(d.tickets, 0) % 3 == phase
    ensures var picks := Picks(d, SkewedRun(phase, n), 0);
            |picks| == n && Occurrences(picks, 1) == n
    decreases n, (3 - phase) % 3
  {
    if phase > 0 || n > 0 {
      var op := if phase > 0 then CreateTicket(0, Some(1), 0) else CreateTicket(0, None, 0);
      var next, left := (phase + 1) % 3, if phase > 0 then n else n - 1;
      CreationCounts(d, op);
      NamedCreationsSkewPicks(Step(d, op), next, left);
      PicksCons(d, op, SkewedRun(next, left), 0);
      var rest := Picks(Step(d, op), SkewedRun(next, left), 0);
      if phase == 0 {
        assert Turn(d, op, 0) == [1];
        OccurrencesCons(1, rest);
      } else {
        assert Turn(d, op, 0) == [] && Turn(d, op, 0) + rest == rest;
      }
    }
  }

  lemma {:induction false} OccurrencesCons(x: int, s: seq<int>)
    ensures Occurrences([x] + s, x) == 1 + Occurrences(s, x)
  {
    if s == [] {
      assert [x] + s == [x] && [x][..0] == [];
    } else {
      OccurrencesCons(x, s[..|s| - 1]);
      assert ([x] + s)[..|s|] == [x] + s[..|s| - 1];
    }
  }

  function Run(d: Desk, ops: seq<Op>): Desk
    decreases |ops|
  {
    if ops == [] then d else Run(Step(d, ops[0]), ops[1..])
  }

  /** Tickets keep their place, id and tenant, and the time of the first response is set at most once. */
  lemma {:induction false} FirstResponseSetOnce(d: Desk, ops: seq<Op>, i: nat)
    requires i < |d.tickets|
    ensures var end := Run(d, ops).tickets;
            && i < |end| && end[i].id == d.tickets[i].id && end[i].tenantId == d.tickets[i].tenantId
            && (d.tickets[i].firstResponseAt.Some? ==> end[i].firstResponseAt == d.tickets[i].firstResponseAt)
    decreases |ops|
  {
    if ops != [] {
      FirstResponseSetOnce(Step(d, ops[0]), ops[1..], i);
    }
  }

  // ---------------------------------------------------------------------------
  // The row each call leaves
  // ---------------------------------------------------------------------------

  /** The pool is agents 1, 2 and 3, in turn. */
  lemma AgentsInTurn(n: nat)
    ensures Agent(n) == n % 3 + 1
  {
  }

  function CountedIn(tenantId: int): Ticket -> bool { (t: Ticket) => Counts(t, tenantId) }

  /** The count is of the tenant's tickets that have an assignee, whatever their status. */
  lemma {:induction false} CountMeans(ts: seq<Ticket>, tenantId: int)
    ensures AssignedCount(ts, tenantId) == |set i | 0 <= i < |ts| && ts[i].tenantId == tenantId && ts[i].assignedTo != None|
  {
    CountIsFilter(ts, tenantId);
    FilterCounts(ts, CountedIn(tenantId));
    assert Places(ts, CountedIn(tenantId))
        == set i | 0 <= i < |ts| && ts[i].tenantId == tenantId && ts[i].assignedTo != None;
  }

  lemma {:induction false} CountIsFilter(ts: seq<Ticket>, tenantId: int)
    ensures AssignedCount(ts, tenantId) == |Filter(ts, CountedIn(tenantId))|
  {
    if ts != [] { CountIsFilter(ts[1..], tenantId); }
  }

  /** A new ticket comes last, open, for the named agent or else the next one. */
  lemma CreateWrites(d: Desk, tenantId: int, assignedTo: Option<int>, now: int)
    ensures var d' := Step(d, CreateTicket(tenantId, assignedTo, now));
            && d'.nextId == d.nextId + 1 && |d'.tickets| == |d.tickets| + 1
            && (forall i :: 0 <= i < |d.tickets| ==> d'.tickets[i] == d.tickets[i])
            && exists agent ::
                 && d'.tickets[|d.tickets|] == Ticket(d.nextId, tenantId, Open, Some(agent), now, None, None)
                 && (assignedTo != None ==> assignedTo == Some(agent))
                 && (assignedTo == None ==> agent == AssignedCount(d.tickets, tenantId) % 3 + 1)
  {
    var agent := if assignedTo.Some? then assignedTo.value else NextAgent(d.tickets, tenantId);
    assert Created(d, CreateTicket(tenantId, assignedTo, now)).assignedTo == Some(agent);
  }

  /** The fetched ticket after each call that changes one. A reply sets the
      first response time exactly when it is external and the first; resolving,
      and nothing else, sets the resolution time; automatic assignment leaves an
      assigned ticket alone. */
  lemma CallWrites(d: Desk, op: Op, k: nat)
    requires Valid(d) && !op.CreateTicket? && k < |d.tickets|
    requires d.tickets[k].id == op.id && d.tickets[k].tenantId == op.tenantId
    ensures |Step(d, op).tickets| == |d.tickets| && Step(d, op).nextId == d.nextId
    ensures forall i :: 0 <= i < |d.tickets| && i != k ==> Step(d, op).tickets[i] == d.tickets[i]
    ensures var t, t' := d.tickets[k], Step(d, op).tickets[k];
            match op
            case AssignTicket(id, tenant, agent, now) =>
              t' == Ticket(id, tenant, t.status, agent, now, t.firstResponseAt, t.resolvedAt)
            case AutoAssign(id, tenant, now) =>
              && (t.assignedTo != None ==> t' == t)
              && (t.assignedTo == None ==>
                    t' == Ticket(id, tenant, t.status, Some(AssignedCount(d.tickets, tenant) % 3 + 1), now,
                                 t.firstResponseAt, t.resolvedAt))
            case AddReply(id, tenant, internal, now) =>
              && (internal || t.firstResponseAt != None ==> t' == t)
              && (!internal && t.firstResponseAt == None ==>
                    t' == Ticket(id, tenant, t.status, t.assignedTo, now, Some(now), t.resolvedAt))
            case ChangeStatus(id, tenant, status, now) =>
              && (status == Resolved ==> t' == Ticket(id, tenant, Resolved, t.assignedTo, now, t.firstResponseAt, Some(now)))
              && (status != Resolved ==> t' == Ticket(id, tenant, status, t.assignedTo, now, t.firstResponseAt, t.resolvedAt))
            case Touch(id, tenant, now) => t' == t.(updatedAt := now)
            case CreateTicket(_, _, _) => true
  {
    assert d.tickets[k] in d.tickets;
    assert Reaches(d.tickets, op);
    assert forall i :: 0 <= i < |d.tickets| && i != k ==> d.tickets[i].id != op.id;
  }
}
