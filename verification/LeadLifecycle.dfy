/** How every writer of the recycle history changes a customer row, and what
    holds over any run of those writers, of new rows and of deletions. */
module LeadLifecycle {
  import opened Prelude
  import opened LeadTables

  const HOUR := 3600

  /** The selection of `recycle_stale_leads`. */
  predicate IsStale(c: Customer, tenantId: int, cutoff: int, maxRecycle: int) {
    && c.tenantId == tenantId && c.status == Lead && c.ownerId != 0
    && c.assignedAt.Some? && c.assignedAt.value < cutoff
    && c.recycleCount < maxRecycle
  }

  /** The selection of `disqualify_overcycled_leads`. */
  predicate IsOvercycled(c: Customer, tenantId: int, maxRecycle: int) {
    c.tenantId == tenantId && c.status == Lead && c.recycleCount >= maxRecycle
  }

  function Released(c: Customer, e: Entry): Customer {
    c.(ownerId := 0, assignedAt := None, recycleCount := c.recycleCount + 1, history := c.history + [e])
  }

  function Release(at: int): Customer -> Customer { (c: Customer) => StaleReleased(c, at) }
  function BulkRelease(at: int): Customer -> Customer { (c: Customer) => BulkReleased(c, at) }
  function MarkDisqualified(): Customer -> Customer { (c: Customer) => c.(status := Disqualified) }

  function StaleReleased(c: Customer, at: int): Customer {
    Released(c, Entry(at, c.ownerId, "stale_no_response"))
  }

  function Recycled(c: Customer, tenantId: int, cutoff: int, at: int, maxRecycle: int): Customer {
    if IsStale(c, tenantId, cutoff, maxRecycle) then StaleReleased(c, at) else c
  }

  function DisqualifiedRow(c: Customer, tenantId: int, maxRecycle: int): Customer {
    if IsOvercycled(c, tenantId, maxRecycle) then c.(status := Disqualified) else c
  }

  /** `bulk_recycle` reloads the row before it writes the entry, so the entry
      names owner 0, not the owner the lead was taken from. */
  predicate InBulk(c: Customer, ids: seq<int>, tenantId: int) {
    c.tenantId == tenantId && c.id in ids && c.status == Lead && c.ownerId != 0
  }

  function BulkReleased(c: Customer, at: int): Customer {
    Released(c, Entry(at, 0, "manual_bulk_recycle"))
  }

  function Reassigned(c: Customer, newOwner: int, at: int, reason: Option<string>): Customer {
    c.(ownerId := newOwner, assignedAt := Some(at), recycleCount := c.recycleCount + 1,
       history := c.history + [Entry(at, c.ownerId,
                                     if reason.Some? && reason.value != "" then reason.value else "manual_reassign")])
  }

  /** A writer's call. `Edit` stands for the writers of status, owner and
      assignment time that leave the recycle columns alone, automatic
      assignment among them. */
  datatype Op =
    | Edit(id: int, tenantId: int, status: Status, owner: int, assignedAt: Option<int>)
    | RecycleStale(tenantId: int, cutoff: int, at: int, maxRecycle: int)
    | Disqualify(tenantId: int, maxRecycle: int)
    | Reassign(id: int, tenantId: int, newOwner: int, at: int, reason: Option<string>)
    | BulkRecycle(ids: seq<int>, tenantId: int, at: int)

  function RowAfter(op: Op, c: Customer): Customer {
    match op
    case Edit(id, t, status, owner, assignedAt) =>
      if IsRow(c, id, t) then c.(status := status, ownerId := owner, assignedAt := assignedAt) else c
    case RecycleStale(t, cutoff, at, maxRecycle) => Recycled(c, t, cutoff, at, maxRecycle)
    case Disqualify(t, maxRecycle) => DisqualifiedRow(c, t, maxRecycle)
    case Reassign(id, t, newOwner, at, reason) => if IsRow(c, id, t) then Reassigned(c, newOwner, at, reason) else c
    case BulkRecycle(ids, t, at) => if InBulk(c, ids, t) then BulkReleased(c, at) else c
  }

  function After(op: Op, cs: seq<Customer>): (r: seq<Customer>)
    ensures |r| == |cs| && forall i :: 0 <= i < |cs| ==> r[i] == RowAfter(op, cs[i])
  {
    seq(|cs|, i requires 0 <= i < |cs| => RowAfter(op, cs[i]))
  }

  /** What happens to the table: a writer's call, or a row created or deleted. */
  datatype Event = Call(op: Op) | AddRow(row: Customer) | DeleteRow(id: int, tenantId: int)

  function OtherRows(id: int, tenantId: int): Customer -> bool { (c: Customer) => !IsRow(c, id, tenantId) }

  function Apply(e: Event, cs: seq<Customer>): seq<Customer> {
    match e
    case Call(op) => After(op, cs)
    case AddRow(row) => cs + [row]
    case DeleteRow(id, tenantId) => Filter(cs, OtherRows(id, tenantId))
  }

  function Run(es: seq<Event>, cs: seq<Customer>): seq<Customer>
    decreases |es|
  {
    if es == [] then cs else Run(es[1..], Apply(es[0], cs))
  }

  function StaleIn(tenantId: int, cutoff: int, maxRecycle: int): Customer -> bool {
    (c: Customer) => IsStale(c, tenantId, cutoff, maxRecycle)
  }

  function OvercycledIn(tenantId: int, maxRecycle: int): Customer -> bool {
    (c: Customer) => IsOvercycled(c, tenantId, maxRecycle)
  }

  /** The rows one call recycles for staleness. */
  function StaleRows(cs: seq<Customer>, tenantId: int, cutoff: int, maxRecycle: int): (r: seq<Customer>)
    ensures forall c :: c in r <==> c in cs && IsStale(c, tenantId, cutoff, maxRecycle)
  {
    Filter(cs, StaleIn(tenantId, cutoff, maxRecycle))
  }

  function OvercycledRows(cs: seq<Customer>, tenantId: int, maxRecycle: int): (r: seq<Customer>)
    ensures forall c :: c in r <==> c in cs && IsOvercycled(c, tenantId, maxRecycle)
  {
    Filter(cs, OvercycledIn(tenantId, maxRecycle))
  }

  function Ids(cs: seq<Customer>): (r: seq<int>)
    ensures |r| == |cs| && forall i :: 0 <= i < |cs| ==> r[i] == cs[i].id
  {
    seq(|cs|, i requires 0 <= i < |cs| => cs[i].id)
  }

  // ---------------------------------------------------------------------------
  // The row each writer leaves
  // ---------------------------------------------------------------------------

  /** A stale recycle: an owned lead of the tenant, assigned before the cutoff
      and below the limit, loses its owner and gains one entry that names him. */
  lemma StaleRecycleWrites(c: Customer, tenantId: int, cutoff: int, at: int, limit: int)
    ensures RowAfter(RecycleStale(tenantId, cutoff, at, limit), c) ==
              if c.tenantId == tenantId && c.status == Lead && c.ownerId != 0 && c.recycleCount < limit
                 && c.assignedAt.Some? && c.assignedAt.value < cutoff
              then Customer(c.id, c.tenantId, c.status, 0, None, c.recycleCount + 1,
                            c.history + [Entry(at, c.ownerId, "stale_no_response")], c.company, c.createdAt)
              else c
  {
  }

  /** A disqualification: a lead at or over the limit changes status and nothing else. */
  lemma DisqualifyWrites(c: Customer, tenantId: int, limit: int)
    ensures RowAfter(Disqualify(tenantId, limit), c) ==
              if c.tenantId == tenantId && c.status == Lead && c.recycleCount >= limit
              then Customer(c.id, c.tenantId, Disqualified, c.ownerId, c.assignedAt, c.recycleCount, c.history,
                            c.company, c.createdAt)
              else c
  {
  }

  /** A reassignment: the row has the new owner from now, one more recycle, and
      one more entry that names the old owner and the reason given, if any. */
  lemma ReassignWrites(c: Customer, id: int, tenantId: int, newOwner: int, at: int, reason: Option<string>)
    ensures RowAfter(Reassign(id, tenantId, newOwner, at, reason), c) ==
              if c.id == id && c.tenantId == tenantId
              then Customer(c.id, c.tenantId, c.status, newOwner, Some(at), c.recycleCount + 1,
                            c.history + [Entry(at, c.ownerId, ReasonOr(reason, "manual_reassign"))],
                            c.company, c.createdAt)
              else c
  {
  }

  /** A reason that is missing or empty is replaced. */
  function ReasonOr(reason: Option<string>, default: string): string {
    match reason
    case None => default
    case Some(text) => if |text| == 0 then default else text
  }

  /** A bulk recycle: the listed owned leads lose their owner; the entry names nobody. */
  lemma BulkRecycleWrites(c: Customer, ids: seq<int>, tenantId: int, at: int)
    ensures RowAfter(BulkRecycle(ids, tenantId, at), c) ==
              if c.tenantId == tenantId && c.status == Lead && c.ownerId != 0 && c.id in ids
              then Customer(c.id, c.tenantId, c.status, 0, None, c.recycleCount + 1,
                            c.history + [Entry(at, 0, "manual_bulk_recycle")], c.company, c.createdAt)
              else c
  {
  }

  // ---------------------------------------------------------------------------
  // History over runs
  // ---------------------------------------------------------------------------

  /** A later version of a row: the same identity, no history entry lost or
      rewritten, and recycle_count moved exactly with the history's length. */
  ghost predicate Continues(c: Customer, c': Customer) {
    && c'.id == c.id && c'.tenantId == c.tenantId
    && c.history <= c'.history
    && c'.recycleCount - c.recycleCount == |c'.history| - |c.history|
  }

  lemma CallContinues(op: Op, c: Customer)
    ensures Continues(c, RowAfter(op, c))
  {
  }

  /** Every row after an event continues a row from before it, or was just added. */
  lemma ApplyContinues(e: Event, cs: seq<Customer>, r: Customer) returns (c: Customer)
    requires r in Apply(e, cs)
    ensures Continues(c, r) && (c in cs || e == AddRow(c))
  {
    if e.Call? {
      var i :| 0 <= i < |cs| && r == RowAfter(e.op, cs[i]);
      c := cs[i];
      CallContinues(e.op, c);
    } else {
      c := r;
    }
  }

  /** Over any run every row at the end continues a row of the start or one
      added on the way; so its recycle_count equals its history's length if and
      only if that row's did. */
  lemma {:induction false} HistoryOnlyGrows(es: seq<Event>, cs: seq<Customer>, r: Customer) returns (c: Customer)
    requires r in Run(es, cs)
    ensures c in cs || AddRow(c) in es
    ensures Continues(c, r)
    ensures r.recycleCount == |r.history| <==> c.recycleCount == |c.history|
    decreases |es|
  {
    if es == [] {
      c := r;
    } else {
      var next := HistoryOnlyGrows(es[1..], Apply(es[0], cs), r);
      if next in Apply(es[0], cs) {
        c := ApplyContinues(es[0], cs, next);
      } else {
        c := next;
      }
    }
  }

  /** Over any run every row that is not deleted is still there, continued. */
  lemma {:induction false} RowsLiveOn(es: seq<Event>, cs: seq<Customer>, c: Customer) returns (r: Customer)
    requires c in cs && DeleteRow(c.id, c.tenantId) !in es
    ensures r in Run(es, cs) && Continues(c, r)
    decreases |es|
  {
    if es == [] {
      r := c;
    } else {
      var next := c;
      if es[0].Call? {
        var i :| 0 <= i < |cs| && cs[i] == c;
        next := RowAfter(es[0].op, c);
        CallContinues(es[0].op, c);
        assert Apply(es[0], cs)[i] == next;
      } else if es[0].DeleteRow? {
        assert OtherRows(es[0].id, es[0].tenantId)(c);
      }
      assert next in Apply(es[0], cs);
      r := RowsLiveOn(es[1..], Apply(es[0], cs), next);
    }
  }

  /** A call that adds a history entry records the owner the lead had before
      the call, unless the call is a bulk recycle, which never does. */
  lemma EntryNamesOwnerExactlyWhenNotBulk(op: Op, c: Customer)
    requires RowAfter(op, c).history != c.history
    ensures |RowAfter(op, c).history| == |c.history| + 1
    ensures RowAfter(op, c).history[|c.history|].previousOwnerId == c.ownerId <==> !op.BulkRecycle?
  {
  }

  /** A bulk recycle of a lead of user 7 leaves an entry that names user 0. */
  lemma BulkRecycleNamesNobody(c: Customer, at: int)
    requires c.status == Lead && c.ownerId == 7
    ensures After(BulkRecycle([c.id], c.tenantId, at), [c])
         == [c.(ownerId := 0, assignedAt := None, recycleCount := c.recycleCount + 1,
                history := c.history + [Entry(at, 0, "manual_bulk_recycle")])]
  {
  }

  /** How many more times the row could be recycled for staleness. */
  function Room(c: Customer, limit: int): nat { Max(0, limit - c.recycleCount) }

  function Budget(cs: seq<Customer>, limit: int): nat {
    if cs == [] then 0 else Room(cs[0], limit) + Budget(cs[1..], limit)
  }

  function StaleCount(op: Op, cs: seq<Customer>): nat {
    if op.RecycleStale? then |StaleRows(cs, op.tenantId, op.cutoff, op.maxRecycle)| else 0
  }

  /** All stale recycles of a run. */
  function StaleTotal(es: seq<Event>, cs: seq<Customer>): nat
    decreases |es|
  {
    if es == [] then 0
    else (if es[0].Call? then StaleCount(es[0].op, cs) else 0) + StaleTotal(es[1..], Apply(es[0], cs))
  }

  /** The room of the rows a run adds. */
  function AddedRoom(es: seq<Event>, limit: int): nat {
    if es == [] then 0 else (if es[0].AddRow? then Room(es[0].row, limit) else 0) + AddedRoom(es[1..], limit)
  }

  /** Every stale recycle of a call is paid for out of the budget, and no call refills it. */
  lemma {:induction false} StaleRecyclesSpendBudget(op: Op, cs: seq<Customer>, limit: int)
    requires op.RecycleStale? ==> op.maxRecycle <= limit
    ensures StaleCount(op, cs) + Budget(After(op, cs), limit) <= Budget(cs, limit)
  {
    if cs != [] {
      StaleRecyclesSpendBudget(op, cs[1..], limit);
      assert After(op, cs)[1..] == After(op, cs[1..]);
    }
  }

  lemma {:induction false} BudgetAppend(cs: seq<Customer>, c: Customer, limit: int)
    ensures Budget(cs + [c], limit) == Budget(cs, limit) + Room(c, limit)
  {
    if cs == [] {
      assert cs + [c] == [c];
    } else {
      BudgetAppend(cs[1..], c, limit);
      assert (cs + [c])[1..] == cs[1..] + [c];
    }
  }

  lemma {:induction false} BudgetFilter(cs: seq<Customer>, keep: Customer -> bool, limit: int)
    ensures Budget(Filter(cs, keep), limit) <= Budget(cs, limit)
  {
    if cs != [] {
      BudgetFilter(cs[1..], keep, limit);
    }
  }

  /** Bounded lifecycle: over any run the stale recycles number at most the sum
      of max(0, limit - recycle_count) over the rows of the start and those added. */
  lemma {:induction false} StaleRecyclesBounded(es: seq<Event>, cs: seq<Customer>, limit: int)
    requires forall e :: e in es && e.Call? && e.op.RecycleStale? ==> e.op.maxRecycle <= limit
    ensures StaleTotal(es, cs) + Budget(Run(es, cs), limit) <= Budget(cs, limit) + AddedRoom(es, limit)
    decreases |es|
  {
    if es != [] {
      match es[0] {
        case Call(op) => StaleRecyclesSpendBudget(op, cs, limit);
        case AddRow(row) => BudgetAppend(cs, row, limit);
        case DeleteRow(id, tenantId) => BudgetFilter(cs, OtherRows(id, tenantId), limit);
      }
      StaleRecyclesBounded(es[1..], Apply(es[0], cs), limit);
    }
  }

  // ---------------------------------------------------------------------------
  // The background job
  // ---------------------------------------------------------------------------

  /** A row after the job: recycled if stale, then disqualified if over-cycled. */
  function JobRow(c: Customer, tenants: set<int>, cutoff: int, at: int, maxRecycle: int): Customer {
    if c.tenantId in tenants
    then DisqualifiedRow(Recycled(c, c.tenantId, cutoff, at, maxRecycle), c.tenantId, maxRecycle)
    else c
  }

  function JobRows(cs: seq<Customer>, tenants: set<int>, cutoff: int, at: int, maxRecycle: int): (r: seq<Customer>)
    ensures |r| == |cs| && forall i :: 0 <= i < |cs| ==> r[i] == JobRow(cs[i], tenants, cutoff, at, maxRecycle)
  {
    seq(|cs|, i requires 0 <= i < |cs| => JobRow(cs[i], tenants, cutoff, at, maxRecycle))
  }

  /** After the job every remaining lead of the tenants is below the limit and
      not waiting on a stale owner; rows of other tenants are untouched; a lead
      is recycled exactly when it is owned, stale and below the limit, and
      disqualified exactly when it had reached the limit or has just now. */
  lemma JobLeavesCleanState(c: Customer, tenants: set<int>, cutoff: int, at: int, maxRecycle: int)
    ensures var r := JobRow(c, tenants, cutoff, at, maxRecycle);
            var stale := c.ownerId != 0 && c.assignedAt.Some? && c.assignedAt.value < cutoff;
            var mine := c.tenantId in tenants && c.status == Lead;
            && (c.tenantId !in tenants ==> r == c)
            && (c.tenantId in tenants && r.status == Lead ==>
                  && r.recycleCount < maxRecycle
                  && (r.ownerId == 0 || r.assignedAt.None? || r.assignedAt.value >= cutoff))
            && (r.history != c.history <==> mine && stale && c.recycleCount < maxRecycle)
            && (r.history != c.history ==> r.ownerId == 0 && r.assignedAt.None? && r.recycleCount == c.recycleCount + 1)
            && (r.history == c.history ==> r.ownerId == c.ownerId && r.assignedAt == c.assignedAt)
            && (r.status != c.status <==>
                  mine && (c.recycleCount >= maxRecycle || (stale && c.recycleCount + 1 == maxRecycle)))
  {
    assert |c.history + [Entry(at, c.ownerId, "stale_no_response")]| == |c.history| + 1;
  }

  lemma NothingToSelect(cs: seq<Customer>, t: int, cutoff: int, maxRecycle: int)
    requires forall c :: c in cs ==> !IsStale(c, t, cutoff, maxRecycle) && !IsOvercycled(c, t, maxRecycle)
    ensures StaleRows(cs, t, cutoff, maxRecycle) == [] && OvercycledRows(cs, t, maxRecycle) == []
  {
    FilterNone(cs, StaleIn(t, cutoff, maxRecycle));
    FilterNone(cs, OvercycledIn(t, maxRecycle));
  }

  /** A second job at the same cutoff changes no row and selects nothing. */
  lemma JobIsIdempotent(cs: seq<Customer>, tenants: set<int>, cutoff: int, at: int, again: int, maxRecycle: int)
    ensures var once := JobRows(cs, tenants, cutoff, at, maxRecycle);
            && JobRows(once, tenants, cutoff, again, maxRecycle) == once
            && forall t :: t in tenants ==>
                 && StaleRows(once, t, cutoff, maxRecycle) == []
                 && OvercycledRows(once, t, maxRecycle) == []
  {
    var once := JobRows(cs, tenants, cutoff, at, maxRecycle);
    forall i | 0 <= i < |once|
      ensures JobRow(once[i], tenants, cutoff, again, maxRecycle) == once[i]
      ensures once[i].tenantId in tenants ==> !IsStale(once[i], once[i].tenantId, cutoff, maxRecycle)
                                              && !IsOvercycled(once[i], once[i].tenantId, maxRecycle)
    {
      JobLeavesCleanState(cs[i], tenants, cutoff, at, maxRecycle);
    }
    forall t | t in tenants
      ensures StaleRows(once, t, cutoff, maxRecycle) == [] && OvercycledRows(once, t, maxRecycle) == []
    {
      NothingToSelect(once, t, cutoff, maxRecycle);
    }
  }

  datatype Notice = Notice(userId: int, customerId: int, tenantId: int)

  /** Whom the job owes a notice for the leads it takes: their owners. */
  function Notices(leads: seq<Customer>): (r: seq<Notice>)
    ensures |r| == |leads|
    ensures forall i :: 0 <= i < |leads| ==> r[i] == Notice(leads[i].ownerId, leads[i].id, leads[i].tenantId)
  {
    seq(|leads|, i requires 0 <= i < |leads| => Notice(leads[i].ownerId, leads[i].id, leads[i].tenantId))
  }

  lemma NoticesSnoc(leads: seq<Customer>, k: nat)
    requires k < |leads|
    ensures Notices(leads[..k + 1])
         == Notices(leads[..k]) + [Notice(leads[k].ownerId, leads[k].id, leads[k].tenantId)]
  {
  }

  function SetOf(ids: seq<int>): (r: set<int>)
    ensures forall t :: t in r <==> t in ids
  {
    set t | t in ids
  }

  /** The notices of the tenants in turn, all owed for the table as it stood before the job. */
  function AllNotices(tenantIds: seq<int>, cs: seq<Customer>, cutoff: int, maxRecycle: int): seq<Notice> {
    if tenantIds == [] then []
    else
      var n := |tenantIds| - 1;
      AllNotices(tenantIds[..n], cs, cutoff, maxRecycle) + Notices(StaleRows(cs, tenantIds[n], cutoff, maxRecycle))
  }

  /** Rows of a tenant that leave the status lead in the job. */
  function Ending(cs: seq<Customer>, tenantId: int, cutoff: int, maxRecycle: int): nat {
    if cs == [] then 0
    else
      var c := cs[0];
      var ends := c.tenantId == tenantId && c.status == Lead
                  && (c.recycleCount >= maxRecycle
                      || (IsStale(c, tenantId, cutoff, maxRecycle) && c.recycleCount + 1 == maxRecycle));
      Ending(cs[1..], tenantId, cutoff, maxRecycle) + if ends then 1 else 0
  }

  function DisqualifiedTotal(tenantIds: seq<int>, cs: seq<Customer>, cutoff: int, maxRecycle: int): nat {
    if tenantIds == [] then 0
    else
      var n := |tenantIds| - 1;
      DisqualifiedTotal(tenantIds[..n], cs, cutoff, maxRecycle) + Ending(cs, tenantIds[n], cutoff, maxRecycle)
  }

  /** The rows of a tenant whose turn has not come are as they were. */
  lemma {:induction false} JobLeavesOthersToSelect(cs: seq<Customer>, done: set<int>, cutoff: int, at: int,
                                                   maxRecycle: int, t: int)
    requires t !in done
    ensures StaleRows(JobRows(cs, done, cutoff, at, maxRecycle), t, cutoff, maxRecycle)
         == StaleRows(cs, t, cutoff, maxRecycle)
  {
    if cs != [] {
      JobLeavesOthersToSelect(cs[1..], done, cutoff, at, maxRecycle, t);
      assert JobRows(cs, done, cutoff, at, maxRecycle)[1..] == JobRows(cs[1..], done, cutoff, at, maxRecycle);
    }
  }

  /** A tenant's turn disqualifies the rows that end. */
  lemma {:induction false} JobEnds(cs: seq<Customer>, done: set<int>, cutoff: int, at: int, maxRecycle: int, t: int)
    requires t !in done
    ensures var now := JobRows(cs, done, cutoff, at, maxRecycle);
            |OvercycledRows(After(RecycleStale(t, cutoff, at, maxRecycle), now), t, maxRecycle)|
            == Ending(cs, t, cutoff, maxRecycle)
  {
    if cs != [] {
      JobEnds(cs[1..], done, cutoff, at, maxRecycle, t);
      var now := JobRows(cs, done, cutoff, at, maxRecycle);
      assert now[1..] == JobRows(cs[1..], done, cutoff, at, maxRecycle);
      var op := RecycleStale(t, cutoff, at, maxRecycle);
      assert After(op, now)[1..] == After(op, now[1..]);
    }
  }

  lemma JobOneTenantMore(cs: seq<Customer>, done: set<int>, t: int, cutoff: int, at: int, maxRecycle: int)
    requires t !in done
    ensures JobRows(cs, done + {t}, cutoff, at, maxRecycle)
         == After(Disqualify(t, maxRecycle),
                  After(RecycleStale(t, cutoff, at, maxRecycle), JobRows(cs, done, cutoff, at, maxRecycle)))
  {
  }

  lemma AllNoticesSnoc(ids: seq<int>, k: nat, cs: seq<Customer>, cutoff: int, maxRecycle: int)
    requires k < |ids|
    ensures AllNotices(ids[..k + 1], cs, cutoff, maxRecycle)
         == AllNotices(ids[..k], cs, cutoff, maxRecycle) + Notices(StaleRows(cs, ids[k], cutoff, maxRecycle))
    ensures DisqualifiedTotal(ids[..k + 1], cs, cutoff, maxRecycle)
         == DisqualifiedTotal(ids[..k], cs, cutoff, maxRecycle) + Ending(cs, ids[k], cutoff, maxRecycle)
  {
    assert ids[..k + 1][..k] == ids[..k];
  }

  lemma JobKeepsIds(cs: seq<Customer>, done: set<int>, cutoff: int, at: int, maxRecycle: int)
    requires UniqueIds(cs)
    ensures UniqueIds(JobRows(cs, done, cutoff, at, maxRecycle))
  {
  }

  /** One tenant's turn advances each of the job's results by what that turn does. */
  lemma JobTurn(cs: seq<Customer>, ids: seq<int>, k: nat, cutoff: int, at: int, maxRecycle: int)
    requires UniqueIds(cs) && k < |ids| && ids[k] !in ids[..k]
    ensures var now := JobRows(cs, SetOf(ids[..k]), cutoff, at, maxRecycle);
            var between := After(RecycleStale(ids[k], cutoff, at, maxRecycle), now);
            && UniqueIds(now)
            && JobRows(cs, SetOf(ids[..k + 1]), cutoff, at, maxRecycle) == After(Disqualify(ids[k], maxRecycle), between)
            && AllNotices(ids[..k + 1], cs, cutoff, maxRecycle)
               == AllNotices(ids[..k], cs, cutoff, maxRecycle) + Notices(StaleRows(now, ids[k], cutoff, maxRecycle))
            && DisqualifiedTotal(ids[..k + 1], cs, cutoff, maxRecycle)
               == DisqualifiedTotal(ids[..k], cs, cutoff, maxRecycle) + |OvercycledRows(between, ids[k], maxRecycle)|
  {
    var done := SetOf(ids[..k]);
    JobKeepsIds(cs, done, cutoff, at, maxRecycle);
    AllNoticesSnoc(ids, k, cs, cutoff, maxRecycle);
    JobLeavesOthersToSelect(cs, done, cutoff, at, maxRecycle, ids[k]);
    JobEnds(cs, done, cutoff, at, maxRecycle, ids[k]);
    JobOneTenantMore(cs, done, ids[k], cutoff, at, maxRecycle);
    assert SetOf(ids[..k + 1]) == done + {ids[k]} by {
      assert ids[..k + 1] == ids[..k] + [ids[k]];
    }
  }

  /** After the recycling, the row found under a recycled id is the recycled row. */
  lemma RecycledRowFound(cs: seq<Customer>, tenantId: int, cutoff: int, at: int, maxRecycle: int, c: Customer)
    requires UniqueIds(cs) && c in cs && IsStale(c, tenantId, cutoff, maxRecycle)
    ensures Find(After(RecycleStale(tenantId, cutoff, at, maxRecycle), cs), c.id, tenantId)
         == Some(StaleReleased(c, at))
  {
    var after := After(RecycleStale(tenantId, cutoff, at, maxRecycle), cs);
    var k :| 0 <= k < |cs| && cs[k] == c;
    assert after[k] in after;
    var found := Find(after, c.id, tenantId).value;
    var j :| 0 <= j < |after| && after[j] == found;
    assert cs[j].id == cs[k].id;
  }

  // ---------------------------------------------------------------------------
  // The job's report
  // ---------------------------------------------------------------------------

  ghost predicate DistinctIds(ids: seq<int>) { forall i, j :: 0 <= i < j < |ids| ==> ids[i] != ids[j] }

  /** The job gives notice to exactly the owners it takes leads from. */
  lemma {:induction false} NoticesOfJob(ids: seq<int>, cs: seq<Customer>, cutoff: int, maxRecycle: int, n: Notice)
    ensures n in AllNotices(ids, cs, cutoff, maxRecycle) <==>
              exists c :: c in cs && c.tenantId in ids && IsStale(c, c.tenantId, cutoff, maxRecycle)
                          && n == Notice(c.ownerId, c.id, c.tenantId)
    decreases |ids|
  {
    if ids != [] {
      var last := |ids| - 1;
      NoticesOfJob(ids[..last], cs, cutoff, maxRecycle, n);
      NoticesMean(StaleRows(cs, ids[last], cutoff, maxRecycle), n);
      assert forall t :: t in ids <==> t in ids[..last] || t == ids[last];
    }
  }

  lemma NoticesMean(leads: seq<Customer>, n: Notice)
    ensures n in Notices(leads) <==> exists c :: c in leads && n == Notice(c.ownerId, c.id, c.tenantId)
  {
    if c :| c in leads && n == Notice(c.ownerId, c.id, c.tenantId) {
      var i :| 0 <= i < |leads| && leads[i] == c;
      assert Notices(leads)[i] == n;
    }
  }

  /** The places of the rows whose tenant is listed and that satisfy `p`. */
  ghost function PlacesIn(cs: seq<Customer>, ids: seq<int>, p: Customer -> bool): set<int> {
    set i | 0 <= i < |cs| && cs[i].tenantId in ids && p(cs[i])
  }

  function StaleAnywhere(cutoff: int, maxRecycle: int): Customer -> bool {
    (c: Customer) => IsStale(c, c.tenantId, cutoff, maxRecycle)
  }

  function EndsAnywhere(cutoff: int, maxRecycle: int): Customer -> bool {
    (c: Customer) =>
      c.status == Lead
      && (c.recycleCount >= maxRecycle || (IsStale(c, c.tenantId, cutoff, maxRecycle) && c.recycleCount + 1 == maxRecycle))
  }

  function InTenant(t: int, p: Customer -> bool): Customer -> bool { (c: Customer) => c.tenantId == t && p(c) }

  lemma PlacesSplit(cs: seq<Customer>, ids: seq<int>, p: Customer -> bool)
    requires ids != [] && DistinctIds(ids)
    ensures var last := |ids| - 1;
            |PlacesIn(cs, ids, p)| == |PlacesIn(cs, ids[..last], p)| + |Places(cs, InTenant(ids[last], p))|
  {
    var last := |ids| - 1;
    var before, now := PlacesIn(cs, ids[..last], p), Places(cs, InTenant(ids[last], p));
    assert forall t :: t in ids <==> t in ids[..last] || t == ids[last];
    assert ids[last] !in ids[..last];
    assert PlacesIn(cs, ids, p) == before + now && before !! now;
  }

  lemma {:induction false} EndingIsFilter(cs: seq<Customer>, t: int, cutoff: int, maxRecycle: int)
    ensures Ending(cs, t, cutoff, maxRecycle) == |Filter(cs, InTenant(t, EndsAnywhere(cutoff, maxRecycle)))|
  {
    if cs != [] { EndingIsFilter(cs[1..], t, cutoff, maxRecycle); }
  }

  lemma {:induction false} CountsOfJob(ids: seq<int>, cs: seq<Customer>, cutoff: int, maxRecycle: int)
    requires DistinctIds(ids)
    ensures |AllNotices(ids, cs, cutoff, maxRecycle)| == |PlacesIn(cs, ids, StaleAnywhere(cutoff, maxRecycle))|
    ensures DisqualifiedTotal(ids, cs, cutoff, maxRecycle) == |PlacesIn(cs, ids, EndsAnywhere(cutoff, maxRecycle))|
    decreases |ids|
  {
    if ids == [] {
      assert PlacesIn(cs, ids, StaleAnywhere(cutoff, maxRecycle)) == {} == PlacesIn(cs, ids, EndsAnywhere(cutoff, maxRecycle));
    } else {
      var last := |ids| - 1;
      var t, stale, ends := ids[last], StaleAnywhere(cutoff, maxRecycle), EndsAnywhere(cutoff, maxRecycle);
      CountsOfJob(ids[..last], cs, cutoff, maxRecycle);
      PlacesSplit(cs, ids, stale);
      PlacesSplit(cs, ids, ends);
      FilterSame(cs, StaleIn(t, cutoff, maxRecycle), InTenant(t, stale));
      FilterCounts(cs, InTenant(t, stale));
      EndingIsFilter(cs, t, cutoff, maxRecycle);
      FilterCounts(cs, InTenant(t, ends));
    }
  }

  /** The job's two counters are the numbers of rows it changed: those that
      gained a history entry, and those that changed status. */
  lemma ReportIsTrue(ids: seq<int>, cs: seq<Customer>, cutoff: int, at: int, maxRecycle: int)
    requires DistinctIds(ids)
    ensures var after := JobRows(cs, SetOf(ids), cutoff, at, maxRecycle);
            && |AllNotices(ids, cs, cutoff, maxRecycle)| == |set i | 0 <= i < |cs| && after[i].history != cs[i].history|
            && DisqualifiedTotal(ids, cs, cutoff, maxRecycle) == |set i | 0 <= i < |cs| && after[i].status != cs[i].status|
  {
    CountsOfJob(ids, cs, cutoff, maxRecycle);
    var after := JobRows(cs, SetOf(ids), cutoff, at, maxRecycle);
    forall i | 0 <= i < |cs|
      ensures after[i].history != cs[i].history <==> i in PlacesIn(cs, ids, StaleAnywhere(cutoff, maxRecycle))
      ensures after[i].status != cs[i].status <==> i in PlacesIn(cs, ids, EndsAnywhere(cutoff, maxRecycle))
    {
      JobLeavesCleanState(cs[i], SetOf(ids), cutoff, at, maxRecycle);
    }
    assert PlacesIn(cs, ids, StaleAnywhere(cutoff, maxRecycle)) == set i | 0 <= i < |cs| && after[i].history != cs[i].history;
    assert PlacesIn(cs, ids, EndsAnywhere(cutoff, maxRecycle)) == set i | 0 <= i < |cs| && after[i].status != cs[i].status;
  }
}
