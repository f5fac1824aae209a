/** The two writers of the recycle history outside the routing service. */
module CustomerService {
  import opened Prelude
  import opened LeadTables
  import opened LeadLifecycle

  class CustomerService {
    var customers: seq<Customer>

    constructor (customers: seq<Customer>)
      ensures this.customers == customers
    {
      this.customers := customers;
    }

    /** `reassign_lead`; false where the repository raises NotFound. */
    method ReassignLead(customerId: int, newOwnerId: int, tenantId: int, at: int, reason: Option<string>)
      returns (ok: bool)
      requires UniqueIds(customers)
      modifies this
      ensures ok <==> exists c :: c in old(customers) && IsRow(c, customerId, tenantId)
      ensures customers == After(Reassign(customerId, tenantId, newOwnerId, at, reason), old(customers))
      ensures |customers| == |old(customers)|
      ensures forall i :: 0 <= i < |customers| ==>
                var c := old(customers)[i];
                customers[i] == if c.id == customerId && c.tenantId == tenantId
                                then c.(ownerId := newOwnerId, assignedAt := Some(at), recycleCount := c.recycleCount + 1,
                                        history := c.history + [Entry(at, c.ownerId, ReasonOr(reason, "manual_reassign"))])
                                else c
    {
      var found := Find(customers, customerId, tenantId);
      if found.None? {
        assert forall i :: 0 <= i < |customers| ==> customers[i] in customers;
        return false;
      }
      var customer := found.value;
      var e := Entry(at, customer.ownerId, if reason.None? || reason.value == "" then "manual_reassign" else reason.value);
      var history := customer.history + [e];
      var change := (c: Customer) => c.(ownerId := newOwnerId, assignedAt := Some(at),
                                        recycleCount := customer.recycleCount + 1, history := history);
      ghost var k :| 0 <= k < |customers| && customers[k] == customer;
      UpdateIsReplace(customers, k, change);
      ReassignIsReplace(customers, k, newOwnerId, at, reason);
      customers := Update(customers, customerId, tenantId, change);
      ok := true;
    }

    /** One turn of the `bulk_recycle` loop: an update, a reload of the row, and
        only then the history entry, built from the reloaded row. */
    method RecycleOne(lead: Customer, tenantId: int, at: int)
      requires UniqueIds(customers) && lead in customers && lead.tenantId == tenantId
      modifies this
      ensures customers == Update(old(customers), lead.id, tenantId, BulkRelease(at))
    {
      ghost var place :| 0 <= place < |customers| && customers[place] == lead;
      var release := (c: Customer) => c.(ownerId := 0, assignedAt := None, recycleCount := lead.recycleCount + 1);
      UpdateIsReplace(customers, place, BulkRelease(at));
      UpdateIsReplace(customers, place, release);
      customers := Update(customers, lead.id, tenantId, release);
      FindUnique(customers, place, tenantId);
      var reloaded := Find(customers, lead.id, tenantId).value;
      var history := reloaded.history + [Entry(at, reloaded.ownerId, "manual_bulk_recycle")];
      UpdateIsReplace(customers, place, (c: Customer) => c.(history := history));
      customers := Update(customers, lead.id, tenantId, (c: Customer) => c.(history := history));
    }

    /** `bulk_recycle`. */
    method BulkRecycleLeads(customerIds: seq<int>, tenantId: int, at: int) returns (recycled: seq<int>)
      requires UniqueIds(customers)
      modifies this
      ensures customers == After(BulkRecycle(customerIds, tenantId, at), old(customers))
      ensures recycled == Ids(BulkRows(old(customers), customerIds, tenantId))
    {
      ghost var was := customers;
      var leads := BulkRows(customers, customerIds, tenantId);
      SelectionUnique(customers, (c: Customer) => InBulk(c, customerIds, tenantId));
      recycled := [];
      assert customers == Partly(was, leads[..0], BulkRelease(at));
      for k := 0 to |leads|
        invariant recycled == Ids(leads[..k])
        invariant customers == Partly(was, leads[..k], BulkRelease(at))
      {
        var lead := leads[k];
        assert lead in leads;
        PartlyStep(was, leads, k, BulkRelease(at), BulkRelease(at));
        RecycleOne(lead, tenantId, at);
        recycled := recycled + [lead.id];
      }
      assert leads[..|leads|] == leads;
      assert customers == After(BulkRecycle(customerIds, tenantId, at), was);
    }
  }

  lemma ReassignIsReplace(cs: seq<Customer>, k: nat, newOwner: int, at: int, reason: Option<string>)
    requires UniqueIds(cs) && k < |cs|
    ensures After(Reassign(cs[k].id, cs[k].tenantId, newOwner, at, reason), cs)
         == cs[k := Reassigned(cs[k], newOwner, at, reason)]
  {
  }

  function BulkRows(cs: seq<Customer>, ids: seq<int>, tenantId: int): (r: seq<Customer>)
    ensures forall c :: c in r <==> c in cs && InBulk(c, ids, tenantId)
  {
    Filter(cs, (c: Customer) => InBulk(c, ids, tenantId))
  }

  lemma FindUnique(cs: seq<Customer>, k: nat, tenantId: int)
    requires UniqueIds(cs) && k < |cs| && cs[k].tenantId == tenantId
    ensures Find(cs, cs[k].id, tenantId) == Some(cs[k])
  {
    assert cs[k] in cs;
  }
}
