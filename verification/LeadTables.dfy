/** The customer and user tables as sequences of rows, with SQL's select,
    update and count as functions on them. */
module LeadTables {
  import opened Prelude
  import opened LeadRules

  datatype Status = Lead | Disqualified | OtherStatus(name: string)

  datatype Entry = Entry(recycledAt: int, previousOwnerId: int, reason: string)

  datatype Customer = Customer(
    id: int,
    tenantId: int,
    status: Status,
    ownerId: int,
    assignedAt: Option<int>,
    recycleCount: int,
    history: seq<Entry>,
    company: Value,
    createdAt: int)

  datatype User = User(id: int, tenantId: int, active: bool, role: int)

  /** The primary key of the customer table. */
  ghost predicate UniqueIds(cs: seq<Customer>) {
    forall i, j :: 0 <= i < j < |cs| ==> cs[i].id != cs[j].id
  }

  predicate IsRow(c: Customer, id: int, tenantId: int) {
    c.id == id && c.tenantId == tenantId
  }

  /** `select ... where id and tenant_id`, `scalar_one_or_none`. */
  function Find(cs: seq<Customer>, id: int, tenantId: int): (r: Option<Customer>)
    ensures r.Some? ==> r.value in cs && IsRow(r.value, id, tenantId)
    ensures r.None? ==> forall c :: c in cs ==> !IsRow(c, id, tenantId)
  {
    if cs == [] then None
    else if IsRow(cs[0], id, tenantId) then Some(cs[0])
    else Find(cs[1..], id, tenantId)
  }

  /** `update ... where id and tenant_id`. */
  function Update(cs: seq<Customer>, id: int, tenantId: int, change: Customer -> Customer): (r: seq<Customer>)
    ensures |r| == |cs|
    ensures forall i :: 0 <= i < |cs| ==>
              r[i] == if IsRow(cs[i], id, tenantId) then change(cs[i]) else cs[i]
  {
    seq(|cs|, i requires 0 <= i < |cs| => if IsRow(cs[i], id, tenantId) then change(cs[i]) else cs[i])
  }

  /** An active lead of the owner: what `_round_robin_assignee` and
      `_get_load_balanced_assignee` count. */
  predicate IsLoad(c: Customer, tenantId: int, owner: int) {
    c.tenantId == tenantId && c.status == Lead && c.ownerId == owner
  }

  function Load(cs: seq<Customer>, tenantId: int, owner: int): (n: nat)
    ensures n > 0 ==> exists c :: c in cs && IsLoad(c, tenantId, owner)
  {
    if cs == [] then 0
    else
      var rest := Load(cs[1..], tenantId, owner);
      if IsLoad(cs[0], tenantId, owner) then
        assert cs[0] in cs;
        rest + 1
      else rest
  }

  lemma {:induction false} LoadAppend(cs: seq<Customer>, c: Customer, tenantId: int, owner: int)
    ensures Load(cs + [c], tenantId, owner)
         == Load(cs, tenantId, owner) + if IsLoad(c, tenantId, owner) then 1 else 0
  {
    if cs == [] {
      assert cs + [c] == [c];
    } else {
      LoadAppend(cs[1..], c, tenantId, owner);
      assert (cs + [c])[1..] == cs[1..] + [c];
    }
  }

  /** Replacing one row changes a count only by what that row contributes. */
  lemma {:induction false} LoadReplace(cs: seq<Customer>, k: nat, c: Customer, tenantId: int, owner: int)
    requires k < |cs|
    ensures Load(cs[k := c], tenantId, owner)
         == Load(cs, tenantId, owner)
          - (if IsLoad(cs[k], tenantId, owner) then 1 else 0)
          + (if IsLoad(c, tenantId, owner) then 1 else 0)
  {
    if k == 0 {
      assert cs[0 := c][1..] == cs[1..];
    } else {
      LoadReplace(cs[1..], k - 1, c, tenantId, owner);
      assert cs[k := c][1..] == cs[1..][k - 1 := c];
    }
  }

  /** `select ... where tenant_id and status = 'active'`. */
  function ActiveUsers(users: seq<User>, tenantId: int): (r: seq<User>)
    ensures forall u :: u in r <==> u in users && u.tenantId == tenantId && u.active
  {
    Filter(users, ActiveIn(tenantId))
  }

  function ActiveIn(tenantId: int): User -> bool { (u: User) => u.tenantId == tenantId && u.active }

  /** A selection never lists a row twice. */
  lemma SelectionUnique(cs: seq<Customer>, p: Customer -> bool)
    requires UniqueIds(cs)
    ensures UniqueIds(Filter(cs, p))
  {
    var rel := (c: Customer, c': Customer) => c.id != c'.id;
    FilterPairwise(cs, p, rel);
    assert Pairwise(Filter(cs, p), rel);
  }

  /** A single-row update, at the row's place. */
  lemma UpdateIsReplace(cs: seq<Customer>, k: nat, change: Customer -> Customer)
    requires UniqueIds(cs) && k < |cs|
    ensures Update(cs, cs[k].id, cs[k].tenantId, change) == cs[k := change(cs[k])]
  {
  }

  /** The table with the rows of `done` changed by `f`, the others as they were. */
  function Partly(cs: seq<Customer>, done: seq<Customer>, f: Customer -> Customer): (r: seq<Customer>)
    ensures |r| == |cs| && forall i :: 0 <= i < |cs| ==> r[i] == if cs[i] in done then f(cs[i]) else cs[i]
  {
    seq(|cs|, i requires 0 <= i < |cs| => if cs[i] in done then f(cs[i]) else cs[i])
  }

  /** One more single-row update of a loop over selected rows: it meets the row
      of its lead, still as selected, and no other. */
  lemma PartlyStep(cs: seq<Customer>, leads: seq<Customer>, k: nat, f: Customer -> Customer, change: Customer -> Customer)
    requires UniqueIds(cs) && UniqueIds(leads) && k < |leads| && forall c :: c in leads ==> c in cs
    requires forall c :: c in cs ==> f(c).id == c.id && f(c).tenantId == c.tenantId
    requires change(leads[k]) == f(leads[k])
    ensures leads[k] in Partly(cs, leads[..k], f) && UniqueIds(Partly(cs, leads[..k], f))
    ensures Update(Partly(cs, leads[..k], f), leads[k].id, leads[k].tenantId, change) == Partly(cs, leads[..k + 1], f)
  {
    var lead := leads[k];
    assert lead in leads;
    var place :| 0 <= place < |cs| && cs[place] == lead;
    assert lead !in leads[..k];
    var before, after := Partly(cs, leads[..k], f), Partly(cs, leads[..k + 1], f);
    assert before[place] == lead;
    assert leads[..k + 1] == leads[..k] + [lead];
    forall i | 0 <= i < |cs|
      ensures before[i].id == cs[i].id && before[i].tenantId == cs[i].tenantId
      ensures i != place ==> after[i] == before[i]
    {
      assert cs[i] in cs;
    }
    assert after[place] == f(lead);
  }

  function LoadOf(tenantId: int, owner: int): Customer -> bool { (c: Customer) => IsLoad(c, tenantId, owner) }

  /** A load is the number of the tenant's rows in status lead that the user owns. */
  lemma LoadCounts(cs: seq<Customer>, tenantId: int, owner: int)
    ensures Load(cs, tenantId, owner)
         == |set i | 0 <= i < |cs| && cs[i].tenantId == tenantId && cs[i].status == Lead && cs[i].ownerId == owner|
  {
    LoadIsFilter(cs, tenantId, owner);
    FilterCounts(cs, LoadOf(tenantId, owner));
    assert Places(cs, LoadOf(tenantId, owner))
        == set i | 0 <= i < |cs| && cs[i].tenantId == tenantId && cs[i].status == Lead && cs[i].ownerId == owner;
  }

  lemma {:induction false} LoadIsFilter(cs: seq<Customer>, tenantId: int, owner: int)
    ensures Load(cs, tenantId, owner) == |Filter(cs, LoadOf(tenantId, owner))|
  {
    if cs != [] { LoadIsFilter(cs[1..], tenantId, owner); }
  }
}
