/** Routing rules: the condition evaluator and the choice of the rule. */
module LeadRules {
  import opened Prelude
  import opened Sorting

  datatype Operator = Equals | NotEquals | In | NotIn | Gt | Lt | Gte | Lte | Between

  datatype Field = Region | Industry | EmployeeCount | Source | CreatedDate | Company

  /** A condition or customer value. `Text` carries what Python's `float(text)`
      gives, or `None` where it raises `ValueError`. */
  datatype Value =
    | Null
    | Num(n: real)
    | Text(s: string, parsed: Option<real>)
    | Moment(at: int)
    | List(elements: seq<Value>)

  datatype Condition = Condition(field: Field, operator: Operator, value: Value)

  datatype AssigneeType = OneUser | Team | RoundRobin

  datatype Rule = Rule(
    id: int,
    tenantId: int,
    conditions: seq<Condition>,
    assigneeType: AssigneeType,
    assigneeId: Option<int>,
    priority: int,
    active: bool)

  type Record = map<Field, Value>

  /** `customer.get(field)`. */
  function Get(customer: Record, field: Field): Value {
    if field in customer then customer[field] else Null
  }

  /** `float(value)`: `None` where Python raises `TypeError` or `ValueError`. */
  function ToFloat(v: Value): Option<real> {
    match v
    case Num(n) => Some(n)
    case Text(_, parsed) => parsed
    case _ => None
  }

  /** One turn of the evaluator's loop: does the condition let the loop go on? */
  predicate Holds(op: Operator, actual: Value, wanted: Value) {
    match op
    case Equals => actual == wanted
    case NotEquals => actual != wanted
    case In => wanted.List? && actual in wanted.elements
    case NotIn => wanted.List? && actual !in wanted.elements
    case Between =>
      && wanted.List? && |wanted.elements| == 2
      && var a, lo, hi := ToFloat(actual), ToFloat(wanted.elements[0]), ToFloat(wanted.elements[1]);
      a.Some? && lo.Some? && hi.Some? && lo.value <= a.value <= hi.value
    case Gt => BothNumbers(actual, wanted) && !(ToFloat(actual).value <= ToFloat(wanted).value)
    case Lt => BothNumbers(actual, wanted) && !(ToFloat(actual).value >= ToFloat(wanted).value)
    case Gte => BothNumbers(actual, wanted) && !(ToFloat(actual).value < ToFloat(wanted).value)
    case Lte => BothNumbers(actual, wanted) && !(ToFloat(actual).value > ToFloat(wanted).value)
  }

  predicate BothNumbers(actual: Value, wanted: Value) {
    ToFloat(actual).Some? && ToFloat(wanted).Some?
  }

  /** The evaluator: every condition must hold. */
  predicate Evaluate(conditions: seq<Condition>, customer: Record)
    ensures Evaluate(conditions, customer) <==>
            forall c :: c in conditions ==> Holds(c.operator, Get(customer, c.field), c.value)
  {
    if conditions == [] then true
    else
      && Holds(conditions[0].operator, Get(customer, conditions[0].field), conditions[0].value)
      && Evaluate(conditions[1..], customer)
  }

  /** How the nine operators relate. The two membership operators are
      complements only for list values, the order operators only for numbers. */
  lemma OperatorLaws(a: Value, v: Value, lo: Value, hi: Value)
    ensures Holds(NotEquals, a, v) <==> !Holds(Equals, a, v)
    ensures (Holds(In, a, v) <==> !Holds(NotIn, a, v)) <==> v.List?
    ensures (Holds(Gt, a, v) <==> !Holds(Lte, a, v)) <==> ToFloat(a).Some? && ToFloat(v).Some?
    ensures (Holds(Lt, a, v) <==> !Holds(Gte, a, v)) <==> ToFloat(a).Some? && ToFloat(v).Some?
    ensures Holds(Between, a, List([lo, hi])) <==> Holds(Gte, a, lo) && Holds(Lte, a, hi)
  {
  }

  function ActiveFor(tenantId: int): Rule -> bool { (r: Rule) => r.tenantId == tenantId && r.active }

  function ByPriority(): Rule -> real { (r: Rule) => r.priority as real }

  /** `select ... where tenant_id and is_active order by priority desc`. The
      database may return equal priorities in any order: the table's own order
      is arbitrary, so the stable sort stands for all of them. */
  function ActiveByPriority(rules: seq<Rule>, tenantId: int): seq<Rule> {
    SortDesc(Filter(rules, ActiveFor(tenantId)), ByPriority())
  }

  /** `rule` stands at position `i` and is the first whose conditions hold. */
  ghost predicate IsFirstMatch(ordered: seq<Rule>, customer: Record, rule: Rule, i: int) {
    && 0 <= i < |ordered| && ordered[i] == rule
    && Evaluate(rule.conditions, customer)
    && forall j :: 0 <= j < i ==> !Evaluate(ordered[j].conditions, customer)
  }

  /** The loop of `get_matching_rule` over the ordered rules. */
  function FirstMatch(ordered: seq<Rule>, customer: Record): (r: Option<Rule>)
    ensures r.None? <==> forall x :: x in ordered ==> !Evaluate(x.conditions, customer)
    ensures r.Some? ==> exists i :: IsFirstMatch(ordered, customer, r.value, i)
  {
    if ordered == [] then None
    else if Evaluate(ordered[0].conditions, customer) then
      assert IsFirstMatch(ordered, customer, ordered[0], 0);
      Some(ordered[0])
    else
      var r := FirstMatch(ordered[1..], customer);
      assert r.Some? ==> exists i :: IsFirstMatch(ordered, customer, r.value, i) by {
        if r.Some? {
          var i :| IsFirstMatch(ordered[1..], customer, r.value, i);
          assert forall j :: 1 <= j < |ordered| ==> ordered[j] == ordered[1..][j - 1];
          assert IsFirstMatch(ordered, customer, r.value, i + 1);
        }
      }
      r
  }

  lemma FirstOfDescending(ordered: seq<Rule>, customer: Record, rule: Rule)
    requires Descending(ordered, ByPriority()) && FirstMatch(ordered, customer) == Some(rule)
    ensures forall x :: x in ordered && Evaluate(x.conditions, customer) ==> x.priority <= rule.priority
  {
    var i :| IsFirstMatch(ordered, customer, rule, i);
    forall x | x in ordered && Evaluate(x.conditions, customer) ensures x.priority <= rule.priority {
      var j :| 0 <= j < |ordered| && ordered[j] == x;
      assert ByPriority()(ordered[j]) <= ByPriority()(ordered[i]);
    }
  }

  lemma FirstMatchIsHighest(rules: seq<Rule>, tenantId: int, customer: Record, rule: Rule)
    requires FirstMatch(ActiveByPriority(rules, tenantId), customer) == Some(rule)
    ensures forall x :: x in ActiveByPriority(rules, tenantId) && Evaluate(x.conditions, customer)
                        ==> x.priority <= rule.priority
  {
    FirstOfDescending(ActiveByPriority(rules, tenantId), customer, rule);
  }

  /** The rule chosen is an active matching rule of the tenant, and no matching
      active rule of the tenant has a higher priority; none is returned exactly
      when none matches. */
  function MatchingRule(rules: seq<Rule>, tenantId: int, customer: Record): (r: Option<Rule>)
    ensures r.None? <==> forall x :: x in rules && x.tenantId == tenantId && x.active
                                     ==> !Evaluate(x.conditions, customer)
    ensures r.Some? ==>
              && r.value in rules && r.value.tenantId == tenantId && r.value.active
              && Evaluate(r.value.conditions, customer)
              && forall x :: (x in rules && x.tenantId == tenantId && x.active
                              && Evaluate(x.conditions, customer)) ==> x.priority <= r.value.priority
  {
    var ordered := ActiveByPriority(rules, tenantId);
    var r := FirstMatch(ordered, customer);
    assert r.Some? ==> forall x :: x in ordered && Evaluate(x.conditions, customer) ==> x.priority <= r.value.priority by {
      if r.Some? { FirstMatchIsHighest(rules, tenantId, customer, r.value); }
    }
    r
  }

  /** The record `auto_assign_lead` builds. The customer table has no region,
      industry, employee_count or source column, so those entries are null. */
  function AutoRecord(company: Value, createdAt: int): Record {
    map[
      Region := Null,
      Industry := Null,
      EmployeeCount := Null,
      Source := Null,
      CreatedDate := Moment(createdAt),
      Company := company]
  }

  /** A condition on a field the customer table lacks can only be met by saying
      what the value is not, or by asking for null. */
  predicate AcceptsNull(c: Condition) {
    match c.operator
    case Equals => c.value == Null
    case NotEquals => c.value != Null
    case In => c.value.List? && Null in c.value.elements
    case NotIn => c.value.List? && Null !in c.value.elements
    case _ => false
  }

  /** In `auto_assign_lead` a rule with a condition on region, industry,
      employee_count or source depends on that condition's own text alone:
      it matches only if every such condition accepts null, and an order
      condition on the creation date never holds. */
  lemma AutoRecordIgnoresMissingColumns(conditions: seq<Condition>, company: Value, createdAt: int)
    ensures Evaluate(conditions, AutoRecord(company, createdAt)) <==>
              forall c :: c in conditions ==>
                match c.field
                case Company => Holds(c.operator, company, c.value)
                case CreatedDate => c.operator in {Equals, NotEquals, In, NotIn} && Holds(c.operator, Moment(createdAt), c.value)
                case _ => AcceptsNull(c)
  {
    var r := AutoRecord(company, createdAt);
    forall c: Condition | c in conditions
      ensures Holds(c.operator, Get(r, c.field), c.value) <==>
                match c.field
                case Company => Holds(c.operator, company, c.value)
                case CreatedDate => c.operator in {Equals, NotEquals, In, NotIn} && Holds(c.operator, Moment(createdAt), c.value)
                case _ => AcceptsNull(c)
    {
    }
  }

  /** So a rule for a region matches the record a preview is given, but never a
      row of the table in automatic assignment. */
  lemma RegionRuleNeverAutoMatches(company: Value, createdAt: int)
    ensures var eu := Text("EU", None);
            var conditions := [Condition(Region, Equals, eu)];
            Evaluate(conditions, map[Region := eu]) && !Evaluate(conditions, AutoRecord(company, createdAt))
  {
    var eu := Text("EU", None);
    var conditions := [Condition(Region, Equals, eu)];
    assert conditions[0] in conditions;
    AutoRecordIgnoresMissingColumns(conditions, company, createdAt);
  }

  /** What the operators say of numbers, and of texts that read as numbers. */
  lemma OperatorsCompareNumbers(x: real, y: real, lo: real, hi: real, s: string)
    ensures Holds(Gt, Num(x), Num(y)) <==> x > y
    ensures Holds(Lt, Num(x), Num(y)) <==> x < y
    ensures Holds(Gte, Num(x), Num(y)) <==> x >= y
    ensures Holds(Lte, Num(x), Num(y)) <==> x <= y
    ensures Holds(Between, Num(x), List([Num(lo), Num(hi)])) <==> lo <= x <= hi
    ensures Holds(Gt, Text(s, Some(x)), Num(y)) <==> x > y
    ensures Holds(Lt, Num(y), Text(s, Some(x))) <==> y < x
  {
  }

  /** The order operators refuse whatever is not a number. */
  lemma OrderNeedsNumbers(op: Operator, v: Value, w: Value, s: string)
    requires op in {Gt, Lt, Gte, Lte, Between}
    ensures !Holds(op, Null, w) && !Holds(op, Text(s, None), w) && !Holds(op, Moment(0), w)
    ensures op != Between ==> !Holds(op, v, Null) && !Holds(op, v, Text(s, None)) && !Holds(op, v, List([w]))
    ensures op == Between ==> !Holds(op, v, w) || (w.List? && |w.elements| == 2)
  {
  }

  /** Equality and membership are those of the values, list or not. */
  lemma OperatorsCompareValues(a: Value, v: Value, vs: seq<Value>)
    ensures Holds(Equals, a, v) <==> a == v
    ensures Holds(In, a, List(vs)) <==> exists i :: 0 <= i < |vs| && vs[i] == a
    ensures Holds(NotIn, a, List(vs)) <==> forall i :: 0 <= i < |vs| ==> vs[i] != a
    ensures !v.List? ==> !Holds(In, a, v) && !Holds(NotIn, a, v)
  {
  }

  /** A field the record lacks reads as null. */
  lemma MissingFieldIsNull(c: Condition)
    ensures Evaluate([c], map[]) <==> AcceptsNull(c)
  {
    assert [c][1..] == [];
  }
}
