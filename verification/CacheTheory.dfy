/** What holds of the cache over whole traces of timed calls. */
module CacheTheory {
  import opened Prelude
  import opened Ordering
  import opened TLRUCache

  function Run<K(==,!new), V>(c: Cache<K, V>, ops: seq<Op<K, V>>, maxEntries: int): Cache<K, V>
    decreases |ops|
  {
    if ops == [] then c else Run(Step(c, ops[0], maxEntries), ops[1..], maxEntries)
  }

  /** What each call of the trace returned. */
  function Answers<K(==,!new), V>(c: Cache<K, V>, ops: seq<Op<K, V>>, maxEntries: int): (r: seq<Option<V>>)
    ensures |r| == |ops|
    decreases |ops|
  {
    if ops == [] then []
    else [Answer(c, ops[0])] + Answers(Step(c, ops[0], maxEntries), ops[1..], maxEntries)
  }

  lemma {:induction false} RunStaysWithinCap<K(!new), V>(c: Cache<K, V>, ops: seq<Op<K, V>>, maxEntries: int)
    requires WellFormed(c) && |c.order| <= Capacity(maxEntries)
    ensures WellFormed(Run(c, ops, maxEntries)) && |Run(c, ops, maxEntries).order| <= Capacity(maxEntries)
    decreases |ops|
  {
    if ops != [] {
      StepKeepsWellFormed(c, ops[0], maxEntries);
      RunStaysWithinCap(Step(c, ops[0], maxEntries), ops[1..], maxEntries);
    }
  }

  // ---------------------------------------------------------------------------
  // Capacity monotonicity
  // ---------------------------------------------------------------------------

  /** Every entry of the small cache is in the large one, with the same
      timestamp and value and in the same relative order. */
  ghost predicate Embedded<K(!new), V>(s: Cache<K, V>, l: Cache<K, V>) {
    && WellFormed(s) && WellFormed(l)
    && (forall k :: k in s.table ==> k in l.table && l.table[k] == s.table[k])
    && Restrict(l.order, s.table.Keys) == s.order
  }

  /** ... and the large cache is ahead by no more than its extra room. */
  ghost predicate Sim<K(!new), V>(s: Cache<K, V>, l: Cache<K, V>, m: int, n: int) {
    && Embedded(s, l)
    && |s.order| <= Capacity(m) && |l.order| <= Capacity(n)
    && |l.order| - |s.order| <= Capacity(n) - Capacity(m)
  }

  lemma DropBoth<K(!new), V>(s: Cache<K, V>, l: Cache<K, V>, k: K)
    requires Embedded(s, l)
    ensures Embedded(Drop(s, k), Drop(l, k))
  {
    DropWellFormed(s, k);
    DropWellFormed(l, k);
    RestrictWithout(l.order, k, s.table.Keys - {k});
    RestrictWithout(l.order, k, s.table.Keys);
    WithoutTwice(s.order, k);
    assert Drop(s, k).table.Keys == s.table.Keys - {k};
  }

  lemma {:induction false} WithoutTwice<K(!new)>(q: seq<K>, k: K)
    ensures Without(Without(q, k), k) == Without(q, k)
  {
    WithoutMembers(q, k);
    WithoutAbsent(Without(q, k), k);
  }

  lemma DropSmall<K(!new), V>(s: Cache<K, V>, l: Cache<K, V>, k: K)
    requires Embedded(s, l)
    ensures Embedded(Drop(s, k), l)
  {
    DropWellFormed(s, k);
    RestrictWithout(l.order, k, s.table.Keys);
    assert Drop(s, k).table.Keys == s.table.Keys - {k};
  }

  lemma DropLarge<K(!new), V>(s: Cache<K, V>, l: Cache<K, V>, k: K)
    requires Embedded(s, l) && k !in s.table
    ensures Embedded(s, Drop(l, k))
  {
    DropWellFormed(l, k);
    RestrictWithout(l.order, k, s.table.Keys);
    WithoutAbsent(s.order, k);
  }

  lemma TouchBoth<K(!new), V>(s: Cache<K, V>, l: Cache<K, V>, k: K)
    requires Embedded(s, l) && k in s.table
    ensures Embedded(s.(order := Touch(s.order, k)), l.(order := Touch(l.order, k)))
  {
    TouchWellFormed(s, k);
    TouchWellFormed(l, k);
    RestrictTouch(l.order, k, s.table.Keys);
    assert s.table.Keys + {k} == s.table.Keys;
  }

  lemma TouchLarge<K(!new), V>(s: Cache<K, V>, l: Cache<K, V>, k: K)
    requires Embedded(s, l) && k in l.table && k !in s.table
    ensures Embedded(s, l.(order := Touch(l.order, k)))
  {
    TouchWellFormed(l, k);
    RestrictAppend(Without(l.order, k), k, s.table.Keys);
    RestrictWithout(l.order, k, s.table.Keys);
    WithoutAbsent(s.order, k);
  }

  lemma InsertBoth<K(!new), V>(s: Cache<K, V>, l: Cache<K, V>, k: K, value: V, now: real)
    requires Embedded(s, l)
    ensures Embedded(Inserted(s, k, value, now), Inserted(l, k, value, now))
  {
    InsertedWellFormed(s, k, value, now);
    InsertedWellFormed(l, k, value, now);
    var s', l' := Inserted(s, k, value, now), Inserted(l, k, value, now);
    assert Restrict(l'.order, s'.table.Keys) == s'.order by {
      RestrictTouch(l.order, k, s.table.Keys);
      assert s'.table.Keys == s.table.Keys + {k};
    }
  }

  /** If the large cache's oldest key is in the small cache, it is the oldest there too. */
  lemma OldestAgree<K(!new), V>(s: Cache<K, V>, l: Cache<K, V>)
    requires Embedded(s, l) && l.order != [] && l.order[0] in s.table
    ensures s.order != [] && s.order[0] == l.order[0]
  {
  }

  lemma GetKeepsEmbedded<K(!new), V>(s: Cache<K, V>, l: Cache<K, V>, k: K, now: real)
    requires Embedded(s, l)
    ensures Embedded(AfterGet(s, k, now), AfterGet(l, k, now))
  {
    if !Hits(l, k, now) { DropBoth(s, l, k); }
    else if k in s.table { TouchBoth(s, l, k); }
    else {
      TouchLarge(s, l, k);
      DropWellFormed(s, k);
    }
  }

  lemma GetKeepsSim<K(!new), V>(s: Cache<K, V>, l: Cache<K, V>, k: K, now: real, m: int, n: int)
    requires Sim(s, l, m, n)
    ensures Sim(AfterGet(s, k, now), AfterGet(l, k, now), m, n)
  {
    GetKeepsEmbedded(s, l, k, now);
    AfterGetWellFormed(s, k, now);
    AfterGetWellFormed(l, k, now);
  }

  /** Evicting from both or only from the small cache keeps the embedding. */
  lemma EvictKeepsEmbedded<K(!new), V>(s: Cache<K, V>, l: Cache<K, V>)
    requires Embedded(s, l) && s.order != [] && l.order != []
    ensures Embedded(Drop(s, s.order[0]), l)
    ensures Embedded(Drop(s, s.order[0]), Drop(l, l.order[0]))
  {
    DropSmall(s, l, s.order[0]);
    if l.order[0] in s.table {
      OldestAgree(s, l);
      DropBoth(s, l, s.order[0]);
    } else {
      DropLarge(Drop(s, s.order[0]), l, l.order[0]);
    }
  }

  lemma SetKeepsSim<K(!new), V>(s: Cache<K, V>, l: Cache<K, V>, k: K, value: V, now: real, m: int, n: int)
    requires Sim(s, l, m, n) && m <= n
    ensures Sim(AfterSet(s, k, value, now, m), AfterSet(l, k, value, now, n), m, n)
  {
    AfterSetWellFormed(s, k, value, now, m);
    AfterSetWellFormed(l, k, value, now, n);
    InsertBoth(s, l, k, value, now);
    EvictKeepsEmbedded(Inserted(s, k, value, now), Inserted(l, k, value, now));
  }

  lemma PopKeepsSim<K(!new), V>(s: Cache<K, V>, l: Cache<K, V>, k: K, m: int, n: int)
    requires Sim(s, l, m, n)
    ensures Sim(Drop(s, k), Drop(l, k), m, n)
  {
    DropBoth(s, l, k);
    DropWellFormed(s, k);
    DropWellFormed(l, k);
  }

  lemma StepKeepsSim<K(!new), V>(s: Cache<K, V>, l: Cache<K, V>, op: Op<K, V>, m: int, n: int)
    requires Sim(s, l, m, n) && m <= n
    ensures Sim(Step(s, op, m), Step(l, op, n), m, n)
    ensures Answer(s, op).Some? ==> Answer(l, op) == Answer(s, op)
  {
    match op
    case Get(k, now) => GetKeepsSim(s, l, k, now, m, n);
    case Set(k, value, now) => SetKeepsSim(s, l, k, value, now, m, n);
    case Pop(k) => PopKeepsSim(s, l, k, m, n);
    case Clear =>
  }

  /** Capacity monotonicity: on the same timed trace, every hit of a cache is a
      hit, with the same value, of any cache with at least its room, and the
      entries they share carry the same timestamps. No assumption is made on
      the clock. */
  lemma {:induction false} LargerCacheHitsMore<K(!new), V>(s: Cache<K, V>, l: Cache<K, V>, ops: seq<Op<K, V>>, m: int, n: int)
    requires Sim(s, l, m, n) && m <= n
    ensures Sim(Run(s, ops, m), Run(l, ops, n), m, n)
    ensures forall i :: 0 <= i < |ops| ==>
              (Answers(s, ops, m)[i].Some? ==> Answers(l, ops, n)[i] == Answers(s, ops, m)[i])
    decreases |ops|
  {
    if ops != [] {
      StepKeepsSim(s, l, ops[0], m, n);
      LargerCacheHitsMore(Step(s, ops[0], m), Step(l, ops[0], n), ops[1..], m, n);
    }
  }

  lemma CapacityMonotone<K(!new), V>(ops: seq<Op<K, V>>, m: int, n: int)
    requires m <= n
    ensures var empty := Cache([], map[]);
            && (forall k :: k in Run(empty, ops, m).table ==>
                  k in Run(empty, ops, n).table && Run(empty, ops, n).table[k] == Run(empty, ops, m).table[k])
            && forall i :: 0 <= i < |ops| ==>
                 (Answers(empty, ops, m)[i].Some? ==> Answers(empty, ops, n)[i] == Answers(empty, ops, m)[i])
  {
    LargerCacheHitsMore<K, V>(Cache([], map[]), Cache([], map[]), ops, m, n);
  }

  // ---------------------------------------------------------------------------
  // Recency
  // ---------------------------------------------------------------------------

  /** The key a call sets or hits. */
  predicate Touches<K(==,!new), V>(c: Cache<K, V>, op: Op<K, V>) {
    op.Set? || (op.Get? && Hits(c, op.key, op.now))
  }

  /** The keys of a trace in the order of their last set or hit. */
  function LastTouched<K(==,!new), V>(recent: seq<K>, c: Cache<K, V>, ops: seq<Op<K, V>>, maxEntries: int): seq<K>
    decreases |ops|
  {
    if ops == [] then recent
    else LastTouched(if Touches(c, ops[0]) then Touch(recent, ops[0].key) else recent,
                     Step(c, ops[0], maxEntries), ops[1..], maxEntries)
  }

  lemma StepKeepsRecency<K(!new), V>(recent: seq<K>, c: Cache<K, V>, op: Op<K, V>, maxEntries: int)
    requires WellFormed(c) && Restrict(recent, c.table.Keys) == c.order
    ensures var recent' := if Touches(c, op) then Touch(recent, op.key) else recent;
            Restrict(recent', Step(c, op, maxEntries).table.Keys) == Step(c, op, maxEntries).order
  {
    match op
    case Get(k, now) =>
      if Hits(c, k, now) {
        RestrictTouch(recent, k, c.table.Keys);
        assert c.table.Keys + {k} == c.table.Keys;
      } else {
        RestrictWithout(recent, k, c.table.Keys);
        assert Drop(c, k).table.Keys == c.table.Keys - {k};
      }
    case Set(k, value, now) =>
      var c' := Inserted(c, k, value, now);
      RestrictTouch(recent, k, c.table.Keys);
      assert c'.table.Keys == c.table.Keys + {k};
      RestrictWithout(Touch(recent, k), c'.order[0], c'.table.Keys);
      assert Drop(c', c'.order[0]).table.Keys == c'.table.Keys - {c'.order[0]};
    case Pop(k) =>
      RestrictWithout(recent, k, c.table.Keys);
      assert Drop(c, k).table.Keys == c.table.Keys - {k};
    case Clear =>
      RestrictNothing(recent);
      assert Step(c, op, maxEntries).table.Keys == {};
  }

  lemma RestrictNothing<K(!new)>(q: seq<K>)
    ensures Restrict(q, {}) == []
  {
  }

  /** The cache's order is always the order of last set-or-hit of the keys it holds. */
  lemma {:induction false} OrderIsRecency<K(!new), V>(recent: seq<K>, c: Cache<K, V>, ops: seq<Op<K, V>>, maxEntries: int)
    requires WellFormed(c) && Restrict(recent, c.table.Keys) == c.order
    ensures var end := Run(c, ops, maxEntries);
            Restrict(LastTouched(recent, c, ops, maxEntries), end.table.Keys) == end.order
    decreases |ops|
  {
    if ops != [] {
      StepKeepsRecency(recent, c, ops[0], maxEntries);
      StepKeepsWellFormed(c, ops[0], maxEntries);
      OrderIsRecency(if Touches(c, ops[0]) then Touch(recent, ops[0].key) else recent,
                     Step(c, ops[0], maxEntries), ops[1..], maxEntries);
    }
  }

  /** The keys that became more recent than `k`. */
  function Younger<K(==,!new)>(order: seq<K>, k: K): set<K> {
    if order == [] then {}
    else if order[0] == k then set x | x in order[1..]
    else Younger(order[1..], k)
  }

  /** The other keys set or hit along a trace. */
  function TouchedOthers<K(==,!new), V>(c: Cache<K, V>, ops: seq<Op<K, V>>, maxEntries: int, k: K): set<K>
    decreases |ops|
  {
    if ops == [] then {}
    else TouchedOther(c, ops[0], k) + TouchedOthers(Step(c, ops[0], maxEntries), ops[1..], maxEntries, k)
  }

  /** Nothing in the trace removes `k` on purpose or by age, or sets it anew. */
  predicate LeavesAlone<K(==,!new), V>(c: Cache<K, V>, op: Op<K, V>, k: K) {
    match op
    case Get(x, now) => x == k ==> Hits(c, k, now)
    case Set(x, _, _) => x != k
    case Pop(x) => x != k
    case Clear => false
  }

  ghost predicate AllLeaveAlone<K(!new), V>(c: Cache<K, V>, ops: seq<Op<K, V>>, maxEntries: int, k: K)
    decreases |ops|
  {
    ops == [] || (LeavesAlone(c, ops[0], k) && AllLeaveAlone(Step(c, ops[0], maxEntries), ops[1..], maxEntries, k))
  }

  lemma {:induction false} YoungerWithout<K(!new)>(order: seq<K>, x: K, k: K)
    requires x != k
    ensures Younger(Without(order, x), k) <= Younger(order, k)
  {
    if order != [] {
      YoungerWithout(order[1..], x, k);
      WithoutMembers(order[1..], x);
    }
  }

  lemma {:induction false} YoungerAppend<K(!new)>(order: seq<K>, x: K, k: K)
    ensures Younger(order + [x], k) <= Younger(order, k) + {x}
    ensures k !in order ==> Younger(order + [k], k) == {}
  {
    if order == [] {
      assert order + [x] == [x];
    } else {
      YoungerAppend(order[1..], x, k);
      assert (order + [x])[1..] == order[1..] + [x];
      assert (order + [k])[1..] == order[1..] + [k];
    }
  }

  /** A key evicted by capacity has at least `maxEntries` younger keys. */
  lemma OldestHasAllYounger<K(!new)>(order: seq<K>)
    requires order != [] && Distinct(order)
    ensures |Younger(order, order[0])| == |order| - 1
  {
    DistinctCount(order[1..]);
  }

  lemma {:induction false} DistinctCount<K(!new)>(q: seq<K>)
    requires Distinct(q)
    ensures |set x | x in q| == |q|
  {
    if q != [] {
      DistinctCount(q[1..]);
      assert q[0] !in q[1..];
      assert (set x | x in q) == {q[0]} + (set x | x in q[1..]);
    }
  }

  lemma SetKeepsUncrowded<K(!new), V>(c: Cache<K, V>, x: K, value: V, now: real, maxEntries: int, k: K)
    requires WellFormed(c) && k in c.table && x != k
    requires |Younger(c.order, k) + {x}| < maxEntries
    ensures var c' := AfterSet(c, x, value, now, maxEntries);
            && k in c'.table && c'.table[k] == c.table[k]
            && Younger(c'.order, k) <= Younger(c.order, k) + {x}
  {
    var c' := Inserted(c, x, value, now);
    InsertedWellFormed(c, x, value, now);
    YoungerWithout(c.order, x, k);
    YoungerAppend(Without(c.order, x), x, k);
    if |c'.order| > maxEntries {
      if c'.order[0] == k {
        OldestHasAllYounger(c'.order);
        SubsetCount(Younger(c'.order, k), Younger(c.order, k) + {x});
        assert false;
      }
      YoungerWithout(c'.order, c'.order[0], k);
    }
  }

  lemma {:induction false} SubsetCount<T>(a: set<T>, b: set<T>)
    requires a <= b
    ensures |a| <= |b|
  {
    assert b == a + (b - a);
  }

  /** The other key an operation touches, if any. */
  function TouchedOther<K(==,!new), V>(c: Cache<K, V>, op: Op<K, V>, k: K): set<K> {
    if Touches(c, op) && op.key != k then {op.key} else {}
  }

  lemma TouchAddsYounger<K(!new)>(order: seq<K>, x: K, k: K)
    ensures x != k ==> Younger(Touch(order, x), k) <= Younger(order, k) + {x}
    ensures x == k ==> Younger(Touch(order, x), k) == {}
  {
    WithoutMembers(order, x);
    YoungerAppend(Without(order, x), x, k);
    if x != k { YoungerWithout(order, x, k); }
  }

  /** One operation that leaves `k` alone, with room to spare. */
  lemma StepKeepsUncrowded<K(!new), V>(c: Cache<K, V>, op: Op<K, V>, maxEntries: int, k: K)
    requires WellFormed(c) && k in c.table && LeavesAlone(c, op, k)
    requires |Younger(c.order, k) + TouchedOther(c, op, k)| < maxEntries
    ensures var c' := Step(c, op, maxEntries);
            && k in c'.table && c'.table[k] == c.table[k]
            && Younger(c'.order, k) <= Younger(c.order, k) + TouchedOther(c, op, k)
  {
    match op
    case Set(x, value, now) => SetKeepsUncrowded(c, x, value, now, maxEntries, k);
    case Get(x, now) =>
      TouchAddsYounger(c.order, x, k);
      if x != k { YoungerWithout(c.order, x, k); }
    case Pop(x) => YoungerWithout(c.order, x, k);
  }

  /** LRU protection: a key survives, with its entry, any trace that does not
      remove it on purpose or by age, as long as fewer than `maxEntries`
      distinct other keys are younger than it or set or hit meanwhile. */
  lemma {:induction false} KeptUntilCrowdedOut<K(!new), V>(c: Cache<K, V>, ops: seq<Op<K, V>>, maxEntries: int, k: K)
    requires WellFormed(c) && k in c.table
    requires AllLeaveAlone(c, ops, maxEntries, k)
    requires |Younger(c.order, k) + TouchedOthers(c, ops, maxEntries, k)| < maxEntries
    ensures var end := Run(c, ops, maxEntries);
            k in end.table && end.table[k] == c.table[k]
    decreases |ops|
  {
    if ops != [] {
      var op, c' := ops[0], Step(c, ops[0], maxEntries);
      var all := Younger(c.order, k) + TouchedOthers(c, ops, maxEntries, k);
      SubsetCount(Younger(c.order, k) + TouchedOther(c, op, k), all);
      StepKeepsUncrowded(c, op, maxEntries, k);
      StepKeepsWellFormed(c, op, maxEntries);
      SubsetCount(Younger(c'.order, k) + TouchedOthers(c', ops[1..], maxEntries, k), all);
      KeptUntilCrowdedOut(c', ops[1..], maxEntries, k);
    }
  }

  lemma EvictionSparesNewest<K(!new), V>(c: Cache<K, V>, k: K)
    requires WellFormed(c) && |c.order| > 1 && c.order[|c.order| - 1] == k
    requires Younger(c.order, k) == {}
    ensures var c' := Drop(c, c.order[0]);
            k in c'.table && Younger(c'.order, k) == {}
  {
    assert c.order[0] != c.order[|c.order| - 1] && k in c.order;
    YoungerWithout(c.order, c.order[0], k);
  }

  /** Right after a key is set or hit, nothing is younger than it. */
  lemma JustTouchedIsYoungest<K(!new), V>(c: Cache<K, V>, op: Op<K, V>, maxEntries: int)
    requires WellFormed(c) && Touches(c, op) && maxEntries > 0
    ensures var c' := Step(c, op, maxEntries);
            op.key in c'.table && Younger(c'.order, op.key) == {}
  {
    WithoutMembers(c.order, op.key);
    YoungerAppend(Without(c.order, op.key), op.key, op.key);
    if op.Set? {
      var c' := Inserted(c, op.key, op.value, op.now);
      InsertedWellFormed(c, op.key, op.value, op.now);
      if |c'.order| > maxEntries {
        EvictionSparesNewest(c', op.key);
      }
    }
  }

  /** A key set or hit, and then not removed on purpose or by age, leaves the
      cache only after at least `maxEntries` distinct other keys were set or hit. */
  lemma EvictedOnlyWhenCrowdedOut<K(!new), V>(c: Cache<K, V>, op: Op<K, V>, ops: seq<Op<K, V>>, maxEntries: int)
    requires WellFormed(c) && Touches(c, op) && maxEntries > 0
    requires AllLeaveAlone(Step(c, op, maxEntries), ops, maxEntries, op.key)
    requires op.key !in Run(Step(c, op, maxEntries), ops, maxEntries).table
    ensures |TouchedOthers(Step(c, op, maxEntries), ops, maxEntries, op.key)| >= maxEntries
  {
    var c' := Step(c, op, maxEntries);
    JustTouchedIsYoungest(c, op, maxEntries);
    StepKeepsWellFormed(c, op, maxEntries);
    var others := TouchedOthers(c', ops, maxEntries, op.key);
    if |others| < maxEntries {
      assert Younger(c'.order, op.key) + others == others;
      KeptUntilCrowdedOut(c', ops, maxEntries, op.key);
    }
  }
}
