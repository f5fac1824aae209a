/** The time-aware LRU cache: its state, its four operations, and the class
    that performs them in place. */
module TLRUCache {
  import opened Prelude
  import opened Ordering

  const TTL := 3600.0

  datatype Stamped<V> = Stamped(ts: real, value: V)

  /** An ordered dictionary: the keys, least recently used first, and their entries. */
  datatype Cache<K, V> = Cache(order: seq<K>, table: map<K, Stamped<V>>)

  ghost predicate WellFormed<K(!new), V>(c: Cache<K, V>) {
    Distinct(c.order) && forall k :: k in c.order <==> k in c.table
  }

  datatype Op<K, V> = Get(key: K, now: real) | Set(key: K, value: V, now: real) | Pop(key: K) | Clear

  predicate Live<V>(s: Stamped<V>, now: real) { now - s.ts < TTL }

  function Touch<K(==,!new)>(order: seq<K>, k: K): seq<K> { Without(order, k) + [k] }

  function Drop<K(==,!new), V>(c: Cache<K, V>, k: K): Cache<K, V> {
    Cache(Without(c.order, k), c.table - {k})
  }

  predicate Hits<K(==,!new), V>(c: Cache<K, V>, k: K, now: real) {
    k in c.table && Live(c.table[k], now)
  }

  function AfterGet<K(==,!new), V>(c: Cache<K, V>, k: K, now: real): Cache<K, V> {
    if Hits(c, k, now) then c.(order := Touch(c.order, k))
    else Drop(c, k)
  }

  function Inserted<K(==,!new), V>(c: Cache<K, V>, k: K, value: V, now: real): Cache<K, V> {
    Cache(Touch(c.order, k), c.table[k := Stamped(now, value)])
  }

  function AfterSet<K(==,!new), V>(c: Cache<K, V>, k: K, value: V, now: real, maxEntries: int): Cache<K, V> {
    var c' := Inserted(c, k, value, now);
    if |c'.order| > maxEntries then Drop(c', c'.order[0]) else c'
  }

  function Step<K(==,!new), V>(c: Cache<K, V>, op: Op<K, V>, maxEntries: int): Cache<K, V> {
    match op
    case Get(k, now) => AfterGet(c, k, now)
    case Set(k, value, now) => AfterSet(c, k, value, now, maxEntries)
    case Pop(k) => Drop(c, k)
    case Clear => Cache([], map[])
  }

  /** What the call returns to its caller. */
  function Answer<K(==,!new), V>(c: Cache<K, V>, op: Op<K, V>): Option<V> {
    if op.Get? && Hits(c, op.key, op.now) then Some(c.table[op.key].value) else None
  }

  class TLRUCache<K(==,!new), V> {
    const maxEntries: int
    var order: seq<K>
    var table: map<K, Stamped<V>>

    constructor (maxEntries: int)
      ensures this.maxEntries == maxEntries
      ensures State() == Cache([], map[])
    {
      this.maxEntries := maxEntries;
      order, table := [], map[];
    }

    function State(): Cache<K, V>
      reads this
    {
      Cache(order, table)
    }

    /** A live entry becomes the most recent and keeps its timestamp; an expired one is deleted. */
    method Get(key: K, now: real) returns (r: Option<V>)
      requires WellFormed(State())
      modifies this
      ensures WellFormed(State())
      ensures State() == Step(old(State()), Op<K, V>.Get(key, now), maxEntries)
      ensures r == Answer(old(State()), Op<K, V>.Get(key, now))
    {
      StepKeepsWellFormed(State(), Op<K, V>.Get(key, now), maxEntries);
      DropWellFormed(State(), key);
      if key !in table { return None; }
      var entry := table[key];
      if now - entry.ts < TTL {
        order := Without(order, key) + [key];
        return Some(entry.value);
      }
      order, table := Without(order, key), table - {key};
      r := None;
    }

    /** Inserts or overwrites with a new timestamp, then evicts the oldest entry if over the cap. */
    method Set(key: K, value: V, now: real)
      requires WellFormed(State())
      modifies this
      ensures WellFormed(State())
      ensures State() == Step(old(State()), Op<K, V>.Set(key, value, now), maxEntries)
    {
      StepKeepsWellFormed(State(), Op<K, V>.Set(key, value, now), maxEntries);
      if key in table {
        order := Without(order, key) + [key];
      } else {
        WithoutAbsent(order, key);
        order := order + [key];
      }
      table := table[key := Stamped(now, value)];
      if |order| > maxEntries {
        InsertedWellFormed(old(State()), key, value, now);
        WithoutHead(order);
        table := table - {order[0]};
        order := order[1..];
      }
    }

    method Pop(key: K)
      requires WellFormed(State())
      modifies this
      ensures WellFormed(State())
      ensures State() == Step(old(State()), Op<K, V>.Pop(key), maxEntries)
    {
      DropWellFormed(State(), key);
      if key in table {
        order, table := Without(order, key), table - {key};
      }
    }

    method Clear()
      modifies this
      ensures WellFormed(State())
      ensures State() == Cache([], map[])
    {
      order, table := [], map[];
    }
  }

  lemma DropWellFormed<K(!new), V>(c: Cache<K, V>, k: K)
    requires WellFormed(c)
    ensures WellFormed(Drop(c, k))
    ensures |Drop(c, k).order| == |c.order| - if k in c.table then 1 else 0
    ensures k !in c.table ==> Drop(c, k) == c
  {
    WithoutDistinct(c.order, k);
    WithoutMembers(c.order, k);
    if k !in c.table {
      WithoutAbsent(c.order, k);
      assert c.table - {k} == c.table;
    }
  }

  lemma TouchWellFormed<K(!new), V>(c: Cache<K, V>, k: K)
    requires WellFormed(c) && k in c.table
    ensures WellFormed(c.(order := Touch(c.order, k)))
    ensures |Touch(c.order, k)| == |c.order|
  {
    WithoutDistinct(c.order, k);
    WithoutMembers(c.order, k);
  }

  lemma InsertedWellFormed<K(!new), V>(c: Cache<K, V>, k: K, value: V, now: real)
    requires WellFormed(c)
    ensures WellFormed(Inserted(c, k, value, now))
    ensures |Inserted(c, k, value, now).order| == |c.order| + if k in c.table then 0 else 1
  {
    WithoutDistinct(c.order, k);
    WithoutMembers(c.order, k);
  }

  lemma AfterGetWellFormed<K(!new), V>(c: Cache<K, V>, k: K, now: real)
    requires WellFormed(c)
    ensures WellFormed(AfterGet(c, k, now))
    ensures |AfterGet(c, k, now).order| == |c.order| - if k in c.table && !Hits(c, k, now) then 1 else 0
  {
    if Hits(c, k, now) { TouchWellFormed(c, k); } else { DropWellFormed(c, k); }
  }

  lemma AfterSetWellFormed<K(!new), V>(c: Cache<K, V>, k: K, value: V, now: real, maxEntries: int)
    requires WellFormed(c)
    ensures WellFormed(AfterSet(c, k, value, now, maxEntries))
    ensures var n := |Inserted(c, k, value, now).order|;
            && n == |c.order| + (if k in c.table then 0 else 1)
            && |AfterSet(c, k, value, now, maxEntries).order| == n - if n > maxEntries then 1 else 0
  {
    var c' := Inserted(c, k, value, now);
    InsertedWellFormed(c, k, value, now);
    assert c'.order[0] in c'.order;
    DropWellFormed(c', c'.order[0]);
  }

  function Capacity(maxEntries: int): nat { Max(0, maxEntries) }

  /** Every operation keeps the dictionary consistent and within the cap. */
  lemma StepKeepsWellFormed<K(!new), V>(c: Cache<K, V>, op: Op<K, V>, maxEntries: int)
    requires WellFormed(c)
    ensures WellFormed(Step(c, op, maxEntries))
    ensures |c.order| <= Capacity(maxEntries) ==> |Step(c, op, maxEntries).order| <= Capacity(maxEntries)
  {
    match op
    case Get(k, now) => AfterGetWellFormed(c, k, now);
    case Set(k, value, now) => AfterSetWellFormed(c, k, value, now, maxEntries);
    case Pop(k) => DropWellFormed(c, k);
    case Clear =>
  }

  /** The newest key is not the one evicted. */
  lemma JustSetStays<K(!new), V>(c: Cache<K, V>, k: K, value: V, now: real, maxEntries: int)
    requires WellFormed(c) && maxEntries > 0
    ensures var c' := AfterSet(c, k, value, now, maxEntries);
            k in c'.table && c'.table[k] == Stamped(now, value)
  {
    var c' := Inserted(c, k, value, now);
    InsertedWellFormed(c, k, value, now);
    var last := |c'.order| - 1;
    assert c'.order[last] == k;
    if |c'.order| > maxEntries {
      assert c'.order[0] != c'.order[last];
    }
  }

  /** A value set is what a get returns, for an hour from the set and no longer:
      reading it in between does not extend its life. */
  lemma SetThenGet<K(!new), V>(c: Cache<K, V>, k: K, value: V, set': real, read: real, reread: real, maxEntries: int)
    requires WellFormed(c) && maxEntries > 0
    ensures var c' := AfterSet(c, k, value, set', maxEntries);
            && Answer(c', Op<K, V>.Get(k, read)) == (if read - set' < 3600.0 then Some(value) else None)
            && Answer(AfterGet(c', k, read), Op<K, V>.Get(k, reread))
               == (if read - set' < 3600.0 && reread - set' < 3600.0 then Some(value) else None)
  {
    JustSetStays(c, k, value, set', maxEntries);
  }

  /** What becomes of any key's entry. A get removes its key exactly when the
      entry is 3600 seconds old or more, and changes no entry; a set gives its
      key the value and the time, and removes at most the oldest other key,
      exactly when the cache was full and lacked the key; a pop removes its key. */
  lemma EntriesAfter<K(!new), V>(c: Cache<K, V>, op: Op<K, V>, maxEntries: int, x: K)
    requires WellFormed(c) && maxEntries > 0 && |c.order| <= maxEntries
    ensures var c' := Step(c, op, maxEntries);
            match op
            case Get(k, now) =>
              && (x in c'.table <==> x in c.table && !(x == k && now - c.table[x].ts >= 3600.0))
              && (x in c'.table ==> c'.table[x] == c.table[x])
            case Set(k, value, now) =>
              && k in c'.table && c'.table[k] == Stamped(now, value)
              && (x != k ==> (x in c'.table <==> x in c.table && !(k !in c.table && |c.order| == maxEntries && x == c.order[0])))
              && (x != k && x in c'.table ==> c'.table[x] == c.table[x])
            case Pop(k) => (x in c'.table <==> x in c.table && x != k) && (x in c'.table ==> c'.table[x] == c.table[x])
            case Clear => x !in c'.table
  {
    match op
    case Set(k, value, now) =>
      InsertedWellFormed(c, k, value, now);
      JustSetStays(c, k, value, now, maxEntries);
      if k !in c.table {
        WithoutAbsent(c.order, k);
      }
    case _ =>
  }
}
