/** The recommendation service over the shared cache. A request looks in the
    cache, waits for the database, and only then stores and returns: while it
    waits, other requests and invalidations run. */
module Recommendations {
  import opened Prelude
  import opened TLRUCache

  const CACHE_MAX_ENTRIES := 1024

  // ---------------------------------------------------------------------------
  // The cache key f"{opportunity_id}:{tenant_id}"
  // ---------------------------------------------------------------------------

  function Digit(d: nat): char
    requires d < 10
  {
    (48 + d) as char
  }

  function Digits(n: nat): (r: string)
    ensures r != "" && forall c :: c in r ==> '0' <= c <= '9'
  {
    if n < 10 then [Digit(n)] else Digits(n / 10) + [Digit(n % 10)]
  }

  function Decimal(i: int): (r: string)
    ensures ':' !in r && r != ""
  {
    if i < 0 then "-" + Digits(-i) else Digits(i)
  }

  function CacheKey(opportunityId: int, tenantId: int): string {
    Decimal(opportunityId) + ":" + Decimal(tenantId)
  }

  /** What a string of digits is worth. */
  function Worth(s: string): int {
    if s == "" then 0 else Worth(s[..|s| - 1]) * 10 + (s[|s| - 1] as int - 48)
  }

  lemma {:induction false} DigitsWorth(n: nat)
    ensures Worth(Digits(n)) == n
  {
    var s := Digits(n);
    if n < 10 {
      assert s[..0] == "";
    } else {
      DigitsWorth(n / 10);
      assert s[..|s| - 1] == Digits(n / 10);
    }
  }

  lemma DigitsStart(n: nat)
    ensures Digits(n)[0] != '-'
  {
    assert Digits(n)[0] in Digits(n);
  }

  lemma DecimalInjective(i: int, j: int)
    requires Decimal(i) == Decimal(j)
    ensures i == j
  {
    DigitsWorth(if i < 0 then -i else i);
    DigitsWorth(if j < 0 then -j else j);
    DigitsStart(if i < 0 then -i else i);
    DigitsStart(if j < 0 then -j else j);
    if i < 0 {
      assert Decimal(i)[1..] == Digits(-i) && Decimal(j)[1..] == Digits(-j);
    }
  }

  /** Cutting at the first colon is unambiguous. */
  lemma CutAtColon(a: string, b: string, c: string, d: string)
    requires ':' !in a && ':' !in c
    requires a + ":" + b == c + ":" + d
    ensures a == c && b == d
  {
    var s, t := a + ":" + b, c + ":" + d;
    assert s[|a|] == ':' && t[|c|] == ':';
    assert forall i :: 0 <= i < |a| ==> s[i] == a[i] && s[i] in a;
    assert forall i :: 0 <= i < |c| ==> t[i] == c[i] && t[i] in c;
    assert s[..|a|] == a && t[..|c|] == c;
    assert s[|a| + 1..] == b && t[|c| + 1..] == d;
  }

  /** Two requests share a cache key exactly when they are for the same pair. */
  lemma CacheKeyInjective(o: int, t: int, o': int, t': int)
    ensures CacheKey(o, t) == CacheKey(o', t') <==> o == o' && t == t'
  {
    if CacheKey(o, t) == CacheKey(o', t') {
      CutAtColon(Decimal(o), Decimal(t), Decimal(o'), Decimal(t'));
      DecimalInjective(o, o');
      DecimalInjective(t, t');
    }
  }

  /** For instance. */
  lemma KeyReads()
    ensures CacheKey(42, -7) == "42:-7"
  {
    assert Digits(42) == Digits(4) + [Digit(2)];
    assert Digit(4) == '4' && Digit(2) == '2' && Digit(7) == '7';
  }

  // ---------------------------------------------------------------------------
  // The service
  // ---------------------------------------------------------------------------

  datatype Recommendation = Recommendation(
    opportunityId: int, conversionProbability: real, nextBestAction: string, similar: seq<string>)

  type Store = Cache<string, Recommendation>

  /** What a request in flight knows: nothing yet, or what the database has
      answered and the predictors make of it (`None`: no such opportunity). */
  datatype QueryState = Waiting | Answered(found: Option<Recommendation>)

  datatype Flight = Flight(opportunityId: int, tenantId: int, answer: QueryState)

  datatype World = World(store: Store, flights: map<nat, Flight>)

  /** One atomic step of the event loop.
      `Lookup`: a request begins and reads the cache.
      `Read`: the database answers the request's query.
      `Complete`: the request resumes, stores what it found and returns.
      `Dies`: the query fails or the request is cancelled. */
  datatype Event =
    | Lookup(id: nat, opportunityId: int, tenantId: int, now: real)
    | Read(id: nat, found: Option<Recommendation>)
    | Complete(id: nat, now: real)
    | Dies(id: nat)
    | Invalidate(opportunityId: int, tenantId: int)

  predicate Enabled(w: World, e: Event) {
    match e
    case Lookup(id, _, _, _) => id !in w.flights
    case Read(id, _) => id in w.flights && w.flights[id].answer.Waiting?
    case Complete(id, _) => id in w.flights && w.flights[id].answer.Answered?
    case Dies(id) => id in w.flights
    case Invalidate(_, _) => true
  }

  /** The lookup finds a live entry. */
  predicate Served(w: World, e: Event) {
    e.Lookup? && Hits(w.store, CacheKey(e.opportunityId, e.tenantId), e.now)
  }

  /** What the step returns to the request's caller, if it ends the request; a
      completed request that found nothing raises NotFound. */
  function Reply(w: World, e: Event): Option<Recommendation>
    requires Enabled(w, e)
  {
    match e
    case Lookup(_, o, t, now) => Answer(w.store, Op<string, Recommendation>.Get(CacheKey(o, t), now))
    case Complete(id, _) => w.flights[id].answer.found
    case _ => None
  }

  function Next(w: World, e: Event): World
    requires Enabled(w, e)
  {
    match e
    case Lookup(id, o, t, now) =>
      World(Step(w.store, Get(CacheKey(o, t), now), CACHE_MAX_ENTRIES),
            if Served(w, e) then w.flights else w.flights[id := Flight(o, t, Waiting)])
    case Read(id, found) => w.(flights := w.flights[id := w.flights[id].(answer := Answered(found))])
    case Complete(id, now) =>
      var f := w.flights[id];
      World(if f.answer.found.None? then w.store
            else Step(w.store, Set(CacheKey(f.opportunityId, f.tenantId), f.answer.found.value, now), CACHE_MAX_ENTRIES),
            w.flights - {id})
    case Dies(id) => w.(flights := w.flights - {id})
    case Invalidate(o, t) => w.(store := Step(w.store, Pop(CacheKey(o, t)), CACHE_MAX_ENTRIES))
  }

  class RecommendationService {
    // the module-level cache, shared by all services
    const cache: TLRUCache<string, Recommendation>
    // the requests suspended at the query
    var flights: map<nat, Flight>

    constructor (cache: TLRUCache<string, Recommendation>)
      requires cache.maxEntries == CACHE_MAX_ENTRIES
      ensures this.cache == cache && flights == map[]
    {
      this.cache := cache;
      flights := map[];
    }

    predicate Valid()
      reads this, cache
    {
      cache.maxEntries == CACHE_MAX_ENTRIES
    }

    function State(): World
      reads this, cache
    {
      World(cache.State(), flights)
    }

    /** `get_recommendations` up to the query: a hit is returned, a miss waits. */
    method LookUp(id: nat, opportunityId: int, tenantId: int, now: real) returns (r: Option<Recommendation>)
      requires Valid() && WellFormed(cache.State()) && id !in flights
      modifies this`flights, cache
      ensures Valid() && WellFormed(cache.State())
      ensures State() == Next(old(State()), Lookup(id, opportunityId, tenantId, now))
      ensures r == Reply(old(State()), Lookup(id, opportunityId, tenantId, now))
    {
      var key := CacheKey(opportunityId, tenantId);
      r := cache.Get(key, now);
      if r.Some? { return; }
      flights := flights[id := Flight(opportunityId, tenantId, Waiting)];
    }

    /** `get_recommendations` from the query's answer on; `None` stands for NotFoundException. */
    method Resume(id: nat, now: real) returns (r: Option<Recommendation>)
      requires Valid() && WellFormed(cache.State()) && id in flights && flights[id].answer.Answered?
      modifies this`flights, cache
      ensures Valid() && WellFormed(cache.State())
      ensures State() == Next(old(State()), Complete(id, now))
      ensures r == Reply(old(State()), Complete(id, now))
    {
      var f := flights[id];
      flights := flights - {id};
      r := f.answer.found;
      if r.None? { return; }
      cache.Set(CacheKey(f.opportunityId, f.tenantId), r.value, now);
    }

    method InvalidateCache(opportunityId: int, tenantId: int)
      requires Valid() && WellFormed(cache.State())
      modifies cache
      ensures Valid() && WellFormed(cache.State())
      ensures State() == Next(old(State()), Invalidate(opportunityId, tenantId))
    {
      cache.Pop(CacheKey(opportunityId, tenantId));
    }
  }

  // ---------------------------------------------------------------------------
  // Every interleaving
  // ---------------------------------------------------------------------------

  const EMPTY := World(Cache([], map[]), map[])

  ghost predicate IsBehaviour(ws: seq<World>, es: seq<Event>) {
    && |ws| == |es| + 1
    && ws[0] == EMPTY
    && forall i :: 0 <= i < |es| ==> Enabled(ws[i], es[i]) && ws[i + 1] == Next(ws[i], es[i])
  }

  lemma {:induction false} StoreWellFormed(ws: seq<World>, es: seq<Event>, n: nat)
    requires IsBehaviour(ws, es) && n < |ws|
    ensures WellFormed(ws[n].store)
  {
    if n > 0 {
      StoreWellFormed(ws, es, n - 1);
      NextWellFormed(ws[n - 1], es[n - 1]);
    }
  }

  /** In every interleaving the cache holds at most 1024 entries. */
  lemma {:induction false} StoreWithinCap(ws: seq<World>, es: seq<Event>, n: nat)
    requires IsBehaviour(ws, es) && n < |ws|
    ensures |ws[n].store.order| <= 1024
  {
    if n > 0 {
      StoreWithinCap(ws, es, n - 1);
      StoreWellFormed(ws, es, n - 1);
      NextWellFormed(ws[n - 1], es[n - 1]);
    }
  }

  lemma NextWellFormed(w: World, e: Event)
    requires WellFormed(w.store) && Enabled(w, e)
    ensures WellFormed(Next(w, e).store)
    ensures |w.store.order| <= CACHE_MAX_ENTRIES ==> |Next(w, e).store.order| <= CACHE_MAX_ENTRIES
  {
    match e
    case Lookup(_, o, t, now) => StepKeepsWellFormed(w.store, Op<string, Recommendation>.Get(CacheKey(o, t), now), CACHE_MAX_ENTRIES);
    case Complete(id, now) =>
      var f := w.flights[id];
      if f.answer.found.Some? {
        StepKeepsWellFormed(w.store, Set(CacheKey(f.opportunityId, f.tenantId), f.answer.found.value, now), CACHE_MAX_ENTRIES);
      }
    case Invalidate(o, t) => StepKeepsWellFormed(w.store, Op<string, Recommendation>.Pop(CacheKey(o, t)), CACHE_MAX_ENTRIES);
    case _ =>
  }

  /** The flight is for the pair and has found something. */
  predicate Carries(f: Flight, o: int, t: int) {
    f.opportunityId == o && f.tenantId == t && f.answer.Answered? && f.answer.found.Some?
  }

  /** The step stores this entry for the pair. */
  predicate Stores(w: World, e: Event, o: int, t: int, entry: Stamped<Recommendation>) {
    e.Complete? && e.id in w.flights && w.flights[e.id] == Flight(o, t, Answered(Some(entry.value))) && e.now == entry.ts
  }

  /** The step neither stores for the pair nor invalidates it. */
  predicate Spares(w: World, e: Event, o: int, t: int) {
    match e
    case Invalidate(o', t') => !(o' == o && t' == t)
    case Complete(id, _) => id in w.flights ==> !Carries(w.flights[id], o, t)
    case _ => true
  }

  /** What the cache holds for a pair. */
  ghost predicate Holds(w: World, o: int, t: int, entry: Stamped<Recommendation>) {
    CacheKey(o, t) in w.store.table && w.store.table[CacheKey(o, t)] == entry
  }

  /** An entry found after a step was stored by it, or was there and spared. */
  lemma EntryOrigin(w: World, e: Event, o: int, t: int, entry: Stamped<Recommendation>)
    requires Enabled(w, e) && Holds(Next(w, e), o, t, entry)
    ensures Stores(w, e, o, t, entry) || (Holds(w, o, t, entry) && Spares(w, e, o, t))
  {
    match e
    case Lookup(_, o', t', _) => CacheKeyInjective(o, t, o', t');
    case Complete(id, _) => CacheKeyInjective(o, t, w.flights[id].opportunityId, w.flights[id].tenantId);
    case Invalidate(o', t') => CacheKeyInjective(o, t, o', t');
    case _ =>
  }

  /** Event `j` stored the entry, and up to event `n` the pair was neither
      invalidated nor stored again. */
  ghost predicate StoredAt(ws: seq<World>, es: seq<Event>, j: int, n: int, o: int, t: int, entry: Stamped<Recommendation>)
    requires IsBehaviour(ws, es) && 0 <= n < |ws|
  {
    && 0 <= j < n && Stores(ws[j], es[j], o, t, entry)
    && forall i :: j < i < n ==> Spares(ws[i], es[i], o, t)
  }

  /** If the cache holds this entry for the pair at `n`, some event stored it and the pair was spared since. */
  ghost predicate WasStored(ws: seq<World>, es: seq<Event>, n: int, o: int, t: int, entry: Stamped<Recommendation>)
    requires IsBehaviour(ws, es) && 0 <= n < |ws|
  {
    Holds(ws[n], o, t, entry) ==> exists j :: StoredAt(ws, es, j, n, o, t, entry)
  }

  lemma {:induction false} EntriesWereStored(ws: seq<World>, es: seq<Event>, n: nat, o: int, t: int,
                                             entry: Stamped<Recommendation>)
    requires IsBehaviour(ws, es) && n < |ws|
    ensures WasStored(ws, es, n, o, t, entry)
  {
    if n > 0 {
      EntriesWereStored(ws, es, n - 1, o, t, entry);
      WasStoredStep(ws, es, n - 1, o, t, entry);
    }
  }

  lemma WasStoredStep(ws: seq<World>, es: seq<Event>, n: nat, o: int, t: int, entry: Stamped<Recommendation>)
    requires IsBehaviour(ws, es) && n < |es| && WasStored(ws, es, n, o, t, entry)
    ensures WasStored(ws, es, n + 1, o, t, entry)
  {
    if Holds(ws[n + 1], o, t, entry) {
      EntryOrigin(ws[n], es[n], o, t, entry);
      if Stores(ws[n], es[n], o, t, entry) {
        assert StoredAt(ws, es, n, n + 1, o, t, entry);
      } else {
        var j :| StoredAt(ws, es, j, n, o, t, entry);
        assert StoredAt(ws, es, j, n + 1, o, t, entry);
      }
    }
  }

  /** From event `l` up to `n` the request `id` has been in flight, as `f`. */
  ghost predicate FliesAs(ws: seq<World>, id: nat, f: Flight, l: int, n: int) {
    0 <= l <= n < |ws| && forall k :: l < k <= n ==> id in ws[k].flights && ws[k].flights[id] == f
  }

  /** The request for the pair missed at event `l`. */
  ghost predicate Missed(ws: seq<World>, es: seq<Event>, l: int, id: nat, o: int, t: int) {
    0 <= l < |es| && l < |ws| && es[l].Lookup? && es[l].id == id && es[l].opportunityId == o && es[l].tenantId == t
    && !Served(ws[l], es[l])
  }

  /** The request missed at `l`, its query was answered at `r`, and at `n` it is still in flight. */
  ghost predicate Fetched(ws: seq<World>, es: seq<Event>, l: int, r: int, n: int, id: nat, o: int, t: int,
                          found: Option<Recommendation>)
    requires |ws| == |es| + 1
  {
    && 0 <= l < r < n < |ws|
    && Missed(ws, es, l, id, o, t) && FliesAs(ws, id, Flight(o, t, Waiting), l, r)
    && es[r] == Read(id, found) && FliesAs(ws, id, Flight(o, t, Answered(found)), r, n)
  }

  lemma {:induction false} WaitingMissed(ws: seq<World>, es: seq<Event>, n: nat, id: nat) returns (l: nat)
    requires IsBehaviour(ws, es) && n < |ws| && id in ws[n].flights && ws[n].flights[id].answer.Waiting?
    ensures var f := ws[n].flights[id];
            l < n && Missed(ws, es, l, id, f.opportunityId, f.tenantId) && FliesAs(ws, id, f, l, n)
  {
    if id in ws[n - 1].flights {
      l := WaitingMissed(ws, es, n - 1, id);
    } else {
      l := n - 1;
    }
  }

  lemma {:induction false} AnsweredFetched(ws: seq<World>, es: seq<Event>, n: nat, id: nat) returns (l: nat, r: nat)
    requires IsBehaviour(ws, es) && n < |ws| && id in ws[n].flights && ws[n].flights[id].answer.Answered?
    ensures var f := ws[n].flights[id];
            Fetched(ws, es, l, r, n, id, f.opportunityId, f.tenantId, f.answer.found)
  {
    InFlightBefore(ws, es, n, id);
    if ws[n - 1].flights[id].answer.Waiting? {
      l := WaitingMissed(ws, es, n - 1, id);
      r := n - 1;
    } else {
      l, r := AnsweredFetched(ws, es, n - 1, id);
      FliesOn(ws, id, ws[n].flights[id], r, n - 1);
    }
  }

  /** A request with its answer was in flight before, as it is now or about to get the answer. */
  lemma InFlightBefore(ws: seq<World>, es: seq<Event>, n: nat, id: nat)
    requires IsBehaviour(ws, es) && n < |ws| && id in ws[n].flights && ws[n].flights[id].answer.Answered?
    ensures n > 0 && id in ws[n - 1].flights
    ensures ws[n - 1].flights[id].answer.Answered? ==> ws[n - 1].flights[id] == ws[n].flights[id]
    ensures ws[n - 1].flights[id].answer.Waiting? ==>
              && es[n - 1] == Read(id, ws[n].flights[id].answer.found)
              && ws[n].flights[id] == ws[n - 1].flights[id].(answer := ws[n].flights[id].answer)
  {
  }

  lemma FliesOn(ws: seq<World>, id: nat, f: Flight, l: int, n: int)
    requires FliesAs(ws, id, f, l, n) && n + 1 < |ws| && id in ws[n + 1].flights && ws[n + 1].flights[id] == f
    ensures FliesAs(ws, id, f, l, n + 1)
  {
  }

  /** The value the lookup at `n` is served was read from the database at `r`,
      by a request that missed at `l` and stored it at `j` less than an hour
      before; since `j` the pair was neither invalidated nor stored again. */
  ghost predicate ComesFrom(ws: seq<World>, es: seq<Event>, n: int, l: int, r: int, j: int)
    requires IsBehaviour(ws, es) && 0 <= n < |es| && es[n].Lookup?
  {
    var o, t := es[n].opportunityId, es[n].tenantId;
    && Reply(ws[n], es[n]).Some?
    && 0 <= j < n && es[j].Complete? && es[n].now - es[j].now < 3600.0
    && StoredAt(ws, es, j, n, o, t, Stamped(es[j].now, Reply(ws[n], es[n]).value))
    && Fetched(ws, es, l, r, j, es[j].id, o, t, Reply(ws[n], es[n]))
  }

  /** Transparency over every interleaving: what a request returns is what its
      own query gave, or comes from the cache as `ComesFrom` says. */
  lemma RepliesAreFresh(ws: seq<World>, es: seq<Event>, n: nat)
    requires IsBehaviour(ws, es) && n < |es|
    ensures Served(ws[n], es[n]) ==> exists l, r, j :: ComesFrom(ws, es, n, l, r, j)
    ensures es[n].Lookup? && !Served(ws[n], es[n]) ==> Reply(ws[n], es[n]).None?
    ensures es[n].Complete? ==>
              exists l, r :: Fetched(ws, es, l, r, n, es[n].id, ws[n].flights[es[n].id].opportunityId,
                                     ws[n].flights[es[n].id].tenantId, Reply(ws[n], es[n]))
  {
    if Served(ws[n], es[n]) {
      var o, t := es[n].opportunityId, es[n].tenantId;
      var entry := ws[n].store.table[CacheKey(o, t)];
      EntriesWereStored(ws, es, n, o, t, entry);
      var j :| StoredAt(ws, es, j, n, o, t, entry);
      var l, r := AnsweredFetched(ws, es, j, es[j].id);
      assert entry == Stamped(es[j].now, Reply(ws[n], es[n]).value);
      assert ComesFrom(ws, es, n, l, r, j);
    }
    if es[n].Complete? {
      var f := ws[n].flights[es[n].id];
      var l, r := AnsweredFetched(ws, es, n, es[n].id);
      assert Reply(ws[n], es[n]) == f.answer.found;
      assert Fetched(ws, es, l, r, n, es[n].id, f.opportunityId, f.tenantId, Reply(ws[n], es[n]));
    }
  }

  // ---------------------------------------------------------------------------
  // What an invalidation guarantees
  // ---------------------------------------------------------------------------

  /** The lookup at `n` is served data read before event `i`, an invalidation of the pair. */
  ghost predicate ServesOld(ws: seq<World>, es: seq<Event>, i: int, n: int)
    requires IsBehaviour(ws, es)
  {
    && 0 <= i < n < |es| && es[n].Lookup? && es[i] == Invalidate(es[n].opportunityId, es[n].tenantId)
    && exists l, r, j :: ComesFrom(ws, es, n, l, r, j) && r < i
  }

  /** Some request for the pair has its answer but has not stored it yet. */
  ghost predicate AnswerInFlight(w: World, o: int, t: int) {
    exists id :: id in w.flights && Carries(w.flights[id], o, t)
  }

  /** The readings of the monotonic clock, in the cache's get and set, never fall. */
  ghost predicate Timed(es: seq<Event>) {
    forall i, j :: 0 <= i < j < |es| && ReadsClock(es[i]) && ReadsClock(es[j]) ==> es[i].now <= es[j].now
  }

  predicate ReadsClock(e: Event) { e.Lookup? || e.Complete? }

  /** A reading the clock has reached. */
  function Latest(es: seq<Event>): (r: real)
    ensures forall i :: 0 <= i < |es| && ReadsClock(es[i]) ==> es[i].now <= r
  {
    if es == [] then 0.0
    else
      var e, before := es[|es| - 1], Latest(es[..|es| - 1]);
      if ReadsClock(e) && e.now > before then e.now else before
  }

  /** The behaviour goes on from the first with an invalidation of the pair, and
      later serves data read before it. */
  ghost predicate LaterServesOld(ws: seq<World>, es: seq<Event>, o: int, t: int, ws': seq<World>, es': seq<Event>, n: int) {
    && IsBehaviour(ws', es') && Timed(es') && ws <= ws' && es + [Invalidate(o, t)] <= es'
    && |es| < n < |es'| && ServesOld(ws', es', |es|, n)
  }

  /** An invalidation can be outlived by what was read before it exactly when
      at that moment some request for the pair is between its query's answer
      and its store. */
  lemma OldDataServedExactlyWhenAnswerInFlight(ws: seq<World>, es: seq<Event>, o: int, t: int)
    requires IsBehaviour(ws, es) && Timed(es)
    ensures (exists ws', es', n :: LaterServesOld(ws, es, o, t, ws', es', n)) <==> AnswerInFlight(ws[|es|], o, t)
  {
    if AnswerInFlight(ws[|es|], o, t) {
      var id :| id in ws[|es|].flights && Carries(ws[|es|].flights[id], o, t);
      var ws', es' := OvertakeInvalidation(ws, es, id, o, t);
      assert LaterServesOld(ws, es, o, t, ws', es', |es| + 2);
    }
    if ws', es', n :| LaterServesOld(ws, es, o, t, ws', es', n) {
      OldDataWasInFlight(ws', es', |es|, n);
      assert ws'[|es|] == ws[|es|] && es'[|es|] == Invalidate(o, t) by {
        assert (es + [Invalidate(o, t)])[|es|] == Invalidate(o, t);
      }
    }
  }

  lemma OldDataWasInFlight(ws: seq<World>, es: seq<Event>, i: nat, n: nat)
    requires IsBehaviour(ws, es) && ServesOld(ws, es, i, n)
    ensures AnswerInFlight(ws[i], es[i].opportunityId, es[i].tenantId)
  {
    var l, r, j :| ComesFrom(ws, es, n, l, r, j) && r < i;
    var o, t, id := es[i].opportunityId, es[i].tenantId, es[j].id;
    var found := Reply(ws[n], es[n]);
    assert StoredAt(ws, es, j, n, o, t, Stamped(es[j].now, found.value)) && !Spares(ws[i], es[i], o, t);
    assert FliesAs(ws, id, Flight(o, t, Answered(found)), r, j);
    InFlightAt(ws, id, o, t, found, r, i, j);
  }

  lemma InFlightAt(ws: seq<World>, id: nat, o: int, t: int, found: Option<Recommendation>, r: int, i: int, j: int)
    requires FliesAs(ws, id, Flight(o, t, Answered(found)), r, j) && r < i <= j && found.Some?
    ensures AnswerInFlight(ws[i], o, t)
  {
    assert id in ws[i].flights && Carries(ws[i].flights[id], o, t);
  }

  lemma Extend(ws: seq<World>, es: seq<Event>, e: Event) returns (ws': seq<World>, es': seq<Event>)
    requires IsBehaviour(ws, es) && Enabled(ws[|es|], e)
    ensures es' == es + [e] && ws' == ws + [Next(ws[|es|], e)] && IsBehaviour(ws', es')
  {
    ws', es' := ws + [Next(ws[|es|], e)], es + [e];
    forall i | 0 <= i < |es'| ensures Enabled(ws'[i], es'[i]) && ws'[i + 1] == Next(ws'[i], es'[i]) {
      if i < |es| { assert ws'[i] == ws[i] && es'[i] == es[i]; }
    }
  }

  /** The request stores its old answer right after the invalidation, and the
      next request is served it, all at one reading of the clock. */
  lemma OvertakeInvalidation(ws: seq<World>, es: seq<Event>, id: nat, o: int, t: int)
    returns (ws': seq<World>, es': seq<Event>)
    requires IsBehaviour(ws, es) && Timed(es) && id in ws[|es|].flights && Carries(ws[|es|].flights[id], o, t)
    ensures es' == es + [Invalidate(o, t), Complete(id, Latest(es)), Lookup(id, o, t, Latest(es))]
    ensures LaterServesOld(ws, es, o, t, ws', es', |es| + 2)
    ensures Reply(ws'[|es| + 2], es'[|es| + 2]) == ws[|es|].flights[id].answer.found
  {
    var now := Latest(es);
    ws', es' := CompleteAfterInvalidation(ws, es, id, o, t, now);
    ws', es' := Extend(ws', es', Lookup(id, o, t, now));
    LaterTimed(es, o, t, id);
    Overtakes(ws, es, ws', es', id, o, t, now);
  }

  lemma Overtakes(ws: seq<World>, es: seq<Event>, ws': seq<World>, es': seq<Event>, id: nat, o: int, t: int, now: real)
    requires IsBehaviour(ws, es) && id in ws[|es|].flights && Carries(ws[|es|].flights[id], o, t)
    requires IsBehaviour(ws', es') && Timed(es') && ws <= ws'
    requires es' == es + [Invalidate(o, t), Complete(id, now), Lookup(id, o, t, now)]
    requires Reply(ws'[|es| + 2], es'[|es| + 2]) == ws[|es|].flights[id].answer.found
    ensures LaterServesOld(ws, es, o, t, ws', es', |es| + 2)
  {
    OvertakenServesOld(ws', es', |es|, id, o, t, now);
  }

  lemma CompleteAfterInvalidation(ws: seq<World>, es: seq<Event>, id: nat, o: int, t: int, now: real)
    returns (ws': seq<World>, es': seq<Event>)
    requires IsBehaviour(ws, es) && id in ws[|es|].flights && Carries(ws[|es|].flights[id], o, t)
    ensures es' == es + [Invalidate(o, t), Complete(id, now)] && ws <= ws' && IsBehaviour(ws', es')
    ensures id !in ws'[|es'|].flights
    ensures Reply(ws'[|es'|], Lookup(id, o, t, now)) == ws[|es|].flights[id].answer.found
  {
    ws', es' := Extend(ws, es, Invalidate(o, t));
    StoreWellFormed(ws', es', |es| + 1);
    StoredIsServed(ws'[|es| + 1], id, o, t, now);
    ws', es' := Extend(ws', es', Complete(id, now));
  }

  lemma LaterTimed(es: seq<Event>, o: int, t: int, id: nat)
    requires Timed(es)
    ensures Timed(es + [Invalidate(o, t), Complete(id, Latest(es)), Lookup(id, o, t, Latest(es))])
  {
  }

  lemma OvertakenServesOld(ws: seq<World>, es: seq<Event>, i: nat, id: nat, o: int, t: int, now: real)
    requires IsBehaviour(ws, es) && i + 3 == |es|
    requires es[i..] == [Invalidate(o, t), Complete(id, now), Lookup(id, o, t, now)]
    requires id in ws[i].flights && Carries(ws[i].flights[id], o, t)
    requires Reply(ws[i + 2], es[i + 2]) == ws[i].flights[id].answer.found
    ensures ServesOld(ws, es, i, i + 2)
  {
    assert es[i] == es[i..][0] && es[i + 1] == es[i..][1] && es[i + 2] == es[i..][2];
    assert ws[i + 1].flights == ws[i].flights;
    var l, r := AnsweredFetched(ws, es, i + 1, id);
    assert r < i;
    assert ComesFrom(ws, es, i + 2, l, r, i + 1);
  }

  /** What a request stores is what the next request for its pair is served. */
  lemma StoredIsServed(w: World, id: nat, o: int, t: int, now: real)
    requires WellFormed(w.store) && id in w.flights && Carries(w.flights[id], o, t)
    ensures var w' := Next(w, Complete(id, now));
            id !in w'.flights && Reply(w', Lookup(id, o, t, now)) == w.flights[id].answer.found
  {
    JustSetStays(w.store, CacheKey(o, t), w.flights[id].answer.found.value, now, CACHE_MAX_ENTRIES);
  }

  /** For instance: an invalidation while the first request for a pair waits to resume. */
  lemma InvalidationOvertaken(v: Recommendation) returns (ws: seq<World>, es: seq<Event>)
    ensures IsBehaviour(ws, es) && Timed(es)
    ensures es == [Lookup(0, 1, 1, 0.0), Read(0, Some(v)), Invalidate(1, 1), Complete(0, 0.0), Lookup(0, 1, 1, 0.0)]
    ensures ServesOld(ws, es, 2, 4) && Reply(ws[4], es[4]) == Some(v)
  {
    ws, es := [EMPTY], [];
    ws, es := Extend(ws, es, Lookup(0, 1, 1, 0.0));
    ws, es := Extend(ws, es, Read(0, Some(v)));
    assert ws[2].flights[0] == Flight(1, 1, Answered(Some(v)));
    assert es[..1] == [es[0]] && es[..1][..0] == [] && Latest(es[..1]) == 0.0 && Latest(es) == 0.0;
    ws, es := OvertakeInvalidation(ws, es, 0, 1, 1);
  }
}
