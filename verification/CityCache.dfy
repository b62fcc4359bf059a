/** The public city cache (crates/crowdrelay-api/src/acquisition.rs): a shared
    snapshot, a single-flight refresh lock and rendered pages kept per snapshot.

    Any number of requests interleave, one critical section at a time: a step ends at
    each `await`, and a request may be dropped at any of them. An `Arc` is an address
    with contents; an address may be reused as soon as nothing holds it any more. */
module CityCache {
  import opened Prelude

  datatype City = City(slug: string, id: nat)

  datatype Arc = Arc(addr: nat, cities: seq<City>)

  datatype Rendered = Rendered(body: string, etag: string)

  datatype Snapshot = Snapshot(items: Arc, refreshedAt: Option<int>, rendered: map<nat, Rendered>)

  /** JSON serialization (which may fail) and the hex digest used for entity tags. */
  datatype Renderer = Renderer(serialize: seq<City> -> Option<string>, digest: string -> string)

  const MAX_AGE := 300_000_000_000 // CITY_SNAPSHOT_MAX_AGE in nanoseconds
  const MAX_LIMIT := 100

  // ---------------------------------------------------------------------------
  // The critical sections

  /** Older than CITY_SNAPSHOT_MAX_AGE, or never filled. */
  predicate Expired(s: Snapshot, now: int) {
    s.refreshedAt.None? || now - s.refreshedAt.value > MAX_AGE
  }

  function Cached(s: Snapshot, maxAge: Option<int>, now: int): Option<Arc> {
    if s.refreshedAt.None? || (maxAge.Some? && now - s.refreshedAt.value > maxAge.value) then None else Some(s.items)
  }

  function Replaced(fetched: Arc, now: int): Snapshot { Snapshot(fetched, Some(now), map[]) }

  /** `Arc::ptr_eq(&snapshot.items, &items)` and an entry for `limit`. */
  function Hit(s: Snapshot, items: Arc, limit: nat): Option<Rendered> {
    if s.items.addr == items.addr && limit in s.rendered then Some(s.rendered[limit]) else None
  }

  function Stored(s: Snapshot, items: Arc, limit: nat, page: Rendered): Snapshot {
    if s.items.addr == items.addr then s.(rendered := s.rendered[limit := page]) else s
  }

  function Take(cities: seq<City>, limit: nat): seq<City> {
    if limit <= |cities| then cities[..limit] else cities
  }

  function RenderPage(r: Renderer, cities: seq<City>, limit: nat): Option<Rendered> {
    match r.serialize(Take(cities, limit))
    case None => None
    case Some(body) => Some(Rendered(body, "\"cities-" + r.digest(body) + "\""))
  }

  function FindSlug(cities: seq<City>, slug: string): Option<nat> {
    if cities == [] then None
    else if cities[0].slug == slug then Some(cities[0].id)
    else FindSlug(cities[1..], slug)
  }

  /** Every stored page is what rendering these items would give. */
  ghost predicate PagesDescribe(r: Renderer, items: Arc, rendered: map<nat, Rendered>) {
    forall limit | limit in rendered :: RenderPage(r, items.cities, limit) == Some(rendered[limit])
  }

  /** The value behind `Arc<RwLock<CitySnapshot>>`, one method per critical section. */
  class SnapshotCell {
    var items: Arc
    var refreshedAt: Option<int>
    var rendered: map<nat, Rendered>

    function View(): Snapshot
      reads this
    {
      Snapshot(items, refreshedAt, rendered)
    }

    ghost predicate Valid(r: Renderer)
      reads this
    {
      PagesDescribe(r, items, rendered)
    }

    /** One address, one contents: what comparing addresses relies on. */
    ghost predicate Knows(held: Arc)
      reads this
    {
      held.addr == items.addr ==> held == items
    }

    constructor (ghost r: Renderer, empty: Arc)
      ensures View() == Snapshot(empty, None, map[]) && Valid(r)
    {
      items, refreshedAt, rendered := empty, None, map[];
    }

    /** The current items, if there has been a refresh, and within the age if one is given. */
    method CachedSnapshot(maxAge: Option<int>, now: int) returns (found: Option<Arc>)
      ensures found.Some? <==> refreshedAt.Some? && (maxAge.Some? ==> refreshedAt.value + maxAge.value >= now)
      ensures found.Some? ==> found.value == items
    {
      if refreshedAt.None? { return None; }
      if maxAge.Some? && now - refreshedAt.value > maxAge.value { return None; }
      return Some(items);
    }

    /** A refresh: no page of the replaced items is left. */
    method Replace(ghost r: Renderer, fetched: Arc, now: int)
      modifies this
      ensures Valid(r) && items == fetched && refreshedAt == Some(now) && forall limit :: limit !in rendered
    {
      items := fetched;
      refreshedAt := Some(now);
      rendered := map[];
    }

    /** A page is found only if it is what rendering the items held would give. */
    method Lookup(ghost r: Renderer, held: Arc, limit: nat) returns (page: Option<Rendered>)
      requires Valid(r) && Knows(held)
      ensures page.Some? ==> page == RenderPage(r, held.cities, limit)
      ensures page.None? <==> held != items || limit !in rendered
    {
      if items.addr == held.addr && limit in rendered { return Some(rendered[limit]); }
      return None;
    }

    /** A page of the current items is kept for the next request; one of superseded items
        changes nothing. */
    method Store(ghost r: Renderer, held: Arc, limit: nat, page: Rendered)
      requires Valid(r) && Knows(held) && RenderPage(r, held.cities, limit) == Some(page)
      modifies this`rendered
      ensures Valid(r)
      ensures held == items ==> limit in rendered
      ensures held != items ==> limit in rendered ==> limit in old(rendered)
      ensures forall l | l in old(rendered) :: l in rendered && rendered[l] == old(rendered)[l]
      ensures forall l | l in rendered :: l in old(rendered) || l == limit
    {
      if items.addr == held.addr {
        rendered := rendered[limit := page];
      }
    }
  }

  // ---------------------------------------------------------------------------
  // Interleaved requests

  /** `rendered_cities(limit)` or `city_id_for_slug(slug)`. */
  datatype Kind = Page(limit: nat) | Slug(slug: string)

  datatype Answer = InvalidLimit | ListError | SerializationError | PageOk(page: Rendered) | CityId(id: Option<nat>)

  /** The `await` a request is suspended at, with the `Arc`s it holds there. */
  datatype Pc =
    | WantCached                                  // first snapshot read
    | WantLock                                    // city_refresh.lock()
    | Recheck                                     // second snapshot read, lock held
    | WantStale                                   // cached_snapshot(None), lock held
    | Reading(stale: Option<Arc>)                 // list_cities.execute, lock held
    | WantReplace(fetched: Arc)                   // snapshot write, lock held
    | WantHit(items: Arc)                         // rendered lookup
    | WantStore(items: Arc, page: Rendered)       // rendered insert
    | Done(answer: Answer)

  predicate HoldsLock(pc: Pc) { pc.Recheck? || pc.WantStale? || pc.Reading? || pc.WantReplace? }

  function ArcsOf(pc: Pc): set<Arc> {
    match pc
    case Reading(stale) => if stale.Some? then {stale.value} else {}
    case WantReplace(fetched) => {fetched}
    case WantHit(items) => {items}
    case WantStore(items, _) => {items}
    case _ => {}
  }

  /** `since` counts the refreshes completed when the request arrived. */
  datatype Request = Request(kind: Kind, pc: Pc, since: nat)

  datatype Refresh = Refresh(at: int, cities: seq<City>)

  datatype State = State(snap: Snapshot, lock: Option<nat>, reqs: map<nat, Request>, now: int, refreshes: seq<Refresh>)

  datatype Event =
    | Arrive(kind: Kind)
    | Resume                                      // the awaited lock is granted
    | ReadOk(cities: seq<City>, addr: nat)        // the city read returns, `Arc::new` picks addr
    | ReadFails
    | Cancel                                      // the future is dropped

  datatype Action = Action(rid: nat, event: Event, now: int)

  /** The snapshot or a request keeps this `Arc` alive. */
  ghost predicate Held(s: State, arc: Arc) {
    arc == s.snap.items || exists rid :: rid in s.reqs && arc in ArcsOf(s.reqs[rid].pc)
  }

  ghost predicate AddrFree(s: State, addr: nat) {
    forall arc | Held(s, arc) :: arc.addr != addr
  }

  ghost predicate Enabled(s: State, a: Action) {
    && a.now >= s.now
    && (a.event.Arrive? <==> a.rid !in s.reqs)
    && (a.event.Resume? ==> !s.reqs[a.rid].pc.Reading? && !s.reqs[a.rid].pc.Done?
                            && (s.reqs[a.rid].pc.WantLock? ==> s.lock.None?))
    && (a.event.ReadOk? ==> s.reqs[a.rid].pc.Reading? && AddrFree(s, a.event.addr))
    && (a.event.ReadFails? ==> s.reqs[a.rid].pc.Reading?)
    && (a.event.Cancel? ==> !s.reqs[a.rid].pc.Done?)
  }

  /** `resilient_snapshot` has returned `items`: go on to render, or look the slug up. */
  function Got(kind: Kind, items: Arc): Pc {
    match kind
    case Page(_) => WantHit(items)
    case Slug(slug) => Done(CityId(FindSlug(items.cities, slug)))
  }

  function LimitOf(kind: Kind): nat { if kind.Page? then kind.limit else 0 }

  /** The pc a request moves to when it resumes. */
  function Resumed(r: Renderer, s: State, req: Request, now: int): Pc
    requires !req.pc.Reading? && !req.pc.Done?
  {
    match req.pc
    case WantCached =>
      var c := Cached(s.snap, Some(MAX_AGE), now);
      if c.Some? then Got(req.kind, c.value) else WantLock
    case WantLock => Recheck
    case Recheck =>
      var c := Cached(s.snap, Some(MAX_AGE), now);
      if c.Some? then Got(req.kind, c.value) else WantStale
    case WantStale => Reading(Cached(s.snap, None, now))
    case WantReplace(fetched) => Got(req.kind, fetched)
    case WantHit(items) =>
      var hit := Hit(s.snap, items, LimitOf(req.kind));
      if hit.Some? then Done(PageOk(hit.value))
      else
        var page := RenderPage(r, items.cities, LimitOf(req.kind));
        if page.Some? then WantStore(items, page.value) else Done(SerializationError)
    case WantStore(_, page) => Done(PageOk(page))
  }

  function Move(s: State, a: Action, req: Request, pc: Pc): State {
    s.(reqs := s.reqs[a.rid := req.(pc := pc)], now := a.now,
       lock := if HoldsLock(pc) then Some(a.rid) else if HoldsLock(req.pc) then None else s.lock)
  }

  function Apply(r: Renderer, s: State, a: Action): State
    requires Enabled(s, a)
  {
    match a.event
    case Arrive(kind) =>
      var pc := if kind.Page? && !(1 <= kind.limit <= MAX_LIMIT) then Done(InvalidLimit) else WantCached;
      s.(reqs := s.reqs[a.rid := Request(kind, pc, |s.refreshes|)], now := a.now)
    case Resume =>
      var req := s.reqs[a.rid];
      var s' := Move(s, a, req, Resumed(r, s, req, a.now));
      if req.pc.WantReplace? then
        s'.(snap := Replaced(req.pc.fetched, a.now), refreshes := s.refreshes + [Refresh(a.now, req.pc.fetched.cities)])
      else if req.pc.WantStore? then s'.(snap := Stored(s.snap, req.pc.items, LimitOf(req.kind), req.pc.page))
      else s'
    case ReadOk(cities, addr) => Move(s, a, s.reqs[a.rid], WantReplace(Arc(addr, cities)))
    case ReadFails =>
      var req := s.reqs[a.rid];
      Move(s, a, req, if req.pc.stale.Some? then Got(req.kind, req.pc.stale.value) else Done(ListError))
    case Cancel =>
      s.(reqs := s.reqs - {a.rid}, now := a.now, lock := if HoldsLock(s.reqs[a.rid].pc) then None else s.lock)
  }

  function Initial(empty: nat, now: int): State {
    State(Snapshot(Arc(empty, []), None, map[]), None, map[], now, [])
  }
}
