/** What each step of a request leads to, told from the refreshes so far. */
module CityAnswers {
  import opened Prelude
  import opened CityCache
  import opened CityCacheRuns

  /** The refresh that is current, if there was one. */
  function Last(h: seq<Refresh>): Refresh
    requires h != []
  {
    h[|h| - 1]
  }

  /** The request is answered for these cities, or goes on to the page of them. */
  ghost predicate GoesOnWith(kind: Kind, cities: seq<City>, pc: Pc) {
    match kind
    case Page(_) => pc.WantHit? && pc.items.cities == cities
    case Slug(slug) => pc.Done? && pc.answer.CityId? && NamesFirst(cities, slug, pc.answer.id)
  }

  lemma GotGoesOn(kind: Kind, items: Arc)
    ensures GoesOnWith(kind, items.cities, Got(kind, items))
  {
    if kind.Slug? { FoundIsFirst(items.cities, kind.slug); }
  }

  /** A page is refused at once for a limit outside 1..100, and nothing else is. */
  lemma ArrivalIs(r: Renderer, s: State, a: Action)
    requires Enabled(s, a) && a.event.Arrive?
    ensures var req := Apply(r, s, a).reqs[a.rid];
            && req.kind == a.event.kind && req.since == |s.refreshes|
            && req.pc == if req.kind.Page? && (req.kind.limit == 0 || req.kind.limit > 100) then Done(InvalidLimit) else WantCached
  {
  }

  /** A snapshot within its age is served without a read; an older one sends the request to
      the lock and, once it holds that, to the read, with what there is to fall back on. */
  lemma FreshSnapshotIsServed(r: Renderer, states: seq<State>, actions: seq<Action>, i: nat)
    requires ValidRun(r, states, actions) && i < |actions| && actions[i].event.Resume?
    requires var pc := states[i].reqs[actions[i].rid].pc; pc.WantCached? || pc.Recheck?
    ensures var h, rid := states[i].refreshes, actions[i].rid;
            var before, after := states[i].reqs[rid], states[i + 1].reqs[rid].pc;
            if h != [] && actions[i].now - Last(h).at <= 300_000_000_000 then GoesOnWith(before.kind, Last(h).cities, after)
            else after == if before.pc.WantCached? then WantLock else WantStale
  {
    Reachable(r, states, actions, i);
    GotGoesOn(states[i].reqs[actions[i].rid].kind, states[i].snap.items);
  }

  /** A read that fails falls back on the last refresh, and on the error if there is none. */
  lemma FailedReadFallsBack(r: Renderer, states: seq<State>, actions: seq<Action>, i: nat)
    requires ValidRun(r, states, actions) && i < |actions| && actions[i].event.ReadFails?
    ensures var h, rid := states[i].refreshes, actions[i].rid;
            var kind, after := states[i].reqs[rid].kind, states[i + 1].reqs[rid].pc;
            && states[i + 1].refreshes == h && states[i + 1].snap == states[i].snap && states[i + 1].lock == None
            && if h == [] then after == Done(ListError) else GoesOnWith(kind, Last(h).cities, after)
  {
    Reachable(r, states, actions, i);
    var s, rid := states[i], actions[i].rid;
    assert RequestInv(r, s.snap, s.refreshes, s.now, s.reqs[rid]);
    GotGoesOn(s.reqs[rid].kind, s.snap.items);
  }

  /** A read that returned becomes the current snapshot, with no page, and serves the request
      that started it. */
  lemma ReadBecomesCurrent(r: Renderer, states: seq<State>, actions: seq<Action>, i: nat)
    requires ValidRun(r, states, actions) && i < |actions| && actions[i].event.Resume?
    requires states[i].reqs[actions[i].rid].pc.WantReplace?
    ensures var rid, s' := actions[i].rid, states[i + 1];
            var req := states[i].reqs[rid];
            && s'.refreshes == states[i].refreshes + [Refresh(actions[i].now, req.pc.fetched.cities)]
            && s'.snap.items == req.pc.fetched && s'.snap.rendered == map[] && s'.lock == None
            && GoesOnWith(req.kind, req.pc.fetched.cities, s'.reqs[rid].pc)
  {
    Reachable(r, states, actions, i);
    GotGoesOn(states[i].reqs[actions[i].rid].kind, states[i].reqs[actions[i].rid].pc.fetched);
  }

  /** The stored page of the current items is the answer; without one the page is rendered
      from the items held, or the request ends with the serializer's error. */
  lemma StoredPageIsServed(r: Renderer, states: seq<State>, actions: seq<Action>, i: nat)
    requires ValidRun(r, states, actions) && i < |actions| && actions[i].event.Resume?
    requires states[i].reqs[actions[i].rid].pc.WantHit?
    ensures var s, rid := states[i], actions[i].rid;
            var items, after := s.reqs[rid].pc.items, states[i + 1].reqs[rid].pc;
            && s.reqs[rid].kind.Page?
            && var limit := s.reqs[rid].kind.limit;
               if items == s.snap.items && limit in s.snap.rendered then after == Done(PageOk(s.snap.rendered[limit]))
               else if after.WantStore? then after.items == items && ShowsFirst(r, items.cities, limit, after.page)
               else after == Done(SerializationError)
                    && exists shown :: shown <= items.cities && |shown| == (if limit < |items.cities| then limit else |items.cities|)
                                       && r.serialize(shown) == None
  {
    Reachable(r, states, actions, i);
    var s, rid := states[i], actions[i].rid;
    var items := s.reqs[rid].pc.items;
    assert RequestInv(r, s.snap, s.refreshes, s.now, s.reqs[rid]);
    assert Held(s, items) by { assert items in ArcsOf(s.reqs[rid].pc); }
    var after, limit := states[i + 1].reqs[rid].pc, s.reqs[rid].kind.limit;
    if after.WantStore? { RenderedShows(r, items.cities, limit, after.page); }
    if after == Done(SerializationError) { assert Take(items.cities, limit) <= items.cities; }
  }

  /** A rendered page is answered, and stored for the next request exactly if its items are
      current. */
  lemma RenderedPageIsKept(r: Renderer, states: seq<State>, actions: seq<Action>, i: nat)
    requires ValidRun(r, states, actions) && i < |actions| && actions[i].event.Resume?
    requires states[i].reqs[actions[i].rid].pc.WantStore?
    ensures var s, rid, snap' := states[i], actions[i].rid, states[i + 1].snap;
            var req := s.reqs[rid];
            && req.kind.Page? && states[i + 1].reqs[rid].pc == Done(PageOk(req.pc.page))
            && snap' == if req.pc.items == s.snap.items then s.snap.(rendered := s.snap.rendered[req.kind.limit := req.pc.page]) else s.snap
  {
    Reachable(r, states, actions, i);
    var s, rid := states[i], actions[i].rid;
    assert RequestInv(r, s.snap, s.refreshes, s.now, s.reqs[rid]);
    assert Held(s, s.reqs[rid].pc.items) by { assert s.reqs[rid].pc.items in ArcsOf(s.reqs[rid].pc); }
  }
}
