/** What every interleaving of requests, refreshes and dropped requests keeps. */
module CityCacheRuns {
  import opened Prelude
  import opened CityCache

  // ---------------------------------------------------------------------------
  // The invariant

  ghost predicate LockInv(s: State) {
    && (s.lock.Some? ==> s.lock.value in s.reqs && HoldsLock(s.reqs[s.lock.value].pc))
    && (forall rid | rid in s.reqs && HoldsLock(s.reqs[rid].pc) :: s.lock == Some(rid))
  }

  /** One address, one contents, among everything held. */
  ghost predicate ArcInv(s: State) {
    forall x, y | Held(s, x) && Held(s, y) :: x.addr == y.addr ==> x == y
  }

  /** Every stored page is what rendering the current snapshot would give. */
  ghost predicate RenderedInv(r: Renderer, snap: Snapshot) { PagesDescribe(r, snap.items, snap.rendered) }

  ghost predicate HistoryInv(s: State) {
    && (s.refreshes == [] ==> s.snap.refreshedAt == None)
    && (s.refreshes != [] ==> s.snap.refreshedAt == Some(s.refreshes[|s.refreshes| - 1].at)
                              && s.snap.items.cities == s.refreshes[|s.refreshes| - 1].cities
                              && s.refreshes[|s.refreshes| - 1].at <= s.now)
    && (forall i | 0 < i < |s.refreshes| :: s.refreshes[i].at > s.refreshes[i - 1].at + MAX_AGE)
  }

  /** Refresh v was current when the request arrived, or completed since. */
  ghost predicate Seen(h: seq<Refresh>, since: nat, v: int) { 0 <= v < |h| && v + 1 >= since }

  ghost predicate FromHistory(h: seq<Refresh>, since: nat, cities: seq<City>) {
    exists v :: Seen(h, since, v) && h[v].cities == cities
  }

  /** The page of a city list some read returned, current at some point of the request. */
  ghost predicate PageFromHistory(r: Renderer, h: seq<Refresh>, since: nat, limit: nat, page: Rendered) {
    exists v :: Seen(h, since, v) && RenderPage(r, h[v].cities, limit) == Some(page)
  }

  ghost predicate SlugFromHistory(h: seq<Refresh>, since: nat, slug: string, id: Option<nat>) {
    exists v :: Seen(h, since, v) && id == FindSlug(h[v].cities, slug)
  }

  ghost predicate RequestInv(r: Renderer, snap: Snapshot, h: seq<Refresh>, now: int, req: Request) {
    && req.since <= |h|
    && (req.kind.Page? && !req.pc.Done? ==> 1 <= req.kind.limit <= MAX_LIMIT)
    && match req.pc
       case WantStale => Expired(snap, now)
       case Reading(stale) => Expired(snap, now) && stale == Cached(snap, None, now)
       case WantReplace(_) => Expired(snap, now)
       case WantHit(items) => req.kind.Page? && FromHistory(h, req.since, items.cities)
       case WantStore(items, page) =>
         req.kind.Page? && FromHistory(h, req.since, items.cities)
         && RenderPage(r, items.cities, req.kind.limit) == Some(page)
       case Done(PageOk(page)) => req.kind.Page? && PageFromHistory(r, h, req.since, req.kind.limit, page)
       case Done(CityId(id)) => req.kind.Slug? && SlugFromHistory(h, req.since, req.kind.slug, id)
       case _ => true
  }

  ghost predicate RequestsInv(r: Renderer, s: State) {
    forall rid | rid in s.reqs :: RequestInv(r, s.snap, s.refreshes, s.now, s.reqs[rid])
  }

  ghost predicate Inv(r: Renderer, s: State) {
    LockInv(s) && ArcInv(s) && RenderedInv(r, s.snap) && HistoryInv(s) && RequestsInv(r, s)
  }

  lemma InitialInv(r: Renderer, empty: nat, now: int)
    ensures Inv(r, Initial(empty, now))
  {
  }

  lemma StepKeepsLockInv(r: Renderer, s: State, a: Action)
    requires LockInv(s) && Enabled(s, a)
    ensures LockInv(Apply(r, s, a))
  {
  }

  /** Only a finished read puts a new `Arc` in anyone's hands. */
  lemma HeldBefore(r: Renderer, s: State, a: Action, arc: Arc)
    requires Enabled(s, a) && Held(Apply(r, s, a), arc)
    ensures Held(s, arc) || (a.event.ReadOk? && arc == Arc(a.event.addr, a.event.cities))
  {
    var s' := Apply(r, s, a);
    if a.event.Resume? {
      assert ArcsOf(s'.reqs[a.rid].pc) <= ArcsOf(s.reqs[a.rid].pc) + {s.snap.items};
    }
    if arc != s'.snap.items {
      var rid :| rid in s'.reqs && arc in ArcsOf(s'.reqs[rid].pc);
      if rid != a.rid { assert rid in s.reqs && arc in ArcsOf(s.reqs[rid].pc); }
    }
  }

  lemma StepKeepsArcInv(r: Renderer, s: State, a: Action)
    requires ArcInv(s) && Enabled(s, a)
    ensures ArcInv(Apply(r, s, a))
  {
    var s' := Apply(r, s, a);
    forall x, y | Held(s', x) && Held(s', y) ensures x.addr == y.addr ==> x == y {
      HeldBefore(r, s, a, x);
      HeldBefore(r, s, a, y);
    }
  }

  lemma StepKeepsRenderedInv(r: Renderer, s: State, a: Action)
    requires Inv(r, s) && Enabled(s, a)
    ensures RenderedInv(r, Apply(r, s, a).snap)
  {
    if a.event.Resume? && s.reqs[a.rid].pc.WantStore? {
      var pc := s.reqs[a.rid].pc;
      assert pc.items in ArcsOf(pc);
      assert Held(s, pc.items);
    }
  }

  lemma StepKeepsHistoryInv(r: Renderer, s: State, a: Action)
    requires Inv(r, s) && Enabled(s, a)
    ensures HistoryInv(Apply(r, s, a))
  {
  }

  lemma HistoryOnlyGrows(r: Renderer, h: seq<Refresh>, h': seq<Refresh>, since: nat)
    requires h <= h'
    ensures forall c :: FromHistory(h, since, c) ==> FromHistory(h', since, c)
    ensures forall limit, page :: PageFromHistory(r, h, since, limit, page) ==> PageFromHistory(r, h', since, limit, page)
    ensures forall slug, id :: SlugFromHistory(h, since, slug, id) ==> SlugFromHistory(h', since, slug, id)
  {
    assert forall v | Seen(h, since, v) :: Seen(h', since, v) && h'[v] == h[v];
  }

  lemma CurrentIsSeen(s: State, since: nat)
    requires HistoryInv(s) && s.refreshes != [] && since <= |s.refreshes|
    ensures FromHistory(s.refreshes, since, s.snap.items.cities)
  {
    assert Seen(s.refreshes, since, |s.refreshes| - 1);
  }

  /** Once `resilient_snapshot` has items, what follows describes them. */
  lemma GotKeepsRequestInv(r: Renderer, snap: Snapshot, h: seq<Refresh>, now: int, req: Request, items: Arc)
    requires req.since <= |h| && FromHistory(h, req.since, items.cities)
    requires req.kind.Page? ==> 1 <= req.kind.limit <= MAX_LIMIT
    ensures RequestInv(r, snap, h, now, req.(pc := Got(req.kind, items)))
  {
    if req.kind.Slug? {
      var v :| Seen(h, req.since, v) && h[v].cities == items.cities;
      assert FindSlug(items.cities, req.kind.slug) == FindSlug(h[v].cities, req.kind.slug);
      assert SlugFromHistory(h, req.since, req.kind.slug, FindSlug(items.cities, req.kind.slug));
    }
  }

  lemma PageOfSeenItems(r: Renderer, h: seq<Refresh>, since: nat, items: Arc, limit: nat, page: Rendered)
    requires FromHistory(h, since, items.cities) && RenderPage(r, items.cities, limit) == Some(page)
    ensures PageFromHistory(r, h, since, limit, page)
  {
    var v :| Seen(h, since, v) && h[v].cities == items.cities;
    assert RenderPage(r, h[v].cities, limit) == Some(page);
  }

  lemma MovedRequestInv(r: Renderer, s: State, a: Action)
    requires Inv(r, s) && Enabled(s, a) && a.event.Resume?
    ensures var s' := Apply(r, s, a); RequestInv(r, s'.snap, s'.refreshes, s'.now, s'.reqs[a.rid])
  {
    var s' := Apply(r, s, a);
    var req := s.reqs[a.rid];
    assert RequestInv(r, s.snap, s.refreshes, s.now, req);
    match req.pc
    case WantCached =>
      if !Expired(s.snap, a.now) {
        CurrentIsSeen(s, req.since);
        GotKeepsRequestInv(r, s'.snap, s'.refreshes, a.now, req, s.snap.items);
      }
    case Recheck =>
      if !Expired(s.snap, a.now) {
        CurrentIsSeen(s, req.since);
        GotKeepsRequestInv(r, s'.snap, s'.refreshes, a.now, req, s.snap.items);
      }
    case WantReplace(fetched) =>
      StepKeepsHistoryInv(r, s, a);
      CurrentIsSeen(s', req.since);
      GotKeepsRequestInv(r, s'.snap, s'.refreshes, a.now, req, fetched);
    case WantHit(items) =>
      assert Held(s, items) by { assert items in ArcsOf(req.pc); }
      var hit := Hit(s.snap, items, LimitOf(req.kind));
      if hit.Some? {
        assert items == s.snap.items;
        PageOfSeenItems(r, s.refreshes, req.since, items, req.kind.limit, hit.value);
      }
    case WantStore(items, page) => PageOfSeenItems(r, s.refreshes, req.since, items, req.kind.limit, page);
    case _ =>
  }

  lemma OtherRequestInv(r: Renderer, s: State, a: Action, rid: nat)
    requires Inv(r, s) && Enabled(s, a) && rid in s.reqs && rid != a.rid
    ensures var s' := Apply(r, s, a);
            rid in s'.reqs && RequestInv(r, s'.snap, s'.refreshes, s'.now, s'.reqs[rid])
  {
    var s' := Apply(r, s, a);
    assert RequestInv(r, s.snap, s.refreshes, s.now, s.reqs[rid]);
    HistoryOnlyGrows(r, s.refreshes, s'.refreshes, s.reqs[rid].since);
  }

  lemma OwnRequestInv(r: Renderer, s: State, a: Action)
    requires Inv(r, s) && Enabled(s, a) && a.rid in Apply(r, s, a).reqs
    ensures var s' := Apply(r, s, a); RequestInv(r, s'.snap, s'.refreshes, s'.now, s'.reqs[a.rid])
  {
    var s' := Apply(r, s, a);
    if a.event.Resume? {
      MovedRequestInv(r, s, a);
    } else if a.event.ReadFails? {
      var req := s.reqs[a.rid];
      assert RequestInv(r, s.snap, s.refreshes, s.now, req);
      if req.pc.stale.Some? {
        CurrentIsSeen(s, req.since);
        GotKeepsRequestInv(r, s'.snap, s'.refreshes, a.now, req, req.pc.stale.value);
      }
    } else if a.event.ReadOk? {
      assert RequestInv(r, s.snap, s.refreshes, s.now, s.reqs[a.rid]);
    }
  }

  lemma StepKeepsRequestsInv(r: Renderer, s: State, a: Action)
    requires Inv(r, s) && Enabled(s, a)
    ensures RequestsInv(r, Apply(r, s, a))
  {
    var s' := Apply(r, s, a);
    forall rid | rid in s'.reqs ensures RequestInv(r, s'.snap, s'.refreshes, s'.now, s'.reqs[rid]) {
      if rid == a.rid { OwnRequestInv(r, s, a); } else { OtherRequestInv(r, s, a, rid); }
    }
  }

  lemma StepKeepsInv(r: Renderer, s: State, a: Action)
    requires Inv(r, s) && Enabled(s, a)
    ensures Inv(r, Apply(r, s, a))
  {
    StepKeepsLockInv(r, s, a);
    StepKeepsArcInv(r, s, a);
    StepKeepsRenderedInv(r, s, a);
    StepKeepsHistoryInv(r, s, a);
    StepKeepsRequestsInv(r, s, a);
  }

  // ---------------------------------------------------------------------------
  // Whole runs

  ghost predicate ValidRun(r: Renderer, states: seq<State>, actions: seq<Action>) {
    && |states| == |actions| + 1
    && (exists empty, now :: states[0] == Initial(empty, now))
    && forall i | 0 <= i < |actions| :: Enabled(states[i], actions[i]) && states[i + 1] == Apply(r, states[i], actions[i])
  }

  lemma {:induction false} Reachable(r: Renderer, states: seq<State>, actions: seq<Action>, i: nat)
    requires ValidRun(r, states, actions) && i <= |actions|
    ensures Inv(r, states[i])
  {
    if i == 0 {
      var empty, now :| states[0] == Initial(empty, now);
      InitialInv(r, empty, now);
    } else {
      Reachable(r, states, actions, i - 1);
      StepKeepsInv(r, states[i - 1], actions[i - 1]);
    }
  }

  /** A page shows the first cities of a list, as many as asked for or as there are, in the
      list's order, under the tag of its own text. */
  ghost predicate ShowsFirst(r: Renderer, cities: seq<City>, limit: nat, page: Rendered) {
    && page.etag == "\"cities-" + r.digest(page.body) + "\""
    && exists shown :: shown <= cities && |shown| == (if limit < |cities| then limit else |cities|)
                       && r.serialize(shown) == Some(page.body)
  }

  lemma RenderedShows(r: Renderer, cities: seq<City>, limit: nat, page: Rendered)
    requires RenderPage(r, cities, limit) == Some(page)
    ensures ShowsFirst(r, cities, limit, page)
  {
    var shown := Take(cities, limit);
    assert shown <= cities && r.serialize(shown) == Some(page.body);
  }

  /** The id of the first city of that name, or none if no city has it. */
  ghost predicate NamesFirst(cities: seq<City>, slug: string, id: Option<nat>) {
    match id
    case None => forall k | 0 <= k < |cities| :: cities[k].slug != slug
    case Some(n) =>
      exists k | 0 <= k < |cities| :: cities[k].slug == slug && cities[k].id == n && forall j | 0 <= j < k :: cities[j].slug != slug
  }

  lemma {:induction false} FoundIsFirst(cities: seq<City>, slug: string)
    ensures NamesFirst(cities, slug, FindSlug(cities, slug))
  {
    if cities != [] && cities[0].slug != slug {
      var rest := cities[1..];
      FoundIsFirst(rest, slug);
      assert forall k | 0 < k < |cities| :: cities[k] == rest[k - 1];
      if FindSlug(rest, slug).Some? {
        var k :| 0 <= k < |rest| && rest[k].slug == slug && rest[k].id == FindSlug(rest, slug).value
                 && forall j | 0 <= j < k :: rest[j].slug != slug;
        assert cities[k + 1].slug == slug && forall j | 0 <= j < k + 1 :: cities[j].slug != slug;
      }
    }
  }

  /** In every reachable state a stored page shows the first of the current cities. */
  lemma StoredPagesDescribeCurrentSnapshot(r: Renderer, states: seq<State>, actions: seq<Action>, i: nat, limit: nat)
    requires ValidRun(r, states, actions) && i <= |actions| && limit in states[i].snap.rendered
    ensures ShowsFirst(r, states[i].snap.items.cities, limit, states[i].snap.rendered[limit])
  {
    Reachable(r, states, actions, i);
    RenderedShows(r, states[i].snap.items.cities, limit, states[i].snap.rendered[limit]);
  }

  /** A cache hit, and equally a fresh render, answers with the first cities of exactly the
      items the request holds; and a page rendered from any other items is not stored. */
  lemma HitEqualsFreshRender(r: Renderer, states: seq<State>, actions: seq<Action>, i: nat)
    requires ValidRun(r, states, actions) && i < |actions| && actions[i].event.Resume?
    requires states[i].reqs[actions[i].rid].pc.WantHit? || states[i].reqs[actions[i].rid].pc.WantStore?
    ensures var req, after := states[i].reqs[actions[i].rid], states[i + 1].reqs[actions[i].rid];
            && req.kind.Page?
            && (after.pc.Done? && after.pc.answer.PageOk? ==>
                  ShowsFirst(r, req.pc.items.cities, req.kind.limit, after.pc.answer.page))
            && (req.pc.items != states[i].snap.items ==> states[i + 1].snap == states[i].snap)
  {
    Reachable(r, states, actions, i);
    var s, req := states[i], states[i].reqs[actions[i].rid];
    assert RequestInv(r, s.snap, s.refreshes, s.now, req);
    assert Held(s, req.pc.items) by { assert req.pc.items in ArcsOf(req.pc); }
    var after := states[i + 1].reqs[actions[i].rid];
    if after.pc.Done? && after.pc.answer.PageOk? {
      RenderedShows(r, req.pc.items.cities, req.kind.limit, after.pc.answer.page);
    }
  }

  /** Whatever a request answers describes a city list that a successful read returned
      and that was the current one at some point while the request ran. */
  lemma AnswersAreSeenSnapshots(r: Renderer, states: seq<State>, actions: seq<Action>, i: nat, rid: nat)
    requires ValidRun(r, states, actions) && i <= |actions| && rid in states[i].reqs && states[i].reqs[rid].pc.Done?
    ensures var req, h := states[i].reqs[rid], states[i].refreshes;
            && (req.pc.answer.PageOk? ==>
                  req.kind.Page? && exists v :: Seen(h, req.since, v) && ShowsFirst(r, h[v].cities, req.kind.limit, req.pc.answer.page))
            && (req.pc.answer.CityId? ==>
                  req.kind.Slug? && exists v :: Seen(h, req.since, v) && NamesFirst(h[v].cities, req.kind.slug, req.pc.answer.id))
  {
    Reachable(r, states, actions, i);
    var req, h := states[i].reqs[rid], states[i].refreshes;
    assert RequestInv(r, states[i].snap, h, states[i].now, req);
    if req.pc.answer.PageOk? {
      var v :| Seen(h, req.since, v) && RenderPage(r, h[v].cities, req.kind.limit) == Some(req.pc.answer.page);
      RenderedShows(r, h[v].cities, req.kind.limit, req.pc.answer.page);
    } else if req.pc.answer.CityId? {
      var v :| Seen(h, req.since, v) && req.pc.answer.id == FindSlug(h[v].cities, req.kind.slug);
      FoundIsFirst(h[v].cities, req.kind.slug);
    }
  }

  lemma AtMostOneReadInFlight(r: Renderer, states: seq<State>, actions: seq<Action>, i: nat, x: nat, y: nat)
    requires ValidRun(r, states, actions) && i <= |actions|
    requires x in states[i].reqs && states[i].reqs[x].pc.Reading? && y in states[i].reqs && states[i].reqs[y].pc.Reading?
    ensures x == y
  {
    Reachable(r, states, actions, i);
  }

  /** A read starts only when no refresh has completed within the last 300 seconds, and
      successful refreshes are therefore further apart than that. */
  lemma ReadsStartOnlyAfterMaxAge(r: Renderer, states: seq<State>, actions: seq<Action>, i: nat)
    requires ValidRun(r, states, actions) && i < |actions|
    ensures var h := states[i].refreshes;
            && (actions[i].event.Resume? && states[i + 1].reqs[actions[i].rid].pc.Reading? ==>
                  h == [] || actions[i].now > h[|h| - 1].at + 300_000_000_000)
            && (forall j | 0 < j < |h| :: h[j].at > h[j - 1].at + 300_000_000_000)
  {
    Reachable(r, states, actions, i);
    var s, a := states[i], actions[i];
    if a.event.Resume? {
      assert RequestInv(r, s.snap, s.refreshes, s.now, s.reqs[a.rid]);
    }
  }

  lemma {:induction false} RefreshesOnlyGrow(r: Renderer, states: seq<State>, actions: seq<Action>, i: nat, j: nat)
    requires ValidRun(r, states, actions) && i <= j <= |actions|
    ensures states[i].refreshes <= states[j].refreshes
    decreases j
  {
    if i < j {
      RefreshesOnlyGrow(r, states, actions, i, j - 1);
      assert states[j] == Apply(r, states[j - 1], actions[j - 1]);
    }
  }

  /** After the first successful refresh no request is ever answered with the
      repository's error. */
  lemma NoErrorAfterFirstRefresh(r: Renderer, states: seq<State>, actions: seq<Action>, i: nat, j: nat)
    requires ValidRun(r, states, actions) && i <= j < |actions| && states[i].refreshes != []
    requires actions[j].rid in states[j + 1].reqs
    ensures states[j + 1].reqs[actions[j].rid].pc != Done(ListError)
  {
    RefreshesOnlyGrow(r, states, actions, i, j);
    Reachable(r, states, actions, j);
    var s, a := states[j], actions[j];
    if !a.event.Arrive? {
      assert RequestInv(r, s.snap, s.refreshes, s.now, s.reqs[a.rid]);
    }
  }

  // ---------------------------------------------------------------------------
  // Progress

  /** A bound on how many more of its own steps a request can take. */
  function Rank(pc: Pc): nat {
    match pc
    case WantCached => 8
    case WantLock => 7
    case Recheck => 6
    case WantStale => 5
    case Reading(_) => 4
    case WantReplace(_) => 3
    case WantHit(_) => 2
    case WantStore(_, _) => 1
    case Done(_) => 0
  }

  /** The rank of every request, with 9 for one that has not arrived or was dropped. */
  function RankOf(s: State, rid: nat): nat {
    if rid in s.reqs then Rank(s.reqs[rid].pc) else 9
  }

  ghost predicate Advances(s: State, a: Action) {
    Enabled(s, a) && (a.event.Resume? || a.event.ReadOk? || a.event.ReadFails?)
  }

  /** Any step takes its own request nearer to its answer, or drops it and any lock it
      holds, and takes no other request further from its answer. */
  lemma StepsLowerRank(r: Renderer, s: State, a: Action, rid: nat)
    requires LockInv(s) && Enabled(s, a)
    ensures rid != a.rid ==> RankOf(Apply(r, s, a), rid) == RankOf(s, rid)
    ensures rid == a.rid && !a.event.Cancel? ==> RankOf(Apply(r, s, a), rid) < RankOf(s, rid)
    ensures rid == a.rid && a.event.Cancel? ==> rid !in Apply(r, s, a).reqs && Apply(r, s, a).lock != Some(rid)
  {
  }

  /** No deadlock: an unanswered request can take a step, or the request that holds the
      refresh lock can. */
  lemma NeverStuck(r: Renderer, states: seq<State>, actions: seq<Action>, i: nat, rid: nat) returns (a: Action)
    requires ValidRun(r, states, actions) && i <= |actions|
    requires rid in states[i].reqs && !states[i].reqs[rid].pc.Done?
    ensures Advances(states[i], a) && (a.rid == rid || states[i].lock == Some(a.rid))
  {
    Reachable(r, states, actions, i);
    var s := states[i];
    var who := if s.reqs[rid].pc.WantLock? && s.lock.Some? then s.lock.value else rid;
    a := Action(who, if s.reqs[who].pc.Reading? then ReadFails else Resume, s.now);
  }
}
