/** The city endpoints as code over shared state: each method is the stretch between two
    `await`s, and does to the whole state what the interleaving model says. */
module CityServer {
  import opened Prelude
  import opened CityCache
  import opened CityCacheRuns

  class Server {
    const r: Renderer
    const cell: SnapshotCell
    var lock: Option<nat>
    var reqs: map<nat, Request>
    var now: int
    var refreshes: seq<Refresh> // the history that requests are judged by

    ghost function View(): State
      reads this, cell
    {
      State(cell.View(), lock, reqs, now, refreshes)
    }

    ghost predicate Valid()
      reads this, cell
    {
      Inv(r, View())
    }

    constructor (r: Renderer, empty: nat, now: int)
      ensures Valid() && View() == Initial(empty, now) && this.r == r && fresh(cell)
    {
      this.r, this.now, lock, reqs, refreshes := r, now, None, map[], [];
      cell := new SnapshotCell(r, Arc(empty, []));
      new;
      InitialInv(r, empty, now);
    }

    /** Suspends a request at its next `await`, taking or dropping the refresh lock. */
    method Suspend(rid: nat, pc: Pc)
      requires rid in reqs
      modifies this`reqs, this`lock
      ensures reqs == old(reqs)[rid := old(reqs)[rid].(pc := pc)]
      ensures lock == if HoldsLock(pc) then Some(rid) else if HoldsLock(old(reqs)[rid].pc) then None else old(lock)
    {
      var req := reqs[rid];
      if HoldsLock(pc) { lock := Some(rid); } else if HoldsLock(req.pc) { lock := None; }
      reqs := reqs[rid := req.(pc := pc)];
    }

    method Arrive(rid: nat, kind: Kind, at: int)
      requires Valid() && Enabled(View(), Action(rid, Event.Arrive(kind), at))
      modifies this
      ensures Valid() && View() == Apply(r, old(View()), Action(rid, Event.Arrive(kind), at))
    {
      StepKeepsInv(r, View(), Action(rid, Event.Arrive(kind), at));
      var pc := if kind.Page? && !(1 <= kind.limit <= MAX_LIMIT) then Done(InvalidLimit) else WantCached;
      reqs, now := reqs[rid := Request(kind, pc, |refreshes|)], at;
    }

    lemma HeldIsKnown(rid: nat, items: Arc)
      requires Valid() && rid in reqs && items in ArcsOf(reqs[rid].pc)
      ensures cell.Knows(items)
    {
      assert Held(View(), items) && Held(View(), cell.items);
    }

    /** What a request does when it resumes, where that only reads the snapshot. */
    method Read(rid: nat, at: int) returns (pc: Pc)
      requires Valid() && Enabled(View(), Action(rid, Event.Resume, at))
      requires !reqs[rid].pc.WantReplace? && !reqs[rid].pc.WantStore?
      ensures pc == Resumed(r, View(), reqs[rid], at)
    {
      var req := reqs[rid];
      if req.pc.WantCached? || req.pc.Recheck? {
        var found := cell.CachedSnapshot(Some(MAX_AGE), at);
        pc := if found.Some? then Got(req.kind, found.value) else if req.pc.WantCached? then WantLock else WantStale;
      } else if req.pc.WantLock? {
        pc := Recheck;
      } else if req.pc.WantStale? {
        var stale := cell.CachedSnapshot(None, at);
        pc := Reading(stale);
      } else {
        pc := Render(rid);
      }
    }

    /** The page found, or rendered to be stored. */
    method Render(rid: nat) returns (pc: Pc)
      requires Valid() && rid in reqs && reqs[rid].pc.WantHit?
      ensures forall at :: pc == Resumed(r, View(), reqs[rid], at)
      ensures var items, limit := reqs[rid].pc.items, LimitOf(reqs[rid].kind);
              && (pc.WantStore? ==> ShowsFirst(r, items.cities, limit, pc.page))
              && (pc.Done? && pc.answer.PageOk? ==> ShowsFirst(r, items.cities, limit, pc.answer.page))
    {
      var req := reqs[rid];
      var items, limit := req.pc.items, LimitOf(req.kind);
      HeldIsKnown(rid, items);
      var hit := cell.Lookup(r, items, limit);
      if hit.Some? {
        RenderedShows(r, items.cities, limit, hit.value);
        return Done(PageOk(hit.value));
      }
      var page := RenderPage(r, items.cities, limit);
      if page.Some? { RenderedShows(r, items.cities, limit, page.value); }
      pc := if page.Some? then WantStore(items, page.value) else Done(SerializationError);
    }

    /** The write of a refreshed snapshot. */
    method Refreshed(rid: nat, at: int)
      requires Valid() && Enabled(View(), Action(rid, Event.Resume, at)) && reqs[rid].pc.WantReplace?
      modifies this, cell
      ensures Valid() && View() == Apply(r, old(View()), Action(rid, Event.Resume, at))
    {
      StepKeepsInv(r, View(), Action(rid, Event.Resume, at));
      var req := reqs[rid];
      cell.Replace(r, req.pc.fetched, at);
      assert cell.View() == Replaced(req.pc.fetched, at);
      refreshes, now := refreshes + [Refresh(at, req.pc.fetched.cities)], at;
      Suspend(rid, Got(req.kind, req.pc.fetched));
    }

    /** The page that a request rendered goes into the snapshot, if that is still the one. */
    method Keep(rid: nat)
      requires Valid() && rid in reqs && reqs[rid].pc.WantStore?
      modifies cell`rendered
      ensures cell.View() == CityCache.Stored(old(cell.View()), reqs[rid].pc.items, LimitOf(reqs[rid].kind), reqs[rid].pc.page)
    {
      var req := reqs[rid];
      assert RequestInv(r, cell.View(), refreshes, now, req);
      HeldIsKnown(rid, req.pc.items);
      cell.Store(r, req.pc.items, LimitOf(req.kind), req.pc.page);
    }

    /** The write of a rendered page. */
    method Stored(rid: nat, at: int)
      requires Valid() && Enabled(View(), Action(rid, Event.Resume, at)) && reqs[rid].pc.WantStore?
      modifies this, cell
      ensures Valid() && View() == Apply(r, old(View()), Action(rid, Event.Resume, at))
    {
      StepKeepsInv(r, View(), Action(rid, Event.Resume, at));
      Keep(rid);
      var page := reqs[rid].pc.page;
      now := at;
      Suspend(rid, Done(PageOk(page)));
    }

    /** A request goes on to its next `await`. */
    method Resume(rid: nat, at: int)
      requires Valid() && Enabled(View(), Action(rid, Event.Resume, at))
      modifies this, cell
      ensures Valid() && View() == Apply(r, old(View()), Action(rid, Event.Resume, at))
    {
      if reqs[rid].pc.WantReplace? {
        Refreshed(rid, at);
      } else if reqs[rid].pc.WantStore? {
        Stored(rid, at);
      } else {
        StepKeepsInv(r, View(), Action(rid, Event.Resume, at));
        var pc := Read(rid, at);
        now := at;
        Suspend(rid, pc);
      }
    }

    /** The city read returns. */
    method ReadReturns(rid: nat, cities: seq<City>, addr: nat, at: int)
      requires Valid() && Enabled(View(), Action(rid, Event.ReadOk(cities, addr), at))
      modifies this
      ensures Valid() && View() == Apply(r, old(View()), Action(rid, Event.ReadOk(cities, addr), at))
    {
      StepKeepsInv(r, View(), Action(rid, Event.ReadOk(cities, addr), at));
      now := at;
      Suspend(rid, WantReplace(Arc(addr, cities)));
    }

    /** The city read fails: the previous snapshot is served, if there was one. */
    method ReadFails(rid: nat, at: int)
      requires Valid() && Enabled(View(), Action(rid, Event.ReadFails, at))
      modifies this
      ensures Valid() && View() == Apply(r, old(View()), Action(rid, Event.ReadFails, at))
    {
      StepKeepsInv(r, View(), Action(rid, Event.ReadFails, at));
      var req := reqs[rid];
      now := at;
      Suspend(rid, if req.pc.stale.Some? then Got(req.kind, req.pc.stale.value) else Done(ListError));
    }

    /** A request is dropped, and a lock guard with it. */
    method Drop(rid: nat, at: int)
      requires Valid() && Enabled(View(), Action(rid, Event.Cancel, at))
      modifies this
      ensures Valid() && View() == Apply(r, old(View()), Action(rid, Event.Cancel, at))
    {
      StepKeepsInv(r, View(), Action(rid, Event.Cancel, at));
      if HoldsLock(reqs[rid].pc) { lock := None; }
      reqs, now := reqs - {rid}, at;
    }
  }
}
