/**
 `HostGraphicsCache` as the program keeps it: fields that the encoders update in place. Every method is
 proved to compute what the functions of `GraphicsSpec` say.
 */
module GraphicsCache {
  import opened Prelude
  import opened KittyProtocol
  import opened GraphicsSpec
  import opened GraphicsMirror
  import opened GraphicsDrain
  import opened GraphicsPaint
  import Ordering

  /** The pass of the reference encoder and its final deletions make up its commands. */
  lemma LegacyJoins(c: Cache, list: seq<HostPlacement>, viewChanged: bool, r: Pass1, deletes: seq<Command>)
    requires r == LegacyScan(LegacyStart(c, list), list, viewChanged)
    requires DeletesPlacements(deletes, LegacyStale(r))
    ensures LegacyCommands(c, list, viewChanged, r.commands + deletes)
    ensures Legacy(c, list, viewChanged) == r.cache.(placements := r.cache.placements - LegacyStale(r))
  {
    assert (r.commands + deletes)[|r.commands|..] == deletes;
  }

  /** What a visit that the specification gives as `v` leaves in the cache and returns. */
  ghost predicate Visits(v: Visit, after: Cache, transaction: seq<Command>, emitted: bool) {
    match v
    case Pass(next) => transaction == [] && after == next
    case Emit(before, sent, commands) => transaction == commands != [] && after == if emitted then before else sent
  }

  ghost predicate IsVisiting(visit: Visitor, budget: Option<nat>) {
    forall c, p {:trigger Asked(c, p)} :: visit(c, p) == VisitPlacement(c, p, budget)
  }

  lemma Associate(a: seq<Command>, b: seq<Command>, c: seq<Command>)
    ensures a + (b + c) == (a + b) + c && b + [] == b
  {
  }

  /** The drain that started in `origin` has come to `c` and emitted `commands`. */
  ghost predicate Draining(ident: Ident, origin: Cache, c: Cache, list: seq<HostPlacement>, live: set<SourceKey>,
                           budget: Option<nat>, replay: bool, incomplete: bool, commands: seq<Command>)
    requires Coherent(ident, list, live) && Faithful(ident, origin)
  {
    && Faithful(ident, c)
    && var rest := if incomplete then Drain(ident, c, list, live, budget, replay) else (c, []);
       Drain(ident, origin, list, live, budget, replay) == (rest.0, commands + rest.1)
  }

  lemma DrainStart(ident: Ident, origin: Cache, list: seq<HostPlacement>, live: set<SourceKey>, budget: Option<nat>,
                   replay: bool)
    requires Coherent(ident, list, live) && Faithful(ident, origin)
    ensures Draining(ident, origin, origin, list, live, budget, replay, true, [])
  {
    var rest := Drain(ident, origin, list, live, budget, replay);
    assert [] + rest.1 == rest.1;
  }

  lemma DrainEnd(ident: Ident, origin: Cache, c: Cache, list: seq<HostPlacement>, live: set<SourceKey>,
                 budget: Option<nat>, replay: bool, commands: seq<Command>)
    requires Coherent(ident, list, live) && Faithful(ident, origin)
    requires Draining(ident, origin, c, list, live, budget, replay, false, commands)
    ensures Drain(ident, origin, list, live, budget, replay) == (c, commands) && Settled(c, list, live, budget)
  {
    assert commands + [] == commands;
    DrainSettles(ident, origin, list, live, budget, replay);
  }

  lemma DrainTurn(ident: Ident, origin: Cache, c: Cache, list: seq<HostPlacement>, live: set<SourceKey>,
                  budget: Option<nat>, replay: bool, o: Outcome, commands: seq<Command>)
    requires Coherent(ident, list, live) && Faithful(ident, origin)
    requires Draining(ident, origin, c, list, live, budget, replay, true, commands)
    requires o == Incremental(Begin(c, replay), list, live, budget)
    ensures Draining(ident, origin, o.cache, list, live, budget, replay, o.incomplete, commands + o.commands)
    ensures o.incomplete ==> Work(Begin(o.cache, replay), list, live) < Work(Begin(c, replay), list, live)
  {
    DrainUnfolds(ident, c, list, live, budget, replay, o);
    if o.incomplete {
      Associate(commands, o.commands, Drain(ident, o.cache, list, live, budget, replay).1);
    } else {
      Associate(commands, o.commands, []);
    }
  }

  /** The frame that was begun in `origin` has come to `c` and emitted `commands`. */
  ghost predicate Painting(ident: Ident, origin: Cache, c: Cache, full: seq<HostPlacement>, live: set<SourceKey>,
                           key: Option<View>, incomplete: bool, commands: seq<Command>)
    requires Coherent(ident, full, live) && Faithful(ident, origin)
  {
    && Faithful(ident, c)
    && var f := Paint(ident, origin, full, live, key);
       if incomplete
       then var rest := Paint(ident, c, full, live, key); f.end == rest.end && f.commands == commands + rest.commands
       else f.end == c && f.commands == commands
  }

  lemma PaintStart(ident: Ident, origin: Cache, full: seq<HostPlacement>, live: set<SourceKey>, key: Option<View>)
    requires Coherent(ident, full, live) && Faithful(ident, origin)
    ensures Painting(ident, origin, origin, full, live, key, true, [])
  {
    var rest := Paint(ident, origin, full, live, key);
    assert [] + rest.commands == rest.commands;
  }

  lemma PaintTurn(ident: Ident, origin: Cache, c: Cache, full: seq<HostPlacement>, live: set<SourceKey>,
                  key: Option<View>, o: Outcome, commands: seq<Command>)
    requires Coherent(ident, full, live) && Faithful(ident, origin)
    requires Painting(ident, origin, c, full, live, key, true, commands) && o == PaintCall(c, full, live, key)
    ensures Painting(ident, origin, o.cache, full, live, key, o.incomplete, commands + o.commands)
    ensures o.incomplete ==> Work(Prepared(o.cache, key), full, live) < Work(Prepared(c, key), full, live)
  {
    PaintUnfolds(ident, c, full, live, key, o);
    if o.incomplete { Associate(commands, o.commands, Paint(ident, o.cache, full, live, key).commands); }
  }

  lemma LessPlacements(all: map<Key, PlacementSignature>, left: map<Key, PlacementSignature>, gone: set<u32>, id: u32)
    requires left == map k | k in all && k.0 !in gone :: all[k]
    ensures (map k | k in left && k.0 != id :: left[k]) == map k | k in all && k.0 !in gone + {id} :: all[k]
  {
  }

  class HostGraphicsCache {
    var images: map<u32, ImageSignature>
    var placements: map<Key, PlacementSignature>
    var sources: map<SourceKey, u32>
    var oversized: map<SourceKey, ImageSignature>
    var continuation: Option<Cursor>
    var view: Option<View>
    var replay: bool
    var replayed: set<Key>

    function State(): Cache
      reads this
    {
      Cache(images, placements, sources, oversized, continuation, view, replay, replayed)
    }

    constructor ()
      ensures State() == EMPTY_CACHE
    {
      images, placements, sources, oversized := map[], map[], map[], map[];
      continuation, view, replay, replayed := None, None, false, {};
    }

    constructor CloneOf(other: HostGraphicsCache)
      ensures State() == other.State()
    {
      images, placements, sources, oversized := other.images, other.placements, other.sources, other.oversized;
      continuation, view, replay, replayed := other.continuation, other.view, other.replay, other.replayed;
    }

    method Assign(other: HostGraphicsCache)
      modifies this
      ensures State() == old(other.State())
    {
      images, placements, sources, oversized := other.images, other.placements, other.sources, other.oversized;
      continuation, view, replay, replayed := other.continuation, other.view, other.replay, other.replayed;
    }

    method ForgetImage(id: u32)
      modifies `images, `placements, `replayed
      ensures State() == DropImage(old(State()), id)
    {
      images := images - {id};
      placements := map k | k in placements && k.0 != id :: placements[k];
      replayed := set k | k in replayed && k.0 != id;
    }

    method ReleaseSupersededSourceImage(source: SourceKey, id: u32) returns (commands: seq<Command>)
      modifies this
      ensures (State(), commands) == Release(old(State()), source, id)
    {
      var previous := if source in sources then Some(sources[source]) else None;
      sources := sources[source := id];
      if previous.None? || previous.value == id || exists s :: s in sources && sources[s] == previous.value {
        return [];
      }
      commands := [DeleteImage(previous.value)];
      ForgetImage(previous.value);
    }

    /** Bring the pixels of `p` to the terminal; false when `p` carries none. */
    method SendPixels(p: HostPlacement) returns (commands: seq<Command>, displayed: bool, sent: bool)
      requires p.Visible()
      modifies this
      ensures sent <==> old(State()).ImageCurrent(p) || p.data != []
      ensures sent ==> (State(), commands, displayed) == SendImage(old(State()), p)
    {
      var id := p.HostId();
      if id in images && images[id] == p.signature {
        return [], false, true;
      }
      if id in images && p.source.PaneLayer? {
        if p.data == [] {
          return [], false, false;
        }
        commands, displayed := [TransmitAndDisplay(id, p.Payload(), p.placementId, p.clip.value)], true;
      } else {
        commands, displayed := [], false;
        if id in images {
          commands := [DeleteImage(id)];
          placements := map k | k in placements && k.0 != id :: placements[k];
          replayed := set k | k in replayed && k.0 != id;
          assert State() == DropImage(old(State()), id).(images := images);
        }
        if p.data == [] {
          return [], false, false;
        }
        commands := commands + [Upload(id, p.Payload())];
      }
      ghost var dropped := DropImage(old(State()), id);
      images := images[id := p.signature];
      assert dropped.images[id := p.signature] == images;
      assert commands == SendImage(old(State()), p).1;
      assert displayed == SendImage(old(State()), p).2;
      assert State() == SendImage(old(State()), p).0;
      sent := true;
    }

    /** None leaves the cache in some intermediate state: the encoder works on a clone and discards it. */
    method EncodePlacementUpdate(p: HostPlacement) returns (transaction: Option<seq<Command>>)
      modifies this
      ensures transaction.None? <==> PlacementUpdate(old(State()), p).None?
      ensures transaction.Some? ==> PlacementUpdate(old(State()), p) == Some((State(), transaction.value))
    {
      if p.clip.None? {
        return None;
      }
      var id, key := p.HostId(), p.Key();
      var imageCurrent := id in images && images[id] == p.signature;
      var placementCurrent := key in placements && placements[key] == p.Placed() && (!replay || key in replayed);
      if imageCurrent && placementCurrent && p.source in sources && sources[p.source] == id {
        return None;
      }
      var pixels, displayed, sent := SendPixels(p);
      if !sent {
        return None;
      }
      var deletes := ReleaseSupersededSourceImage(p.source, id);
      var display := if displayed || placementCurrent then [] else [Display(id, p.placementId, p.clip.value)];
      placements := placements[key := p.Placed()];
      if replay {
        replayed := replayed + {key};
      }
      return Some(pixels + deletes + display);
    }

    method DropDeadSources(live: set<SourceKey>) returns (commands: seq<Command>, emitted: bool, stopped: bool)
      modifies this
      ensures Stage(State(), commands, emitted, stopped)
              == DropDead(old(State()), SortedSources(DeadSources(old(State()), live)), [], false)
    {
      SourceLeqTotal();
      var dead := Ordering.Sort(DeadSources(State(), live), SourceLeq);
      ghost var all := DropDead(State(), dead, [], false);
      assert dead == SortedSources(DeadSources(State(), live));
      commands, emitted, stopped := [], false, false;
      var i := 0;
      assert dead[0..] == dead;
      while i < |dead|
        invariant 0 <= i <= |dead|
        invariant DropDead(State(), dead[i..], commands, emitted) == all
      {
        assert dead[i..][1..] == dead[i + 1..];
        commands, emitted, stopped := DropDeadSource(dead[i], commands, emitted, dead[i..]);
        if stopped {
          return;
        }
        i := i + 1;
      }
      stopped := false;
    }

    method DropDeadSource(source: SourceKey, before: seq<Command>, emittedBefore: bool, ghost dead: seq<SourceKey>)
        returns (commands: seq<Command>, emitted: bool, stopped: bool)
      requires dead != [] && dead[0] == source
      modifies this
      ensures DropDead(old(State()), dead, before, emittedBefore) ==
                if stopped then Stage(State(), commands, emitted, true)
                    else DropDead(State(), dead[1..], commands, emitted)
    {
      commands, emitted, stopped := before, emittedBefore, false;
      if source in sources {
        var id := sources[source];
        var lastReference := !exists s :: s in sources && s != source && sources[s] == id;
        assert lastReference == !State().ReferencedByOther(source, id);
        if emitted && lastReference {
          stopped := true;
          return;
        }
        sources := sources - {source};
        if lastReference {
          commands := commands + [DeleteImage(id)];
          ForgetImage(id);
          emitted := true;
        }
      }
    }

    method RetainWanted(list: seq<HostPlacement>, live: set<SourceKey>)
      modifies this
      ensures State() == Retain(old(State()), list, live)
    {
      var desired := DesiredSources(list);
      sources := map s | s in sources && (s.PaneLayer? || s in desired) :: sources[s];
      oversized := map s | s in oversized && (s in live || s in desired) :: oversized[s];
    }

    method DropStalePlacements(list: seq<HostPlacement>, before: seq<Command>, emittedBefore: bool)
        returns (commands: seq<Command>, emitted: bool, stopped: bool)
      modifies this
      ensures Stage(State(), commands, emitted, stopped)
              == DropStale(old(State()), SortedKeys(StaleKeys(old(State()), list)), before, emittedBefore)
    {
      PairLeqTotal();
      var stale := Ordering.Sort(placements.Keys - DesiredKeys(list), Ordering.PairLeq);
      ghost var all := DropStale(State(), stale, before, emittedBefore);
      commands, emitted := before, emittedBefore;
      var i := 0;
      while i < |stale|
        invariant 0 <= i <= |stale|
        invariant DropStale(State(), stale[i..], commands, emitted) == all
      {
        if emitted {
          return commands, emitted, true;
        }
        var key := stale[i];
        assert stale[i..][1..] == stale[i + 1..];
        commands := commands + [DeletePlacement(key.0, key.1)];
        placements := placements - {key};
        replayed := replayed - {key};
        emitted := true;
        i := i + 1;
      }
      stopped := false;
    }

    /** One visit of the scan. The update is tried on a clone, which replaces the cache only if it is used. */
    method Visit(p: HostPlacement, budget: Option<nat>, emitted: bool) returns (transaction: seq<Command>)
      modifies this
      ensures Visits(VisitPlacement(old(State()), p, budget), State(), transaction, emitted)
    {
      if budget.Some? && p.source in oversized && oversized[p.source] == p.signature {
        return [];
      }
      oversized := oversized - {p.source};
      if !(p.HostId() in images && images[p.HostId()] == p.signature) && !ImageTransactionFits(p, budget) {
        oversized := oversized[p.source := p.signature];
        return [];
      }
      var candidate := new HostGraphicsCache.CloneOf(this);
      var update := candidate.EncodePlacementUpdate(p);
      if update.None? {
        return [];
      }
      transaction := update.value;
      if transaction == [] || !emitted {
        Assign(candidate);
      }
    }

    method VisitAs(p: HostPlacement, budget: Option<nat>, emitted: bool, ghost visit: Visitor)
        returns (transaction: seq<Command>)
      requires IsVisiting(visit, budget)
      modifies this
      ensures Visits(visit(old(State()), p), State(), transaction, emitted)
    {
      assert Asked(State(), p);
      transaction := Visit(p, budget, emitted);
    }

    /** The scan of one call, visiting every placement once from `start` round. */
    method ScanPlacements(list: seq<HostPlacement>, budget: Option<nat>, start: nat, before: seq<Command>,
                          emittedBefore: bool, ghost visit: Visitor) returns (commands: seq<Command>, incomplete: bool)
      requires (list != [] ==> start < |list|) && IsVisiting(visit, budget)
      modifies this
      ensures Outcome(State(), commands, incomplete)
              == Scan(visit, old(State()), list, start, |list|, before, emittedBefore)
    {
      ghost var all := Scan(visit, State(), list, start, |list|, before, emittedBefore);
      var emitted := emittedBefore;
      commands := before;
      var index: nat, offset: nat := start, 0;
      while offset < |list|
        invariant offset <= |list| && (offset < |list| ==> index < |list|)
        invariant Scan(visit, State(), list, index, |list| - offset, commands, emitted) == all
      {
        var transaction := VisitAs(list[index], budget, emitted, visit);
        if transaction != [] {
          if emitted {
            return commands, true;
          }
          continuation := Some(Cursor(list[index].source, list[index].placementId, NextIndex(list, index)));
          commands, emitted := transaction, true;
        }
        index, offset := NextIndex(list, index), offset + 1;
      }
      replay, replayed := false, {};
      incomplete := false;
    }

    /** One call of the incremental encoder. */
    method EncodeIncremental(list: seq<HostPlacement>, live: set<SourceKey>, budget: Option<nat>)
        returns (commands: seq<Command>, incomplete: bool)
      modifies this
      ensures Outcome(State(), commands, incomplete) == Incremental(old(State()), list, live, budget)
    {
      var start := StartIndex(State(), list);
      var emitted, stopped;
      commands, emitted, stopped := DropDeadSources(live);
      if stopped {
        return commands, true;
      }
      RetainWanted(list, live);
      commands, emitted, stopped := DropStalePlacements(list, commands, emitted);
      if stopped {
        return commands, true;
      }
      commands, incomplete := ScanPlacements(list, budget, start, commands, emitted, Visiting(budget));
    }

    /** Call the encoder for one list until it completes. The ghost parameter gives the coherence that makes the loop
        end. */
    method DrainGraphicsUpdates(list: seq<HostPlacement>, live: set<SourceKey>, budget: Option<nat>, ghost ident: Ident)
        returns (commands: seq<Command>)
      requires Coherent(ident, list, live) && Faithful(ident, State())
      modifies this
      ensures (State(), commands) == Drain(ident, old(State()), list, live, budget, false)
      ensures Settled(State(), list, live, budget)
    {
      ghost var origin := State();
      DrainStart(ident, origin, list, live, budget, false);
      commands := [];
      var incomplete := true;
      ghost var work := Work(origin, list, live);
      while incomplete
        invariant Draining(ident, origin, State(), list, live, budget, false, incomplete, commands)
        invariant work == Work(State(), list, live)
        decreases incomplete, work
      {
        commands, incomplete, work := DrainOnce(list, live, budget, commands, ident, origin);
      }
      DrainEnd(ident, origin, State(), list, live, budget, false, commands);
    }

    method DrainOnce(list: seq<HostPlacement>, live: set<SourceKey>, budget: Option<nat>, before: seq<Command>,
                     ghost ident: Ident, ghost origin: Cache)
        returns (commands: seq<Command>, incomplete: bool, ghost work: nat)
      requires Coherent(ident, list, live) && Faithful(ident, origin)
      requires Draining(ident, origin, State(), list, live, budget, false, true, before)
      modifies this
      ensures Draining(ident, origin, State(), list, live, budget, false, incomplete, commands)
      ensures work == Work(State(), list, live)
      ensures incomplete ==> work < old(Work(State(), list, live))
    {
      ghost var c := State();
      var sent;
      sent, incomplete := EncodeIncremental(list, live, budget);
      DrainTurn(ident, origin, c, list, live, budget, false, Outcome(State(), sent, incomplete), before);
      commands := before + sent;
      work := Work(State(), list, live);
    }

    /** The entries to be shown, without the data of images that are recorded. */
    method CollectVisible(full: seq<HostPlacement>) returns (list: seq<HostPlacement>)
      ensures list == Collected(State(), full)
    {
      list := [];
      for i := 0 to |full|
        invariant list == Collected(State(), full)[..i]
      {
        var p := full[i];
        var recorded := p.HostId() in images && images[p.HostId()] == p.signature;
        list := list + [if recorded then p.(data := []) else p];
      }
    }

    /** One call as a rendered frame makes it. */
    method EncodeLocal(full: seq<HostPlacement>, live: set<SourceKey>, key: Option<View>, budget: Option<nat>)
        returns (commands: seq<Command>, incomplete: bool)
      modifies this
      ensures Outcome(State(), commands, incomplete)
              == Incremental(Prepared(old(State()), key), Collected(old(State()), full), live, budget)
    {
      var list := CollectVisible(full);
      var _ := UpdateView(key);
      RequestPlacementReplay();
      commands, incomplete := EncodeIncremental(list, live, budget);
    }

    /** Paint one frame: collect the entries and call the encoder, until a call completes. */
    method PaintLocal(full: seq<HostPlacement>, live: set<SourceKey>, key: Option<View>, ghost ident: Ident)
        returns (commands: seq<Command>)
      requires Coherent(ident, full, live) && Faithful(ident, State())
      modifies this
      ensures var f := Paint(ident, old(State()), full, live, key); State() == f.end && commands == f.commands
    {
      ghost var origin := State();
      PaintStart(ident, origin, full, live, key);
      commands := [];
      var incomplete := true;
      ghost var work := Work(Prepared(origin, key), full, live);
      while incomplete
        invariant Painting(ident, origin, State(), full, live, key, incomplete, commands)
        invariant work == Work(Prepared(State(), key), full, live)
        decreases incomplete, work
      {
        commands, incomplete, work := PaintOnce(full, live, key, commands, ident, origin);
      }
    }

    method PaintOnce(full: seq<HostPlacement>, live: set<SourceKey>, key: Option<View>, before: seq<Command>,
                     ghost ident: Ident, ghost origin: Cache)
        returns (commands: seq<Command>, incomplete: bool, ghost work: nat)
      requires Coherent(ident, full, live) && Faithful(ident, origin)
      requires Painting(ident, origin, State(), full, live, key, true, before)
      modifies this
      ensures Painting(ident, origin, State(), full, live, key, incomplete, commands)
      ensures work == Work(Prepared(State(), key), full, live)
      ensures incomplete ==> work < old(Work(Prepared(State(), key), full, live))
    {
      ghost var c := State();
      var sent;
      sent, incomplete := EncodeLocal(full, live, key, None);
      PaintTurn(ident, origin, c, full, live, key, Outcome(State(), sent, incomplete), before);
      commands := before + sent;
      work := Work(Prepared(State(), key), full, live);
    }

    // --- Clearing and bookkeeping ---

    method ResetIncrementalState()
      modifies this
      ensures State() == ResetIncremental(old(State()))
    {
      oversized, continuation, replay, replayed := map[], None, false, {};
    }

    method RequestPlacementReplay()
      modifies this
      ensures State() == RequestReplay(old(State()))
    {
      if !replay {
        replay, replayed := true, {};
      }
    }

    method UpdateView(key: Option<View>) returns (changed: bool)
      modifies this
      ensures State() == GraphicsSpec.UpdateView(old(State()), key) && changed == (old(view) != key)
    {
      if view == key {
        return false;
      }
      view, continuation := key, None;
      return true;
    }

    /** Delete what only pane layers show. The order in which the images go is not fixed. */
    method ClearPaneSources() returns (commands: seq<Command>)
      modifies this
      ensures State() == GraphicsSpec.ClearPaneSources(old(State()))
      ensures DeletesImages(commands, OrphanedByLayers(old(State())))
    {
      var removed := set s | s in sources && s.PaneLayer? :: sources[s];
      sources := map s | s in sources && s.TerminalImage? :: sources[s];
      ghost var unshown := set id | id in removed && !State().Referenced(id);
      assert unshown == OrphanedByLayers(old(State())) by {
        assert forall t :: t in old(sources) && t.TerminalImage? ==> t in sources;
      }
      commands := DropUnreferenced(removed);
      ResetIncrementalState();
    }

    method DropUnreferenced(ids: set<u32>) returns (commands: seq<Command>)
      modifies this`images, this`placements, this`replayed
      ensures var gone := set id | id in ids && !old(State()).Referenced(id);
              && DeletesImages(commands, gone)
              && images == old(images) - gone
              && placements == map k | k in old(placements) && k.0 !in gone :: old(placements)[k]
    {
      ghost var gone := set id | id in ids && !State().Referenced(id);
      commands := [];
      var rest := ids;
      while rest != {}
        invariant rest <= ids
        invariant images == old(images) - (gone - rest)
        invariant placements == map k | k in old(placements) && k.0 !in gone - rest :: old(placements)[k]
        invariant DeletesImages(commands, gone - rest)
        decreases rest
      {
        var id :| id in rest;
        ghost var done := gone - rest;
        rest := rest - {id};
        if !exists s :: s in sources && sources[s] == id {
          assert !old(State()).Referenced(id) && id in gone;
          assert gone - rest == done + {id};
          LessPlacements(old(placements), placements, done, id);
          commands := commands + [DeleteImage(id)];
          ForgetImage(id);
        } else {
          assert old(State()).Referenced(id);
          assert gone - rest == done;
        }
      }
    }

    /** Delete every image, in no fixed order. */
    method ClearBytes() returns (commands: seq<Command>)
      modifies this
      ensures State() == GraphicsSpec.ClearBytes(old(State()))
      ensures DeletesImages(commands, old(State()).images.Keys)
    {
      commands := [];
      var rest := images.Keys;
      while rest != {}
        invariant rest <= images.Keys && State() == old(State())
        invariant DeletesImages(commands, images.Keys - rest)
        decreases rest
      {
        var id :| id in rest;
        rest := rest - {id};
        commands := commands + [DeleteImage(id)];
      }
      images, placements, sources := map[], map[], map[];
      ResetIncrementalState();
      view := None;
    }

    method ClearNext() returns (commands: seq<Command>, incomplete: bool)
      modifies this
      ensures Outcome(State(), commands, incomplete) == GraphicsSpec.ClearNext(old(State()))
    {
      continuation := None;
      if images != map[] {
        IdLeqTotal();
        assert images.Keys != {};
        var id := Ordering.Least(images.Keys, IdLeq);
        commands := [DeleteImage(id)];
        ForgetImage(id);
        sources := map s | s in sources && sources[s] != id :: sources[s];
      } else if placements != map[] {
        PairLeqTotal();
        assert placements.Keys != {};
        var k := Ordering.Least(placements.Keys, Ordering.PairLeq);
        commands := [DeletePlacement(k.0, k.1)];
        placements, replayed := placements - {k}, replayed - {k};
      } else {
        commands := [];
        sources, oversized, view, replay, replayed := map[], map[], None, false, {};
      }
      incomplete := !IsEmpty(State());
    }

    // --- The reference encoder ---

    method LegacyReleaseSuperseded(wanted: set<Key>, before: seq<Command>, source: SourceKey, id: u32)
        returns (wanted': set<Key>, commands: seq<Command>)
      modifies this
      ensures Pass1(State(), wanted', commands) == LegacyRelease(Pass1(old(State()), wanted, before), source, id)
    {
      var previous := if source in sources then Some(sources[source]) else None;
      sources := sources[source := id];
      if previous.None? || previous.value == id || exists s :: s in sources && sources[s] == previous.value {
        return wanted, before;
      }
      commands := before + [DeleteImage(previous.value)];
      images := images - {previous.value};
      wanted' := wanted - (set k | k in placements && k.0 == previous.value);
      placements := map k | k in placements && k.0 != previous.value :: placements[k];
    }

    method LegacyEncodeOne(p: HostPlacement, viewChanged: bool, wanted: set<Key>, before: seq<Command>)
        returns (wanted': set<Key>, commands: seq<Command>)
      modifies this
      ensures Pass1(State(), wanted', commands) == LegacyVisit(Pass1(old(State()), wanted, before), p, viewChanged)
    {
      if p.clip.None? {
        return wanted, before;
      }
      var id, key := p.hashedHostId, (p.hashedHostId, p.placementId);
      wanted', commands := wanted + {key}, before;
      if !(id in images && images[id] == p.signature) {
        if id in images {
          commands := commands + [DeleteImage(id)];
          wanted' := wanted' - (set k | k in placements && k.0 == id);
          placements := map k | k in placements && k.0 != id :: placements[k];
        }
        if p.data == [] {
          return wanted', commands;
        }
        commands := commands + [Upload(id, p.Payload())];
        images := images[id := p.signature];
      }
      wanted', commands := LegacyReleaseSuperseded(wanted', commands, p.source, id);
      if !(!viewChanged && key in placements && placements[key] == p.Placed()) {
        commands := commands + [Display(id, p.placementId, p.clip.value)];
        placements := placements[key := p.Placed()];
      }
    }

    /** The one-pass encoder for terminal images; the stale placements at the end go in no fixed order. */
    method EncodeTerminalLegacy(list: seq<HostPlacement>, viewChanged: bool) returns (commands: seq<Command>)
      modifies this
      ensures State() == Legacy(old(State()), list, viewChanged)
      ensures LegacyCommands(old(State()), list, viewChanged, commands)
    {
      var terminal := DesiredSources(list);
      sources := map s | s in sources && s.TerminalImage? && s in terminal :: sources[s];
      assert State() == LegacyStart(old(State()), list).cache;
      var wanted, pass;
      wanted, pass := LegacyPass(list, viewChanged);
      ghost var r := Pass1(State(), wanted, pass);
      var deletes := DropUnwanted(wanted);
      commands := pass + deletes;
      LegacyJoins(old(State()), list, viewChanged, r, deletes);
    }

    method LegacyPass(list: seq<HostPlacement>, viewChanged: bool) returns (wanted: set<Key>, commands: seq<Command>)
      modifies this
      ensures Pass1(State(), wanted, commands) == LegacyScan(Pass1(old(State()), {}, []), list, viewChanged)
    {
      wanted, commands := {}, [];
      var i := 0;
      while i < |list|
        invariant 0 <= i <= |list|
        invariant LegacyScan(Pass1(State(), wanted, commands), list[i..], viewChanged)
                  == LegacyScan(Pass1(old(State()), {}, []), list, viewChanged)
      {
        assert list[i..][1..] == list[i + 1..];
        wanted, commands := LegacyEncodeOne(list[i], viewChanged, wanted, commands);
        i := i + 1;
      }
    }

    /** Delete the placements outside `wanted`, in no fixed order. */
    method DropUnwanted(wanted: set<Key>) returns (deletes: seq<Command>)
      modifies this`placements
      ensures placements == old(placements) - (old(placements).Keys - wanted)
      ensures DeletesPlacements(deletes, old(placements).Keys - wanted)
    {
      var stale := placements.Keys - wanted;
      var rest := stale;
      deletes := [];
      while rest != {}
        invariant rest <= stale && DeletesPlacements(deletes, stale - rest)
        invariant placements == old(placements) - (stale - rest)
        decreases rest
      {
        var k :| k in rest;
        rest := rest - {k};
        deletes := deletes + [DeletePlacement(k.0, k.1)];
        placements := placements - {k};
      }
    }
  }
}
