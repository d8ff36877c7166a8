/**
 Entries without data. A list is collected with the data of an entry left out when the cache already records its
 image. Such an entry is still shown, and shown again by a replay, as long as some entry's source holds the image.
 */
module GraphicsCollected {
  import opened Prelude
  import opened KittyProtocol
  import opened GraphicsSpec
  import opened GraphicsMirror
  import opened GraphicsDrain

  /** The source of `p` shows the image of `p`, and the terminal has it. */
  predicate Held(c: Cache, p: HostPlacement) {
    c.ImageCurrent(p) && c.SourceCurrent(p)
  }

  /** The source of some entry of the list holds the image of `p`. */
  ghost predicate Secured(c: Cache, list: seq<HostPlacement>, p: HostPlacement) {
    exists a :: a in list && a.HostId() == p.HostId() && Held(c, a)
  }

  /** Shown, or set aside as too large. */
  predicate Served(c: Cache, p: HostPlacement, budget: Option<nat>) {
    c.Current(p) || Quarantined(c, p, budget)
  }

  /** Entries with one host id show one image. */
  lemma SameImage(ident: Ident, c: Cache, a: HostPlacement, q: HostPlacement)
    requires Identified(ident, a) && Identified(ident, q) && Apart(a, q) && a.HostId() == q.HostId()
    ensures a.signature == q.signature && (c.ImageCurrent(a) <==> c.ImageCurrent(q))
  {
  }

  lemma HeldStays(ident: Ident, c: Cache, p: HostPlacement, c': Cache, q: HostPlacement)
    requires Effect(c, p, c') && Faithful(ident, c) && Identified(ident, p) && Identified(ident, q)
    requires Held(c, q) && Apart(p, q)
    ensures Held(c', q)
  {
  }

  lemma VisitHeld(ident: Ident, c: Cache, list: seq<HostPlacement>, live: set<SourceKey>, p: HostPlacement,
                  budget: Option<nat>, c1: Cache, v: Visit, q: HostPlacement)
    requires Coherent(ident, list, live) && Faithful(ident, c) && p in list && q in list && Held(c, q)
    requires Visited(c, p, budget, c1, v)
    ensures var next := if v.Pass? then v.cache else v.after; Held(next, q)
    ensures v.Emit? ==> Held(v.before, q)
  {
    assert Identified(ident, p) && Identified(ident, q) && Apart(p, q);
    FrameFaithful(ident, c, c1);
    if v.Pass? && v.cache == c1 {
      assert Held(c1, q);
    } else {
      HeldStays(ident, c1, p, if v.Pass? then v.cache else v.after, q);
    }
  }

  /** An entry whose image the terminal has is served by its own visit, with or without data. */
  lemma VisitServes(c: Cache, p: HostPlacement, budget: Option<nat>, v: Visit)
    requires v == VisitPlacement(c, p, budget) && c.ImageCurrent(p) && p.Visible()
    ensures Served(if v.Pass? then v.cache else v.after, p, budget)
  {
    var c1 := c.(oversized := c.oversized - {p.source});
    var update := PlacementUpdate(c1, p);
    if !Quarantined(c, p, budget) && update.Some? {
      UpdateEffect(c1, p, update.value.0, update.value.1);
    }
  }

  ghost predicate ServesCurrent(visit: Visitor, budget: Option<nat>) {
    forall c: Cache, p: HostPlacement {:trigger Asked(c, p)} :: c.ImageCurrent(p) && p.Visible() ==>
      Served(if visit(c, p).Pass? then visit(c, p).cache else visit(c, p).after, p, budget)
  }

  lemma VisitingServesCurrent(budget: Option<nat>)
    ensures ServesCurrent(Visiting(budget), budget)
  {
    forall c: Cache, p: HostPlacement | c.ImageCurrent(p) && p.Visible()
      ensures Served(if Visiting(budget)(c, p).Pass? then Visiting(budget)(c, p).cache
                     else Visiting(budget)(c, p).after, p, budget)
    {
      VisitServes(c, p, budget, Visiting(budget)(c, p));
    }
  }

  lemma ServedStays(ident: Ident, c: Cache, list: seq<HostPlacement>, live: set<SourceKey>, p: HostPlacement,
                    budget: Option<nat>, c1: Cache, v: Visit, q: HostPlacement)
    requires Coherent(ident, list, live) && Faithful(ident, c) && p in list && q in list && q.Visible()
    requires Visited(c, p, budget, c1, v) && Served(c, q, budget)
    ensures Served(if v.Pass? then v.cache else v.after, q, budget)
  {
    VisitBetter(ident, c, list, live, p, budget, c1, v);
    assert Identified(ident, p) && Identified(ident, q) && Apart(p, q);
    if c.Current(q) {
      assert q !in Pending(c, list);
    }
  }

  lemma StepAsked(visit: Visitor, c: Cache, p: HostPlacement, budget: Option<nat>)
    requires VisitsWell(visit, budget)
    ensures Visited(c, p, budget, Marked(c, p, budget), visit(c, p))
  {
    assert Asked(c, p);
  }

  // --- One call ---

  /** A step of the scan keeps what `a` holds, and serves `q`, whose image that is. */
  lemma StepSecured(visit: Visitor, ident: Ident, c: Cache, list: seq<HostPlacement>, live: set<SourceKey>,
                    budget: Option<nat>, index: nat, v: Visit, next: Cache, a: HostPlacement, q: HostPlacement)
    requires VisitsWell(visit, budget) && ServesCurrent(visit, budget) && Coherent(ident, list, live)
             && Faithful(ident, c)
    requires index < |list| && v == visit(c, list[index]) && next == After(v, list, index)
    requires a in list && q in list && q.Visible() && a.HostId() == q.HostId() && Held(c, a)
    ensures Faithful(ident, next) && Held(next, a) && (v.Emit? ==> Held(v.before, a))
    ensures Served(c, q, budget) || list[index] == q ==> Served(next, q, budget)
  {
    var p := list[index];
    StepDrains(visit, ident, c, list, live, budget, index, v, next, {});
    StepAsked(visit, c, p, budget);
    VisitHeld(ident, c, list, live, p, budget, Marked(c, p, budget), v, a);
    if Served(c, q, budget) {
      ServedStays(ident, c, list, live, p, budget, Marked(c, p, budget), v, q);
    } else if p == q {
      assert Identified(ident, a) && Identified(ident, q) && Apart(a, q);
      SameImage(ident, c, a, q);
      assert Asked(c, p);
    }
  }

  lemma {:induction false} ScanSecured(visit: Visitor, ident: Ident, origin: Cache, c: Cache, list: seq<HostPlacement>,
                                       live: set<SourceKey>, budget: Option<nat>, index: nat, left: nat,
                                       commands: seq<Command>, emitted: bool, o: Outcome, a: HostPlacement,
                                       q: HostPlacement)
      returns (last: Cache)
    requires VisitsWell(visit, budget) && ServesCurrent(visit, budget) && Coherent(ident, list, live)
             && Faithful(ident, c)
    requires (left > 0 ==> index < |list|) && o == Scan(visit, c, list, index, left, commands, emitted)
    requires Replays(origin, c, commands) && (!emitted ==> commands == [])
    requires a in list && q in list && q.Visible() && a.HostId() == q.HostId() && Held(c, a)
    requires Served(c, q, budget) || q in Ahead(list, index, left)
    ensures Held(last, a) && last.replay == c.replay && Replays(origin, last, o.commands)
    ensures if o.incomplete then o.cache == last
            else o.cache == last.(replay := false, replayed := {}) && Served(last, q, budget)
    decreases left
  {
    if left == 0 {
      last := c;
    } else {
      var v := visit(c, list[index]);
      var next := After(v, list, index);
      StepDrains(visit, ident, c, list, live, budget, index, v, next, {});
      StepSecured(visit, ident, c, list, live, budget, index, v, next, a, q);
      if v.Emit? && emitted {
        last := v.before;
      } else {
        last := ScanSecured(visit, ident, origin, next, list, live, budget, NextIndex(list, index), left - 1,
                            if v.Pass? then commands else v.commands, emitted || v.Emit?, o, a, q);
      }
    }
  }

  lemma {:induction false} DropDeadHeld(c: Cache, live: set<SourceKey>, dead: seq<SourceKey>, commands: seq<Command>,
                                        emitted: bool, q: HostPlacement)
    requires Held(c, q) && (q.source.PaneLayer? ==> q.source in live)
             && forall s :: s in dead ==> s.PaneLayer? && s !in live
    ensures Held(DropDead(c, dead, commands, emitted).cache, q)
    decreases |dead|
  {
    if dead != [] && dead[0] !in c.sources {
      DropDeadHeld(c, live, dead[1..], commands, emitted, q);
    } else if dead != [] {
      var id := c.sources[dead[0]];
      var removed := c.(sources := c.sources - {dead[0]});
      if c.ReferencedByOther(dead[0], id) {
        DropDeadHeld(removed, live, dead[1..], commands, emitted, q);
      } else if !emitted {
        DropDeadHeld(DropImage(removed, id), live, dead[1..], commands + [DeleteImage(id)], true, q);
      }
    }
  }

  lemma FrontHeld(c: Cache, list: seq<HostPlacement>, live: set<SourceKey>, q: HostPlacement)
    requires Held(c, q) && q in list && (q.source.PaneLayer? ==> q.source in live)
    ensures Held(Front(c, list, live).cache, q)
  {
    var sources := SortedSources(DeadSources(c, live));
    DropDeadHeld(c, live, sources, [], false, q);
    var dead := DropDead(c, sources, [], false);
    if !dead.stopped {
      var kept := Retain(dead.cache, list, live);
      assert q.source in DesiredSources(list);
      DropStaleFrame(kept, SortedKeys(StaleKeys(kept, list)), dead.commands, dead.emitted);
    }
  }

  /** One call keeps what `a` holds. When it completes, an entry `q` with that image is served, and has been
      displayed if a replay was asked for and it is not set aside. */
  lemma CallSecured(ident: Ident, c: Cache, list: seq<HostPlacement>, live: set<SourceKey>, budget: Option<nat>,
                    o: Outcome, a: HostPlacement, q: HostPlacement)
    requires Coherent(ident, list, live) && Faithful(ident, c) && o == Incremental(c, list, live, budget)
    requires a in list && q in list && q.Visible() && a.HostId() == q.HostId() && Held(c, a)
    ensures Held(o.cache, a)
    ensures !o.incomplete ==> Served(o.cache, q, budget)
    ensures !o.incomplete && c.replay ==>
              Quarantined(o.cache, q, budget) || q.Key() in c.replayed + Displayed(o.commands)
  {
    var front := Front(c, list, live);
    FrontDrains(ident, c, list, live, front);
    FrontHeld(c, list, live, a);
    if !front.stopped {
      VisitingVisitsWell(budget);
      VisitingServesCurrent(budget);
      ScanCovers(list, StartIndex(c, list), q);
      var last := ScanSecured(Visiting(budget), ident, c, front.cache, list, live, budget, StartIndex(c, list), |list|,
                              front.commands, front.emitted, o, a, q);
    }
  }

  /** A visible entry whose image is held by the source of some entry is shown when the call completes, whether or
      not it carries data. */
  lemma SecuredEntryServed(ident: Ident, c: Cache, list: seq<HostPlacement>, live: set<SourceKey>, budget: Option<nat>,
                           o: Outcome, q: HostPlacement)
    requires Coherent(ident, list, live) && Faithful(ident, c) && o == Incremental(c, list, live, budget)
             && !o.incomplete
    requires q in list && q.Visible() && Secured(c, list, q)
    ensures Served(o.cache, q, budget)
  {
    var a :| a in list && a.HostId() == q.HostId() && Held(c, a);
    CallSecured(ident, c, list, live, budget, o, a, q);
  }

  // --- The drain of one list ---

  /** The drain can show `p`: it carries data, or its image is held. */
  ghost predicate Supplied(c: Cache, list: seq<HostPlacement>, p: HostPlacement) {
    p.data != [] || Secured(c, list, p)
  }

  lemma CallSupplied(ident: Ident, c: Cache, list: seq<HostPlacement>, live: set<SourceKey>, budget: Option<nat>,
                     o: Outcome, q: HostPlacement)
    requires Coherent(ident, list, live) && Faithful(ident, c) && o == Incremental(c, list, live, budget)
    requires q in list && q.Visible() && Supplied(c, list, q)
    ensures Supplied(o.cache, list, q)
    ensures !o.incomplete ==> Served(o.cache, q, budget)
    ensures !o.incomplete && c.replay ==>
              Quarantined(o.cache, q, budget) || q.Key() in c.replayed + Displayed(o.commands)
  {
    if Secured(c, list, q) {
      var a :| a in list && a.HostId() == q.HostId() && Held(c, a);
      CallSecured(ident, c, list, live, budget, o, a, q);
    } else {
      var last := IncrementalDrains(ident, c, list, live, budget, o);
      if !o.incomplete { assert Done(last, q, budget); }
    }
  }

  lemma BeginSupplied(c: Cache, list: seq<HostPlacement>, replay: bool, q: HostPlacement)
    ensures Supplied(Begin(c, replay), list, q) <==> Supplied(c, list, q)
  {
    assert forall a :: Held(Begin(c, replay), a) <==> Held(c, a);
  }

  /** When the drain ends, every visible entry that carries data, or whose image some entry held at its start, is
      shown or set aside as too large. */
  lemma {:induction false} DrainServes(ident: Ident, c: Cache, list: seq<HostPlacement>, live: set<SourceKey>,
                                       budget: Option<nat>, replay: bool, q: HostPlacement)
    requires Coherent(ident, list, live) && Faithful(ident, c)
    requires q in list && q.Visible() && Supplied(c, list, q)
    ensures Served(Drain(ident, c, list, live, budget, replay).0, q, budget)
    decreases Work(Begin(c, replay), list, live)
  {
    var o := Incremental(Begin(c, replay), list, live, budget);
    DrainUnfolds(ident, c, list, live, budget, replay, o);
    FrameFaithful(ident, c, Begin(c, replay));
    BeginSupplied(c, list, replay, q);
    CallSupplied(ident, Begin(c, replay), list, live, budget, o, q);
    if o.incomplete { DrainServes(ident, o.cache, list, live, budget, replay, q); }
  }

  /** A drain that replays displays every placement the cache ends with, unless it was already replayed. */
  lemma {:induction false} ReplayDisplaysAll(ident: Ident, c: Cache, list: seq<HostPlacement>, live: set<SourceKey>)
    requires Coherent(ident, list, live) && Faithful(ident, c)
    requires forall p :: p in list && p.Visible() ==> Supplied(c, list, p)
    ensures var (c', commands) := Drain(ident, c, list, live, None, true);
            c'.placements.Keys <= Begin(c, true).replayed + Displayed(commands)
    decreases Work(Begin(c, true), list, live)
  {
    var b := Begin(c, true);
    var o := Incremental(b, list, live, None);
    DrainUnfolds(ident, c, list, live, None, true, o);
    FrameFaithful(ident, c, b);
    forall p | p in list && p.Visible()
      ensures Supplied(o.cache, list, p)
      ensures !o.incomplete ==> p.Key() in b.replayed + Displayed(o.commands)
    {
      BeginSupplied(c, list, true, p);
      CallSupplied(ident, b, list, live, None, o, p);
    }
    if o.incomplete {
      ReplayDisplaysAll(ident, o.cache, list, live);
      var last := IncrementalDrains(ident, b, list, live, None, o);
      DisplayedConcat(o.commands, Drain(ident, o.cache, list, live, None, true).1);
    } else {
      CallTidy(ident, b, list, live, None, o);
    }
  }

  /** When a call completes, every placement is that of a visible entry. */
  lemma CallTidy(ident: Ident, c: Cache, list: seq<HostPlacement>, live: set<SourceKey>, budget: Option<nat>,
                 o: Outcome)
    requires Coherent(ident, list, live) && Faithful(ident, c) && o == Incremental(c, list, live, budget)
             && !o.incomplete
    ensures forall k :: k in o.cache.placements ==> exists p :: p in list && p.Visible() && p.Key() == k
  {
    var last := IncrementalDrains(ident, c, list, live, budget, o);
    forall k | k in o.cache.placements ensures exists p :: p in list && p.Visible() && p.Key() == k {
      assert k !in StaleKeys(last, list);
    }
  }

  /** A frame painted with replay puts back whatever text had painted over: starting a fresh replay, the
      terminal ends with exactly the images and placements of the cache. */
  lemma ReplayRestores(fp: Fingerprint, ident: Ident, c: Cache, t: Terminal, lost: set<Key>,
                       list: seq<HostPlacement>, live: set<SourceKey>)
    requires Coherent(ident, list, live) && Synced(fp, ident, c, t, lost) && Wellformed(fp, ident, list)
    requires !c.replay && forall p :: p in list && p.Visible() ==> Supplied(c, list, p)
    ensures var (c', commands) := Drain(ident, c, list, live, None, true);
            Mirrors(fp, c', Interpret(t, commands), {})
  {
    DrainSynced(fp, ident, c, t, lost, list, live, None, true);
    ReplayDisplaysAll(ident, c, list, live);
    var (c', commands) := Drain(ident, c, list, live, None, true);
    assert c'.placements.Keys - (lost - Displayed(commands)) == c'.placements.Keys - {};
  }

  // --- Images that were sent again ---

  /** If the terminal has the image of `p`, some entry's source holds it. */
  ghost predicate Sound(c: Cache, list: seq<HostPlacement>, p: HostPlacement) {
    c.ImageCurrent(p) ==> Secured(c, list, p)
  }

  lemma VisitSound(ident: Ident, c: Cache, list: seq<HostPlacement>, live: set<SourceKey>, x: HostPlacement,
                   budget: Option<nat>, c1: Cache, v: Visit, next: Cache, p: HostPlacement)
    requires Coherent(ident, list, live) && Faithful(ident, c) && x in list && p in list && Sound(c, list, p)
    requires Visited(c, x, budget, c1, v) && next == (if v.Pass? then v.cache else v.after)
    ensures Sound(next, list, p) && (v.Emit? ==> Sound(v.before, list, p))
  {
    if c.ImageCurrent(p) {
      var a :| a in list && a.HostId() == p.HostId() && Held(c, a);
      VisitHeld(ident, c, list, live, x, budget, c1, v, a);
    } else if next.ImageCurrent(p) {
      assert x.HostId() == p.HostId() && Held(next, x);
    }
  }

  /** After its visit an entry is sound, unless it is set aside. */
  lemma VisitMakesSound(c: Cache, list: seq<HostPlacement>, p: HostPlacement, budget: Option<nat>, c1: Cache, v: Visit,
                        next: Cache)
    requires Visited(c, p, budget, c1, v) && next == (if v.Pass? then v.cache else v.after) && p in list && p.Visible()
    requires c.ImageCurrent(p) ==> Served(next, p, budget)
    ensures Sound(next, list, p) || Quarantined(next, p, budget)
  {
    if next.ImageCurrent(p) && !Quarantined(next, p, budget) {
      assert Held(next, p);
    }
  }

  lemma {:induction false} ScanSound(visit: Visitor, ident: Ident, c: Cache, list: seq<HostPlacement>,
                                     live: set<SourceKey>, index: nat, left: nat, commands: seq<Command>, emitted: bool,
                                     o: Outcome, p: HostPlacement)
    requires VisitsWell(visit, None) && ServesCurrent(visit, None) && Coherent(ident, list, live) && Faithful(ident, c)
    requires (left > 0 ==> index < |list|) && o == Scan(visit, c, list, index, left, commands, emitted)
    requires p in list && p.Visible()
    ensures Sound(c, list, p) ==> Sound(o.cache, list, p)
    ensures !o.incomplete && p in Ahead(list, index, left) ==> Sound(o.cache, list, p)
    decreases left
  {
    if left > 0 {
      var x := list[index];
      var v := visit(c, x);
      var next := After(v, list, index);
      StepDrains(visit, ident, c, list, live, None, index, v, next, {});
      StepAsked(visit, c, x, None);
      assert Asked(c, x);
      var after := if v.Pass? then v.cache else v.after;
      if Sound(c, list, p) { VisitSound(ident, c, list, live, x, None, Marked(c, x, None), v, after, p); }
      if x == p { VisitMakesSound(c, list, p, None, Marked(c, x, None), v, after); }
      ResumeSound(after, next, list, p);
      if v.Pass? || !emitted {
        ScanSound(visit, ident, next, list, live, NextIndex(list, index), left - 1,
                  if v.Pass? then commands else v.commands, emitted || v.Emit?, o, p);
      }
    } else {
      ResumeSound(c, o.cache, list, p);
    }
  }

  lemma ResumeSound(c: Cache, c': Cache, list: seq<HostPlacement>, p: HostPlacement)
    requires c'.images == c.images && c'.sources == c.sources
    ensures Sound(c', list, p) <==> Sound(c, list, p)
  {
    assert forall a :: Held(c', a) <==> Held(c, a);
  }

  lemma {:induction false} DropDeadImages(c: Cache, dead: seq<SourceKey>, commands: seq<Command>, emitted: bool,
                                          p: HostPlacement)
    ensures DropDead(c, dead, commands, emitted).cache.ImageCurrent(p) ==> c.ImageCurrent(p)
    decreases |dead|
  {
    if dead != [] {
      var removed := c.(sources := c.sources - {dead[0]});
      if dead[0] !in c.sources {
        DropDeadImages(c, dead[1..], commands, emitted, p);
      } else if c.ReferencedByOther(dead[0], c.sources[dead[0]]) {
        DropDeadImages(removed, dead[1..], commands, emitted, p);
      } else if !emitted {
        DropDeadImages(DropImage(removed, c.sources[dead[0]]), dead[1..], commands + [DeleteImage(c.sources[dead[0]])],
                       true, p);
      }
    }
  }

  lemma FrontSound(ident: Ident, c: Cache, list: seq<HostPlacement>, live: set<SourceKey>, p: HostPlacement)
    requires Coherent(ident, list, live) && Sound(c, list, p)
    ensures Sound(Front(c, list, live).cache, list, p)
  {
    var front, sources := Front(c, list, live), SortedSources(DeadSources(c, live));
    var dead := DropDead(c, sources, [], false);
    DropDeadImages(c, sources, [], false, p);
    if !dead.stopped {
      var kept := Retain(dead.cache, list, live);
      DropStaleFrame(kept, SortedKeys(StaleKeys(kept, list)), dead.commands, dead.emitted);
    }
    if front.cache.ImageCurrent(p) {
      var a :| a in list && a.HostId() == p.HostId() && Held(c, a);
      FrontHeld(c, list, live, a);
    }
  }

  /** A call without a budget keeps an entry sound, and makes it so when it completes. */
  lemma CallSound(ident: Ident, c: Cache, list: seq<HostPlacement>, live: set<SourceKey>, o: Outcome, p: HostPlacement)
    requires Coherent(ident, list, live) && Faithful(ident, c) && o == Incremental(c, list, live, None)
    requires p in list && p.Visible()
    ensures Sound(c, list, p) || !o.incomplete ==> Sound(o.cache, list, p)
  {
    var front := Front(c, list, live);
    FrontDrains(ident, c, list, live, front);
    if Sound(c, list, p) { FrontSound(ident, c, list, live, p); }
    if !front.stopped {
      VisitingVisitsWell(None);
      VisitingServesCurrent(None);
      ScanCovers(list, StartIndex(c, list), p);
      ScanSound(Visiting(None), ident, front.cache, list, live, StartIndex(c, list), |list|, front.commands,
                front.emitted, o, p);
    }
  }
}
