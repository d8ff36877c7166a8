/**
 The incremental encoder refines the one-pass reference encoder: on terminal images, draining the one
 and running the other once end with the same images, placements and sources.
 */
module GraphicsReference {
  import opened Prelude
  import opened KittyProtocol
  import opened GraphicsSpec
  import opened GraphicsMirror
  import opened GraphicsDrain

  // --- Where both encoders have to end ---

  /** The sources of `c` that the list still names. */
  ghost predicate Kept(c: Cache, list: seq<HostPlacement>, s: SourceKey) {
    s in c.sources && s in DesiredSources(list)
  }

  /** An image of `c` that no kept source shows; neither encoder deletes it. */
  ghost predicate Loose(c: Cache, list: seq<HostPlacement>, i: u32) {
    i in c.images && forall s :: Kept(c, list, s) ==> c.sources[s] != i
  }

  /** The image, the placement and the source of `p` are as wanted, replay or not. */
  predicate CoreCurrent(c: Cache, p: HostPlacement)
    requires p.Visible()
  {
    c.ImageCurrent(p) && c.SourceCurrent(p) && p.Key() in c.placements && c.placements[p.Key()] == p.Placed()
  }

  /** Sources are kept or moved to their entries, and images are the shown and the loose ones. */
  ghost predicate Toward(c0: Cache, list: seq<HostPlacement>, c: Cache) {
    && (forall s {:trigger s in c.sources} :: s in c.sources ==>
          (Kept(c0, list, s) && c.sources[s] == c0.sources[s]) || MovedTo(list, s, c.sources[s]))
    && (forall s {:trigger Kept(c0, list, s)} :: Kept(c0, list, s) ==> s in c.sources)
    && (forall i {:trigger i in c.images} :: i in c.images <==> c.Referenced(i) || Loose(c0, list, i))
    && (forall i {:trigger i in c.images} :: i in c.images ==>
          (i in c0.images && c.images[i] == c0.images[i]) || ShownBy(list, i))
  }

  ghost predicate MovedTo(list: seq<HostPlacement>, s: SourceKey, i: u32) {
    exists p :: p in list && p.Visible() && p.source == s && p.HostId() == i
  }

  ghost predicate ShownBy(list: seq<HostPlacement>, i: u32) {
    exists p :: p in list && p.Visible() && p.HostId() == i
  }

  ghost predicate Shows(c: Cache, list: seq<HostPlacement>) {
    && c.placements.Keys == DesiredKeys(list)
    && forall p {:trigger CoreCurrent(c, p)} :: p in list && p.Visible() ==> CoreCurrent(c, p)
  }

  /** `c'` shows exactly the visible entries of the list and keeps of `c` only what it has to keep. */
  ghost predicate Reaches(c: Cache, list: seq<HostPlacement>, c': Cache) {
    Toward(c, list, c') && Shows(c', list)
  }

  lemma SamePlacements(list: seq<HostPlacement>, a: Cache, b: Cache)
    requires Shows(a, list) && Shows(b, list)
    ensures a.placements == b.placements
  {
    forall k | k in DesiredKeys(list) ensures a.placements[k] == b.placements[k] {
      var p :| p in list && p.Visible() && p.Key() == k;
      assert CoreCurrent(a, p) && CoreCurrent(b, p);
    }
  }

  lemma SameSources(c: Cache, list: seq<HostPlacement>, a: Cache, b: Cache)
    requires Reaches(c, list, a) && Reaches(c, list, b)
    ensures forall s :: s in a.sources ==> s in b.sources && a.sources[s] == b.sources[s]
  {
    forall s | s in a.sources ensures s in b.sources && a.sources[s] == b.sources[s] {
      if p :| p in list && p.Visible() && p.source == s {
        assert CoreCurrent(a, p) && CoreCurrent(b, p);
      }
    }
  }

  lemma SameImages(c: Cache, list: seq<HostPlacement>, a: Cache, b: Cache)
    requires Reaches(c, list, a) && Reaches(c, list, b) && a.sources == b.sources
    ensures forall i :: i in a.images ==> i in b.images && a.images[i] == b.images[i]
  {
    forall i | i in a.images ensures i in b.images && a.images[i] == b.images[i] {
      assert a.Referenced(i) == b.Referenced(i);
      if ShownBy(list, i) {
        var p :| p in list && p.Visible() && p.HostId() == i;
        assert CoreCurrent(a, p) && CoreCurrent(b, p);
      }
    }
  }

  /** There is only one place to end: images, placements and sources are determined. */
  lemma ReachesOne(c: Cache, list: seq<HostPlacement>, a: Cache, b: Cache)
    requires Reaches(c, list, a) && Reaches(c, list, b)
    ensures a.placements == b.placements && a.sources == b.sources && a.images == b.images
  {
    SamePlacements(list, a, b);
    SameSources(c, list, a, b);
    SameSources(c, list, b, a);
    assert a.sources == b.sources;
    SameImages(c, list, a, b);
    SameImages(c, list, b, a);
  }

  // --- On the way there ---

  /** What the transaction of `p` does to images, placements and sources when host ids do not collide. */
  ghost predicate CoreEffect(c: Cache, p: HostPlacement, c': Cache) {
    && p.Visible()
    && c'.sources == c.sources[p.source := p.HostId()]
    && (forall i :: i in c'.images <==> i == p.HostId() || (i in c.images && !Superseded(c, p, i)))
    && (forall i :: i in c'.images ==> c'.images[i] == if i == p.HostId() then p.signature else c.images[i])
    && (forall k :: k in c'.placements <==> k == p.Key() || (k in c.placements && !Superseded(c, p, k.0)))
    && (forall k :: k in c'.placements ==> c'.placements[k] == if k == p.Key() then p.Placed() else c.placements[k])
  }

  lemma TowardStep(ident: Ident, c0: Cache, list: seq<HostPlacement>, live: set<SourceKey>, c: Cache, p: HostPlacement,
                   c': Cache)
    requires Coherent(ident, list, live) && Toward(c0, list, c) && p in list && CoreEffect(c, p, c')
    ensures Toward(c0, list, c')
  {
    var src := p.source;
    assert MovedTo(list, src, p.HostId()) && ShownBy(list, p.HostId());
    forall i ensures i in c'.images <==> c'.Referenced(i) || Loose(c0, list, i) {
      ReferencedAfter(c, p, c', i);
      if i != p.HostId() && src in c.sources && c.sources[src] == i {
        NotLoose(ident, c0, list, live, c, p);
      }
    }
  }

  lemma ReferencedAfter(c: Cache, p: HostPlacement, c': Cache, i: u32)
    requires c'.sources == c.sources[p.source := p.HostId()]
    ensures c'.Referenced(i) <==> i == p.HostId() || c.ReferencedByOther(p.source, i)
    ensures c.Referenced(i) <==> (p.source in c.sources && c.sources[p.source] == i) || c.ReferencedByOther(p.source, i)
  {
    if i == p.HostId() {
      assert p.source in c'.sources && c'.sources[p.source] == i;
    }
    if c.ReferencedByOther(p.source, i) {
      var s :| s in c.sources && s != p.source && c.sources[s] == i;
      assert s in c'.sources && c'.sources[s] == i;
    }
  }

  /** The image that a source is about to leave is not loose: a kept source showed it. */
  lemma NotLoose(ident: Ident, c0: Cache, list: seq<HostPlacement>, live: set<SourceKey>, c: Cache, p: HostPlacement)
    requires Coherent(ident, list, live) && Toward(c0, list, c) && p in list
    requires p.source in c.sources && c.sources[p.source] != p.HostId()
    ensures !Loose(c0, list, c.sources[p.source])
  {
    forall q | q in list && q.Visible() && q.source == p.source ensures q.HostId() != c.sources[p.source] {
      assert Apart(p, q);
    }
    assert Kept(c0, list, p.source);
  }

  lemma CoreCurrentStays(ident: Ident, c: Cache, p: HostPlacement, c': Cache, q: HostPlacement)
    requires CoreEffect(c, p, c') && Faithful(ident, c) && Identified(ident, p) && Identified(ident, q) && q.Visible()
    requires p.source.TerminalImage?
    requires CoreCurrent(c, q) || p == q
    requires Apart(p, q)
    ensures CoreCurrent(c', q)
  {
  }

  // --- The drain ends there ---

  lemma CoreOfEffect(ident: Ident, c: Cache, p: HostPlacement, c': Cache)
    requires Effect(c, p, c') && Faithful(ident, c) && Identified(ident, p)
    ensures CoreEffect(c, p, c')
  {
    assert !Collides(c, p);
  }

  lemma TowardFrame(c0: Cache, list: seq<HostPlacement>, c: Cache, c': Cache)
    requires Toward(c0, list, c) && c'.images == c.images && c'.sources == c.sources
    ensures Toward(c0, list, c')
  {
    forall i ensures c'.Referenced(i) == c.Referenced(i) {}
  }

  lemma StepToward(visit: Visitor, ident: Ident, c0: Cache, c: Cache, list: seq<HostPlacement>, live: set<SourceKey>,
                   index: nat, v: Visit, next: Cache)
    requires VisitsWell(visit, None) && Coherent(ident, list, live) && Faithful(ident, c) && index < |list|
    requires v == visit(c, list[index]) && next == After(v, list, index) && Toward(c0, list, c)
    ensures Faithful(ident, next) && Toward(c0, list, next)
    ensures v.Emit? ==> Toward(c0, list, v.before)
  {
    var p := list[index];
    StepDrains(visit, ident, c, list, live, None, index, v, next, {});
    assert Asked(c, p);
    var c1 := Marked(c, p, None);
    TowardFrame(c0, list, c, c1);
    VisitToward(ident, c0, c, list, live, p, c1, v);
    if v.Emit? {
      TowardFrame(c0, list, v.after, next);
    }
  }

  lemma VisitToward(ident: Ident, c0: Cache, c: Cache, list: seq<HostPlacement>, live: set<SourceKey>, p: HostPlacement,
                    c1: Cache, v: Visit)
    requires Coherent(ident, list, live) && Faithful(ident, c) && p in list
    requires Visited(c, p, None, c1, v) && Toward(c0, list, c1)
    ensures Toward(c0, list, if v.Pass? then v.cache else v.after)
  {
    var c' := if v.Pass? then v.cache else v.after;
    FrameFaithful(ident, c, c1);
    if c' != c1 {
      assert Identified(ident, p);
      CoreOfEffect(ident, c1, p, c');
      TowardStep(ident, c0, list, live, c1, p, c');
    }
  }

  lemma {:induction false} ScanToward(visit: Visitor, ident: Ident, c0: Cache, c: Cache, list: seq<HostPlacement>,
                                      live: set<SourceKey>, index: nat, left: nat, commands: seq<Command>,
                                      emitted: bool, o: Outcome)
    requires VisitsWell(visit, None) && Coherent(ident, list, live) && Faithful(ident, c)
             && (left > 0 ==> index < |list|)
    requires Toward(c0, list, c) && o == Scan(visit, c, list, index, left, commands, emitted)
    ensures Toward(c0, list, o.cache)
    decreases left
  {
    if left == 0 {
      TowardFrame(c0, list, c, o.cache);
    } else {
      var v := visit(c, list[index]);
      var next := After(v, list, index);
      StepToward(visit, ident, c0, c, list, live, index, v, next);
      if !(v.Emit? && emitted) {
        ScanToward(visit, ident, c0, next, list, live, NextIndex(list, index), left - 1,
                   if v.Pass? then commands else v.commands, emitted || v.Emit?, o);
      }
    }
  }

  ghost predicate TerminalSources(c: Cache) {
    forall s :: s in c.sources ==> s.TerminalImage?
  }

  /** The list is coherent, about terminal images only, and every entry carries its data. */
  ghost predicate TerminalList(ident: Ident, list: seq<HostPlacement>, live: set<SourceKey>) {
    Coherent(ident, list, live) && TerminalOnly(list) && forall p :: p in list ==> p.data != []
  }

  lemma CallToward(ident: Ident, c0: Cache, c: Cache, list: seq<HostPlacement>, live: set<SourceKey>, o: Outcome)
    requires TerminalList(ident, list, live) && Faithful(ident, c) && TerminalSources(c)
    requires Toward(c0, list, Retain(c, list, live)) && o == Incremental(c, list, live, None)
    ensures Toward(c0, list, o.cache)
  {
    var dead := SortedSources(DeadSources(c, live));
    assert DropDead(c, dead, [], false) == Stage(c, [], false, false);
    var kept := Retain(c, list, live);
    var front := Front(c, list, live);
    DropStaleFrame(kept, SortedKeys(StaleKeys(kept, list)), [], false);
    TowardFrame(c0, list, kept, front.cache);
    FrontDrains(ident, c, list, live, front);
    if !front.stopped {
      VisitingVisitsWell(None);
      ScanToward(Visiting(None), ident, c0, front.cache, list, live, StartIndex(c, list), |list|, front.commands,
                 front.emitted, o);
    }
  }

  lemma FirstToward(c0: Cache, list: seq<HostPlacement>, live: set<SourceKey>)
    requires Grounded(c0) && TerminalSources(c0)
    ensures Toward(c0, list, Retain(c0, list, live))
  {
    var kept := Retain(c0, list, live);
    forall i ensures i in kept.images <==> kept.Referenced(i) || Loose(c0, list, i) {
      if i in kept.images && !Loose(c0, list, i) {
        var s :| Kept(c0, list, s) && c0.sources[s] == i;
        assert s in kept.sources && kept.sources[s] == i;
      }
    }
  }

  lemma RetainToward(c0: Cache, c: Cache, list: seq<HostPlacement>, live: set<SourceKey>)
    requires Toward(c0, list, c) && TerminalSources(c0) && TerminalOnly(list)
    ensures Toward(c0, list, Retain(c, list, live)) && TerminalSources(c)
  {
    forall s | s in c.sources ensures s in DesiredSources(list) && s.TerminalImage? {}
    assert Retain(c, list, live).sources == c.sources;
    TowardFrame(c0, list, c, Retain(c, list, live));
  }

  lemma {:induction false} DrainToward(ident: Ident, c0: Cache, c: Cache, list: seq<HostPlacement>,
                                       live: set<SourceKey>, replay: bool)
    requires TerminalList(ident, list, live) && Faithful(ident, c) && TerminalSources(c) && TerminalSources(c0)
    requires Toward(c0, list, Retain(c, list, live))
    ensures Toward(c0, list, Drain(ident, c, list, live, None, replay).0)
    decreases Work(Begin(c, replay), list, live)
  {
    var c1 := Begin(c, replay);
    var o := Incremental(c1, list, live, None);
    CallShrinks(ident, c, list, live, None, replay);
    FrameFaithful(ident, c, c1);
    TowardFrame(c0, list, Retain(c, list, live), Retain(c1, list, live));
    CallToward(ident, c0, c1, list, live, o);
    if o.incomplete {
      RetainToward(c0, o.cache, list, live);
      DrainToward(ident, c0, o.cache, list, live, replay);
    }
  }

  lemma SettledShows(c: Cache, list: seq<HostPlacement>, live: set<SourceKey>)
    requires Settled(c, list, live, None) && forall p :: p in list ==> p.data != []
    ensures Shows(c, list)
  {
    forall p | p in list && p.Visible() ensures CoreCurrent(c, p) {
      assert Done(c, p, None);
    }
    forall k ensures k in c.placements <==> k in DesiredKeys(list) {
      if k in c.placements { assert k !in StaleKeys(c, list); }
      if k in DesiredKeys(list) {
        var p :| p in list && p.Visible() && p.Key() == k;
        assert CoreCurrent(c, p);
      }
    }
  }

  lemma DrainReaches(ident: Ident, c: Cache, list: seq<HostPlacement>, live: set<SourceKey>, replay: bool)
    requires TerminalList(ident, list, live) && Faithful(ident, c) && Grounded(c) && TerminalSources(c)
    ensures Reaches(c, list, Drain(ident, c, list, live, None, replay).0)
  {
    FirstToward(c, list, live);
    DrainToward(ident, c, c, list, live, replay);
    DrainSettles(ident, c, list, live, None, replay);
    SettledShows(Drain(ident, c, list, live, None, replay).0, list, live);
  }

  // --- The reference encoder ends there ---

  lemma LegacyReleaseEffect(r: Pass1, p: HostPlacement, r': Pass1)
    requires r' == LegacyRelease(r, p.source, p.HostId())
    ensures r'.cache.sources == r.cache.sources[p.source := p.HostId()]
    ensures r'.cache.images == map i | i in r.cache.images && !Superseded(r.cache, p, i) :: r.cache.images[i]
    ensures r'.cache.placements == map k | k in r.cache.placements
            && !Superseded(r.cache, p, k.0) :: r.cache.placements[k]
    ensures forall k :: k in r'.wanted ==> k in r.wanted
    ensures forall k :: k in r.wanted ==> k in r'.wanted || Superseded(r.cache, p, k.0)
  {
    var moved := r.cache.(sources := r.cache.sources[p.source := p.HostId()]);
    if p.source in r.cache.sources {
      ReferencedAfter(r.cache, p, moved, r.cache.sources[p.source]);
    }
  }

  /** One visit of the reference encoder has the same effect as a transaction, and forgets as wanted only
      the placements of an image it deletes. */
  lemma LegacyEffect(ident: Ident, r: Pass1, p: HostPlacement, viewChanged: bool, r': Pass1)
    requires Faithful(ident, r.cache) && Identified(ident, p) && p.source.TerminalImage? && p.Visible() && p.data != []
    requires r' == LegacyVisit(r, p, viewChanged)
    ensures CoreEffect(r.cache, p, r'.cache)
    ensures forall k :: k in r'.wanted ==> k in r.wanted || k == p.Key()
    ensures forall k :: k in r.wanted || k == p.Key() ==> k in r'.wanted || Superseded(r.cache, p, k.0)
  {
    var c, id := r.cache, p.HostId();
    var wanted := r.(wanted := r.wanted + {p.Key()});
    var uploaded := if id in c.images then wanted
                    else wanted.(cache := c.(images := c.images[id := p.signature]),
                                 commands := r.commands + [Upload(id, p.Payload())]);
    var released := LegacyRelease(uploaded, p.source, id);
    assert r'.cache.placements == released.cache.placements[p.Key() := p.Placed()];
    assert r'.cache.images == released.cache.images && r'.wanted == released.wanted;
    LegacyReleaseEffect(uploaded, p, released);
    assert forall i :: Superseded(uploaded.cache, p, i) == Superseded(c, p, i);
  }

  lemma {:induction false} LegacyScanReaches(ident: Ident, c0: Cache, r: Pass1, list: seq<HostPlacement>,
                                             live: set<SourceKey>, rest: seq<HostPlacement>, viewChanged: bool,
                                             r': Pass1, passed: set<HostPlacement>)
    requires TerminalList(ident, list, live) && Faithful(ident, r.cache) && Toward(c0, list, r.cache)
    requires (forall p :: p in rest ==> p in list) && (forall p :: p in passed ==> p in list)
    requires forall p :: p in passed && p.Visible() ==> CoreCurrent(r.cache, p) && p.Key() in r.wanted
    requires r.wanted <= DesiredKeys(list) && r' == LegacyScan(r, rest, viewChanged)
    ensures Toward(c0, list, r'.cache) && r'.wanted <= DesiredKeys(list)
    ensures forall p :: (p in passed || p in rest) && p.Visible() ==> CoreCurrent(r'.cache, p) && p.Key() in r'.wanted
    decreases |rest|
  {
    if rest != [] {
      var p := rest[0];
      assert p in rest;
      var next := LegacyVisit(r, p, viewChanged);
      if p.Visible() {
        assert Identified(ident, p);
        LegacyEffect(ident, r, p, viewChanged, next);
        TowardStep(ident, c0, list, live, r.cache, p, next.cache);
        CoreFaithful(ident, r.cache, p, next.cache);
        forall q | q in passed + {p} && q.Visible() ensures CoreCurrent(next.cache, q) && q.Key() in next.wanted {
          assert Identified(ident, q) && Apart(p, q);
          CoreCurrentStays(ident, r.cache, p, next.cache, q);
        }
      }
      LegacyScanReaches(ident, c0, next, list, live, rest[1..], viewChanged, r', passed + {p});
    }
  }

  lemma CoreFaithful(ident: Ident, c: Cache, p: HostPlacement, c': Cache)
    requires Faithful(ident, c) && Identified(ident, p) && CoreEffect(c, p, c')
    ensures Faithful(ident, c')
  {
  }

  lemma LegacyReaches(ident: Ident, c: Cache, list: seq<HostPlacement>, live: set<SourceKey>, viewChanged: bool)
    requires TerminalList(ident, list, live) && Faithful(ident, c) && Grounded(c) && TerminalSources(c)
    ensures Reaches(c, list, Legacy(c, list, viewChanged))
  {
    var start := LegacyStart(c, list);
    var r := LegacyScan(start, list, viewChanged);
    FirstToward(c, list, live);
    TowardFrame(c, list, Retain(c, list, live), start.cache);
    LegacyScanReaches(ident, c, start, list, live, list, viewChanged, r, {});
    var c' := Legacy(c, list, viewChanged);
    TowardFrame(c, list, r.cache, c');
    forall k ensures k in c'.placements <==> k in DesiredKeys(list) {
      if k in DesiredKeys(list) {
        var p :| p in list && p.Visible() && p.Key() == k;
        assert CoreCurrent(r.cache, p);
      }
    }
    forall p | p in list && p.Visible() ensures CoreCurrent(c', p) {
      assert CoreCurrent(r.cache, p);
    }
  }

  /** Draining the incremental encoder and running the reference encoder once end with the same images,
      placements and sources, wherever the drain resumes from and whether or not it replays. */
  lemma IncrementalEqualsReference(ident: Ident, c: Cache, list: seq<HostPlacement>, live: set<SourceKey>, replay: bool,
                                   viewChanged: bool)
    requires TerminalList(ident, list, live) && Faithful(ident, c) && Grounded(c) && TerminalSources(c)
    ensures var drained := Drain(ident, c, list, live, None, replay).0;
            var reference := Legacy(c, list, viewChanged);
            && drained.images == reference.images
            && drained.placements == reference.placements
            && drained.sources == reference.sources
  {
    DrainReaches(ident, c, list, live, replay);
    LegacyReaches(ident, c, list, live, viewChanged);
    ReachesOne(c, list, Drain(ident, c, list, live, None, replay).0, Legacy(c, list, viewChanged));
  }

  // --- A changed view ---

  lemma VisitDisplays(r: Pass1, p: HostPlacement)
    requires p.Visible() && p.data != []
    ensures (p.hashedHostId, p.placementId) in Displayed(LegacyVisit(r, p, true).commands)
  {
    var display := Display(p.hashedHostId, p.placementId, p.clip.value);
    assert display in LegacyVisit(r, p, true).commands;
  }

  lemma VisitKeepsCommands(r: Pass1, p: HostPlacement, viewChanged: bool)
    ensures r.commands <= LegacyVisit(r, p, viewChanged).commands
  {
  }

  lemma {:induction false} ScanKeepsCommands(r: Pass1, list: seq<HostPlacement>, viewChanged: bool)
    ensures r.commands <= LegacyScan(r, list, viewChanged).commands
    decreases |list|
  {
    if list != [] {
      VisitKeepsCommands(r, list[0], viewChanged);
      ScanKeepsCommands(LegacyVisit(r, list[0], viewChanged), list[1..], viewChanged);
    }
  }

  lemma {:induction false} ScanDisplays(r: Pass1, list: seq<HostPlacement>, p: HostPlacement)
    requires p in list && p.Visible() && p.data != []
    ensures (p.hashedHostId, p.placementId) in Displayed(LegacyScan(r, list, true).commands)
    decreases |list|
  {
    var next := LegacyVisit(r, list[0], true);
    if p == list[0] {
      VisitDisplays(r, p);
      ScanKeepsCommands(next, list[1..], true);
      var d :| d in next.commands && (d.Display? || d.TransmitAndDisplay?)
               && (d.id, d.placement) == (p.hashedHostId, p.placementId);
      assert d in LegacyScan(r, list, true).commands;
    } else {
      ScanDisplays(next, list[1..], p);
    }
  }

  /** When the view changed, the one-pass encoder displays every visible entry with data again, current or not. */
  lemma LegacyDisplaysAll(c: Cache, list: seq<HostPlacement>, commands: seq<Command>, p: HostPlacement)
    requires LegacyCommands(c, list, true, commands) && p in list && p.Visible() && p.data != []
    ensures (p.hashedHostId, p.placementId) in Displayed(commands)
  {
    var r := LegacyScan(LegacyStart(c, list), list, true);
    ScanDisplays(LegacyStart(c, list), list, p);
    var d :| d in r.commands && (d.Display? || d.TransmitAndDisplay?)
             && (d.id, d.placement) == (p.hashedHostId, p.placementId);
    assert d in commands;
  }
}
