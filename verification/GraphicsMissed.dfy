/**
 Exactly which entries a complete call misses: those without data whose image is the first that no source shows any
 more, when the sources are followed through the order in which the call visits its entries.
 */
module GraphicsMissed {
  import opened Prelude
  import opened KittyProtocol
  import opened GraphicsSpec
  import opened GraphicsMirror
  import opened GraphicsDrain
  import opened GraphicsCollected

  // --- The condition ---

  type Sources = map<SourceKey, u32>

  predicate ShownBy(sources: Sources, id: u32) {
    exists s :: s in sources && sources[s] == id
  }

  /** No image loses its last source. */
  predicate KeepsShown(before: Sources, after: Sources) {
    forall s :: s in before ==> ShownBy(after, before[s])
  }

  /** Vanished pane layers are all that shows the image. */
  predicate OnlyDead(c: Cache, live: set<SourceKey>, id: u32) {
    ShownBy(c.sources, id) && forall s :: s in c.sources && c.sources[s] == id ==> s.PaneLayer? && s !in live
  }

  /** The cache in which the visits start, as far as images and sources are concerned. */
  function AfterFront(c: Cache, list: seq<HostPlacement>, live: set<SourceKey>): Cache {
    var desired := DesiredSources(list);
    c.(images := map id | id in c.images && !OnlyDead(c, live, id) :: c.images[id],
       sources := map s | s in c.sources && (if s.PaneLayer? then s in live else s in desired) :: c.sources[s])
  }

  /** A visit of `p` makes its source show its image: it is visible, not set aside, and the terminal has the image or
      can be sent it. */
  predicate Showable(f: Cache, p: HostPlacement, budget: Option<nat>) {
    && p.Visible() && !Quarantined(f, p, budget)
    && (f.ImageCurrent(p) || (p.data != [] && ImageTransactionFits(p, budget)))
  }

  /** Among the first `m` entries visited from `index` round, none that can be shown has the image, and every source
      that shows it belongs to one that can be shown. */
  ghost predicate Deserted(f: Cache, list: seq<HostPlacement>, index: nat, m: nat, sources: Sources,
                           budget: Option<nat>, id: u32)
    requires m > 0 ==> index < |list|
  {
    && ShownBy(sources, id)
    && (forall p :: p in Ahead(list, index, m) && Showable(f, p, budget) ==> p.HostId() != id)
    && (forall s :: s in sources && sources[s] == id ==>
          exists p :: p in Ahead(list, index, m) && p.source == s && Showable(f, p, budget))
  }

  /** No other image is deserted sooner. */
  ghost predicate DesertedFirst(f: Cache, list: seq<HostPlacement>, index: nat, left: nat, sources: Sources,
                                budget: Option<nat>, id: u32)
    requires left > 0 ==> index < |list|
  {
    exists m: nat :: m <= left && Deserted(f, list, index, m, sources, budget, id)
                     && forall n: nat, other {:trigger Deserted(f, list, index, n, sources, budget, other)} ::
                          n < m ==> !Deserted(f, list, index, n, sources, budget, other)
  }

  /** The image that a complete call takes from the entries that show it. */
  ghost predicate Abandoned(c: Cache, list: seq<HostPlacement>, live: set<SourceKey>, budget: Option<nat>, id: u32) {
    var f := AfterFront(c, list, live);
    OnlyDead(c, live, id) || (list != [] && DesertedFirst(f, list, StartIndex(c, list), |list|, f.sources, budget, id))
  }

  // --- The front of the call ---

  lemma {:induction false} DropDeadOutcome(c: Cache, live: set<SourceKey>, dead: seq<SourceKey>, commands: seq<Command>,
                                           emitted: bool)
    requires forall s :: s in dead ==> s.PaneLayer? && s !in live
    requires forall s :: s in c.sources && s.PaneLayer? && s !in live ==> s in dead
    requires Grounded(c)
    ensures var s := DropDead(c, dead, commands, emitted);
            && Grounded(s.cache) && s.cache.oversized == c.oversized
            && (!s.stopped ==>
                 && s.cache.sources == (map x | x in c.sources && (x.PaneLayer? ==> x in live) :: c.sources[x])
                 && s.cache.images == (map id | id in c.images && !OnlyDead(c, live, id) :: c.images[id]))
    decreases |dead|
  {
    if dead == [] {
      assert forall x :: x in c.sources ==> (x.PaneLayer? ==> x in live);
      assert (map x | x in c.sources && (x.PaneLayer? ==> x in live) :: c.sources[x]) == c.sources;
      assert forall id :: !OnlyDead(c, live, id);
      assert (map id | id in c.images && !OnlyDead(c, live, id) :: c.images[id]) == c.images;
    } else if dead[0] !in c.sources {
      assert forall s :: s in dead[1..] ==> s in dead;
      DropDeadOutcome(c, live, dead[1..], commands, emitted);
    } else {
      var id := c.sources[dead[0]];
      var removed := c.(sources := c.sources - {dead[0]});
      var last := !c.ReferencedByOther(dead[0], id);
      assert forall s :: s in dead[1..] ==> s in dead;
      if !(emitted && last) {
        var next := if last then DropImage(removed, id) else removed;
        OneDead(c, live, dead[0], next);
        DropDeadOutcome(next, live, dead[1..], if last then commands + [DeleteImage(id)] else commands,
                        emitted || last);
      }
    }
  }

  lemma OneDead(c: Cache, live: set<SourceKey>, source: SourceKey, next: Cache)
    requires Grounded(c) && source in c.sources && source.PaneLayer? && source !in live
    requires var removed := c.(sources := c.sources - {source});
             next == if c.ReferencedByOther(source, c.sources[source]) then removed
                 else DropImage(removed, c.sources[source])
    ensures Grounded(next) && next.sources == c.sources - {source}
    ensures (map id | id in next.images && !OnlyDead(next, live, id) :: next.images[id])
            == (map id | id in c.images && !OnlyDead(c, live, id) :: c.images[id])
  {
    var h := c.sources[source];
    forall id ensures id in next.images && !OnlyDead(next, live, id) <==> id in c.images && !OnlyDead(c, live, id) {
      if id == h {
        if c.ReferencedByOther(source, h) {
          var s :| s in c.sources && s != source && c.sources[s] == h;
          assert s in next.sources && next.sources[s] == h;
        } else {
          assert OnlyDead(c, live, h);
        }
      } else {
        assert forall s :: s in c.sources && c.sources[s] == id ==> s in next.sources && next.sources[s] == id;
      }
    }
  }

  lemma {:induction false} DropStaleGrounded(c: Cache, stale: seq<Key>, commands: seq<Command>, emitted: bool)
    requires Grounded(c)
    ensures Grounded(DropStale(c, stale, commands, emitted).cache)
    ensures DropStale(c, stale, commands, emitted).cache.oversized == c.oversized
    decreases |stale|
  {
    if stale != [] && !emitted {
      DropStaleGrounded(DropPlacement(c, stale[0]), stale[1..], commands + [DeletePlacement(stale[0].0, stale[0].1)],
                        true);
    }
  }

  /** Retaining after the vanished layers are gone. */
  lemma RetainOutcome(c: Cache, dead: Cache, list: seq<HostPlacement>, live: set<SourceKey>, kept: Cache)
    requires kept == Retain(dead, list, live) && dead.oversized == c.oversized && Grounded(dead)
    requires dead.sources == (map x | x in c.sources && (x.PaneLayer? ==> x in live) :: c.sources[x])
    ensures Grounded(kept) && kept.images == dead.images && kept.sources == AfterFront(c, list, live).sources
    ensures forall p, b {:trigger Quarantined(c, p, b)} ::
              p in list ==> (Quarantined(kept, p, b) <==> Quarantined(c, p, b))
  {
    assert forall p :: p in list ==> p.source in DesiredSources(list);
  }

  lemma FrontOutcome(c: Cache, list: seq<HostPlacement>, live: set<SourceKey>, front: Stage)
    requires Grounded(c) && front == Front(c, list, live) && !front.stopped
    ensures Grounded(front.cache)
    ensures front.cache.images == AfterFront(c, list, live).images
    ensures front.cache.sources == AfterFront(c, list, live).sources
    ensures forall p, b {:trigger Quarantined(c, p, b)} ::
              p in list ==> (Quarantined(front.cache, p, b) <==> Quarantined(c, p, b))
  {
    var sources := SortedSources(DeadSources(c, live));
    DropDeadOutcome(c, live, sources, [], false);
    var dead := DropDead(c, sources, [], false);
    var kept := Retain(dead.cache, list, live);
    RetainOutcome(c, dead.cache, list, live, kept);
    var stale := SortedKeys(StaleKeys(kept, list));
    DropStaleGrounded(kept, stale, dead.commands, dead.emitted);
    DropStaleFrame(kept, stale, dead.commands, dead.emitted);
  }

  // --- One visit ---

  /** What a visit does to images, sources and placements when host ids do not collide. */
  ghost predicate Kind(c: Cache, p: HostPlacement, budget: Option<nat>, v: Visit) {
    match v
    case Pass(next) =>
      && next.images == c.images && next.placements.Keys == c.placements.Keys
      && if next.sources == c.sources[p.source := p.HostId()]
         then Quiet(c, p, budget)
         else next.sources == c.sources && Refused(c, p, budget)
    case Emit(_, after, _) =>
      && after.sources == c.sources[p.source := p.HostId()] && Showable(c, p, budget) && Held(after, p)
      && after.placements.Keys <= c.placements.Keys + {p.Key()}
      && if KeepsShown(c.sources, after.sources) then after.images == c.images[p.HostId() := p.signature]
         else p.source in c.sources && after.images == (c.images - {c.sources[p.source]})[p.HostId() := p.signature]
  }

  /** The source shows the image already, or moves to it without a command. */
  ghost predicate Quiet(c: Cache, p: HostPlacement, budget: Option<nat>) {
    c.SourceCurrent(p) ||
    (p.Visible() && !Quarantined(c, p, budget) && c.ImageCurrent(p) && p.Key() in c.placements
     && KeepsShown(c.sources, c.sources[p.source := p.HostId()]))
  }

  predicate Refused(c: Cache, p: HostPlacement, budget: Option<nat>) {
    !p.Visible() || Quarantined(c, p, budget)
        || (!c.ImageCurrent(p) && (p.data == [] || !ImageTransactionFits(p, budget)))
  }

  /** The mark of a visit: none of its own source is removed that counts, and a new one is of an image that is not
      there and too large. */
  ghost predicate Marks(c: Cache, p: HostPlacement, budget: Option<nat>, next: Cache) {
    && (forall s :: s != p.source ==> (s in next.oversized <==> s in c.oversized)
                                      && (s in c.oversized ==> next.oversized[s] == c.oversized[s]))
    && (Quarantined(c, p, budget) ==> next.oversized == c.oversized)
    && (!Quarantined(c, p, budget) && p.source in next.oversized ==>
          next.oversized[p.source] == p.signature && !c.ImageCurrent(p) && !ImageTransactionFits(p, budget))
  }

  lemma VisitMarks(c: Cache, p: HostPlacement, budget: Option<nat>, v: Visit)
    requires v == VisitPlacement(c, p, budget)
    ensures Marks(c, p, budget, if v.Pass? then v.cache else v.after)
  {
    VisitCases(c, p, budget, v);
    MarkedMarks(c, p, budget);
    SameMarks(c, p, budget, Marked(c, p, budget), if v.Pass? then v.cache else v.after);
  }

  lemma SameMarks(c: Cache, p: HostPlacement, budget: Option<nat>, a: Cache, b: Cache)
    requires Marks(c, p, budget, a) && a.oversized == b.oversized
    ensures Marks(c, p, budget, b)
  {
  }

  lemma MarkedMarks(c: Cache, p: HostPlacement, budget: Option<nat>)
    ensures Marks(c, p, budget, Marked(c, p, budget))
  {
  }

  lemma UpdateKind(ident: Ident, c: Cache, p: HostPlacement, c': Cache)
    requires Faithful(ident, c) && Identified(ident, p) && Effect(c, p, c')
    ensures c'.sources == c.sources[p.source := p.HostId()] && Held(c', p)
    ensures c'.placements.Keys <= c.placements.Keys + {p.Key()}
    ensures if KeepsShown(c.sources, c'.sources) then c'.images == c.images[p.HostId() := p.signature]
            else p.source in c.sources && c'.images == (c.images - {c.sources[p.source]})[p.HostId() := p.signature]
  {
    assert c'.sources[p.source] == p.HostId();
    if p.source in c.sources {
      var previous := c.sources[p.source];
      assert previous != p.HostId() && !c.ReferencedByOther(p.source, previous) <==> !ShownBy(c'.sources, previous) by {
        if c.ReferencedByOther(p.source, previous) {
          var s :| s in c.sources && s != p.source && c.sources[s] == previous;
          assert s in c'.sources && c'.sources[s] == previous;
        }
      }
    }
    forall s | s in c.sources && (s != p.source || !Superseded(c, p, c.sources[s]))
        ensures ShownBy(c'.sources, c.sources[s]) {
      if s != p.source {
        assert c'.sources[s] == c.sources[s];
      }
    }
  }

  /** An update without commands leaves images and placements as they are. */
  lemma SilentUpdate(c: Cache, p: HostPlacement, c': Cache)
    requires PlacementUpdate(c, p) == Some((c', []))
    ensures c.ImageCurrent(p) && p.Key() in c.placements && c'.images == c.images
            && c'.placements.Keys == c.placements.Keys
    ensures c'.sources == c.sources[p.source := p.HostId()] && KeepsShown(c.sources, c'.sources)
  {
    UpdateEffect(c, p, c', []);
    var (_, pixels, _) := SendImage(c, p);
    assert pixels == [];
    var (_, deletes) := Release(c, p.source, p.HostId());
    assert deletes == [];
    forall s | s in c.sources ensures ShownBy(c'.sources, c.sources[s]) {
      if s != p.source {
        assert c'.sources[s] == c.sources[s];
      } else if c.sources[s] != p.HostId() {
        var moved := c.(sources := c.sources[p.source := p.HostId()]);
        assert moved.Referenced(c.sources[s]);
      }
    }
  }

  lemma VisitKind(ident: Ident, c: Cache, p: HostPlacement, budget: Option<nat>, v: Visit)
    requires Faithful(ident, c) && Identified(ident, p) && v == VisitPlacement(c, p, budget)
    ensures Kind(c, p, budget, v)
  {
    var c1 := c.(oversized := c.oversized - {p.source});
    if !Quarantined(c, p, budget) && (c1.ImageCurrent(p) || ImageTransactionFits(p, budget)) {
      var update := PlacementUpdate(c1, p);
      if update.Some? && update.value.1 == [] {
        SilentUpdate(c1, p, update.value.0);
      } else if update.Some? {
        UpdateEffect(c1, p, update.value.0, update.value.1);
        FrameFaithful(ident, c, c1);
        UpdateKind(ident, c1, p, update.value.0);
      } else if c1.Current(p) {
        assert c.sources[p.source := p.HostId()] == c.sources;
      }
    }
  }

  // --- The scan ---

  function Moved(f: Cache, p: HostPlacement, sources: Sources, budget: Option<nat>): Sources {
    if Showable(f, p, budget) then sources[p.source := p.HostId()] else sources
  }

  /** Following the sources through the `left` entries from `index` round, `id` is the first image to lose its last
      source. */
  predicate AbandonedFirst(f: Cache, list: seq<HostPlacement>, index: nat, left: nat, sources: Sources,
                           budget: Option<nat>, id: u32)
    requires left > 0 ==> index < |list|
    decreases left
  {
    left > 0 &&
    var next := Moved(f, list[index], sources, budget);
    if KeepsShown(sources, next) then AbandonedFirst(f, list, NextIndex(list, index), left - 1, next, budget, id)
    else ShownBy(sources, id) && !ShownBy(next, id)
  }

  /** Where a scan stands that started in `f`: its sources are those followed so far; before anything was emitted the
      images are those of `f`, and afterwards only the image of the emitted entry `sent` is new. */
  ghost predicate Followed(ident: Ident, f: Cache, c: Cache, list: seq<HostPlacement>, sources: Sources,
                           budget: Option<nat>, sent: Option<HostPlacement>) {
    && Faithful(ident, c) && c.sources == sources
    && AllRemarked(f, c, list, budget)
    && match sent
       case None => c.images == f.images && forall k :: k in c.placements ==> k.0 in f.images
       case Some(x) =>
         && x in list && Showable(f, x, budget) && f.images.Keys <= c.images.Keys
         && c.ImageCurrent(x)
         && (forall p: HostPlacement {:trigger SameOn(f, c, p)} :: p.HostId() != x.HostId() ==> SameOn(f, c, p))
         && (!f.ImageCurrent(x) ==> forall k :: k in c.placements && k.0 == x.HostId() ==> k == x.Key())
  }

  predicate SameOn(f: Cache, c: Cache, p: HostPlacement) { f.ImageCurrent(p) <==> c.ImageCurrent(p) }

  ghost predicate AllRemarked(f: Cache, c: Cache, list: seq<HostPlacement>, budget: Option<nat>) {
    forall p {:trigger Remarked(f, c, p, budget)} :: p in list ==> Remarked(f, c, p, budget)
  }

  /** Marks only appear, and only on images that are too large to be sent. */
  ghost predicate Remarked(f: Cache, c: Cache, p: HostPlacement, budget: Option<nat>) {
    && (Quarantined(f, p, budget) ==> Quarantined(c, p, budget))
    && (Quarantined(c, p, budget) && !Quarantined(f, p, budget) ==>
        !f.ImageCurrent(p) && !ImageTransactionFits(p, budget))
  }

  lemma MarksFollow(ident: Ident, f: Cache, c: Cache, list: seq<HostPlacement>, live: set<SourceKey>, p: HostPlacement,
                    budget: Option<nat>, next: Cache)
    requires Coherent(ident, list, live) && p in list && Marks(c, p, budget, next)
    requires AllRemarked(f, c, list, budget) && (f.ImageCurrent(p) ==> c.ImageCurrent(p))
    ensures AllRemarked(f, next, list, budget)
  {
    forall q | q in list ensures Remarked(f, next, q, budget) {
      MarkFollows(ident, f, c, list, live, p, budget, next, q);
    }
  }

  lemma MarkFollows(ident: Ident, f: Cache, c: Cache, list: seq<HostPlacement>, live: set<SourceKey>, p: HostPlacement,
                    budget: Option<nat>, next: Cache, q: HostPlacement)
    requires Coherent(ident, list, live) && p in list && q in list && Marks(c, p, budget, next)
    requires AllRemarked(f, c, list, budget) && (f.ImageCurrent(p) ==> c.ImageCurrent(p))
    ensures Remarked(f, next, q, budget)
  {
    assert Remarked(f, c, p, budget) && Remarked(f, c, q, budget);
    assert Identified(ident, p) && Identified(ident, q) && Apart(p, q);
    if p.source == q.source { SameImage(ident, f, p, q); }
  }

  /** Where a scan stands in agreement with `f`, the terminal has every image that it had in `f`. */
  lemma StillCurrent(ident: Ident, f: Cache, c: Cache, list: seq<HostPlacement>, live: set<SourceKey>, sources: Sources,
                     budget: Option<nat>, sent: Option<HostPlacement>, p: HostPlacement)
    requires Coherent(ident, list, live) && Followed(ident, f, c, list, sources, budget, sent) && p in list
    ensures f.ImageCurrent(p) ==> c.ImageCurrent(p)
    ensures c.ImageCurrent(p) && !f.ImageCurrent(p) ==>
            sent.Some? && p.HostId() == sent.value.HostId() && !f.ImageCurrent(sent.value)
  {
    assert SameOn(f, c, p) || (sent.Some? && p.HostId() == sent.value.HostId());
    if sent.Some? && p.HostId() == sent.value.HostId() {
      assert Identified(ident, sent.value) && Identified(ident, p) && Apart(sent.value, p);
      SameImage(ident, c, sent.value, p);
      SameImage(ident, f, sent.value, p);
    }
  }

  /** A visit that passes moves the sources as they are followed. */
  lemma PassMoves(ident: Ident, f: Cache, c: Cache, list: seq<HostPlacement>, live: set<SourceKey>, sources: Sources,
                  budget: Option<nat>, sent: Option<HostPlacement>, p: HostPlacement, v: Visit)
    requires Coherent(ident, list, live) && Followed(ident, f, c, list, sources, budget, sent) && p in list
    requires Kind(c, p, budget, v) && v.Pass?
    ensures v.cache.sources == Moved(f, p, sources, budget) && KeepsShown(sources, v.cache.sources)
  {
    StillCurrent(ident, f, c, list, live, sources, budget, sent, p);
    assert Remarked(f, c, p, budget);
    if c.SourceCurrent(p) {
      assert sources[p.source := p.HostId()] == sources;
    } else if v.cache.sources == c.sources[p.source := p.HostId()] {
      if !f.ImageCurrent(p) {
        assert Identified(ident, sent.value) && Identified(ident, p) && Apart(sent.value, p);
        assert p.Key() == sent.value.Key();
      }
    } else {
      assert Refused(c, p, budget) && !Showable(f, p, budget);
    }
    assert forall s :: s in sources ==> sources[s] == sources[s];
  }

  lemma PassFollows(ident: Ident, f: Cache, c: Cache, list: seq<HostPlacement>, live: set<SourceKey>, sources: Sources,
                    budget: Option<nat>, sent: Option<HostPlacement>, p: HostPlacement, v: Visit)
    requires Coherent(ident, list, live) && Followed(ident, f, c, list, sources, budget, sent) && p in list
    requires Kind(c, p, budget, v) && v.Pass? && Marks(c, p, budget, v.cache) && Faithful(ident, v.cache)
    ensures Followed(ident, f, v.cache, list, v.cache.sources, budget, sent)
  {
    StillCurrent(ident, f, c, list, live, sources, budget, sent, p);
    assert Remarked(f, c, p, budget);
    MarksFollow(ident, f, c, list, live, p, budget, v.cache);
    assert forall q {:trigger SameOn(f, v.cache, q)} :: SameOn(f, c, q) <==> SameOn(f, v.cache, q);
  }

  lemma EmitFollows(ident: Ident, f: Cache, c: Cache, list: seq<HostPlacement>, live: set<SourceKey>, sources: Sources,
                    budget: Option<nat>, p: HostPlacement, v: Visit, next: Cache)
    requires Coherent(ident, list, live) && Followed(ident, f, c, list, sources, budget, None) && p in list
    requires Kind(c, p, budget, v) && v.Emit? && Marks(c, p, budget, v.after) && Faithful(ident, v.after)
    requires next == v.after.(continuation := next.continuation)
    ensures next.sources == Moved(f, p, sources, budget)
    ensures KeepsShown(sources, next.sources) ==> Followed(ident, f, next, list, next.sources, budget, Some(p))
  {
    assert Remarked(f, c, p, budget);
    if KeepsShown(sources, next.sources) {
      assert next.images == c.images[p.HostId() := p.signature];
      MarksFollow(ident, f, c, list, live, p, budget, next);
      assert Identified(ident, p);
    }
  }

  ghost predicate VisitsInKind(visit: Visitor, ident: Ident, budget: Option<nat>) {
    forall c, p {:trigger Asked(c, p)} :: Faithful(ident, c) && Identified(ident, p) ==>
      Kind(c, p, budget, visit(c, p))
          && Marks(c, p, budget, if visit(c, p).Pass? then visit(c, p).cache else visit(c, p).after)
  }

  lemma VisitingInKind(ident: Ident, budget: Option<nat>)
    ensures VisitsInKind(Visiting(budget), ident, budget)
  {
    forall c, p | Faithful(ident, c) && Identified(ident, p)
      ensures var v := Visiting(budget)(c, p);
              Kind(c, p, budget, v) && Marks(c, p, budget, if v.Pass? then v.cache else v.after)
    {
      VisitKind(ident, c, p, budget, Visiting(budget)(c, p));
      VisitMarks(c, p, budget, Visiting(budget)(c, p));
    }
  }

  /** `q` is shown, or its image is there and its visit is yet to come. */
  ghost predicate InHand(c: Cache, q: HostPlacement, budget: Option<nat>, ahead: set<HostPlacement>) {
    c.ImageCurrent(q) && !Quarantined(c, q, budget) && (c.Current(q) || q in ahead)
  }

  /** A visit that leaves the image of `q` keeps `q` in hand. */
  lemma StepInHand(visit: Visitor, ident: Ident, c: Cache, list: seq<HostPlacement>, live: set<SourceKey>,
                   budget: Option<nat>, index: nat, v: Visit, next: Cache, q: HostPlacement, ahead: set<HostPlacement>)
    requires VisitsWell(visit, budget) && ServesCurrent(visit, budget) && VisitsInKind(visit, ident, budget)
    requires Coherent(ident, list, live) && Faithful(ident, c) && index < |list| && q in list && q.Visible()
    requires v == visit(c, list[index]) && next == After(v, list, index)
    requires InHand(c, q, budget, {list[index]} + ahead) && next.ImageCurrent(q)
    ensures InHand(next, q, budget, ahead) && Faithful(ident, next)
  {
    var p := list[index];
    StepDrains(visit, ident, c, list, live, budget, index, v, next, {});
    StepAsked(visit, c, p, budget);
    assert Asked(c, p) && Identified(ident, p) && Identified(ident, q) && Apart(p, q);
    if p.source == q.source { SameImage(ident, c, p, q); }
    if c.Current(q) {
      ServedStays(ident, c, list, live, p, budget, Marked(c, p, budget), v, q);
    }
  }

  /** In a call that completes, the scan goes on after every visit. */
  lemma ScanGoesOn(visit: Visitor, c: Cache, list: seq<HostPlacement>, index: nat, left: nat, commands: seq<Command>,
                   emitted: bool, o: Outcome, v: Visit, next: Cache)
    requires 0 < left && index < |list| && o == Scan(visit, c, list, index, left, commands, emitted) && !o.incomplete
    requires v == visit(c, list[index]) && next == After(v, list, index)
    ensures v.Emit? ==> !emitted
    ensures o == Scan(visit, next, list, NextIndex(list, index), left - 1, if v.Pass? then commands else v.commands,
                      emitted || v.Emit?)
  {
  }

  /** Once something was emitted, the rest of a call that completes leaves the images, and serves what is in hand. */
  lemma {:induction false} RestServes(visit: Visitor, ident: Ident, c: Cache, list: seq<HostPlacement>,
                                      live: set<SourceKey>, budget: Option<nat>, index: nat, left: nat,
                                      commands: seq<Command>, o: Outcome, q: HostPlacement)
    requires VisitsWell(visit, budget) && ServesCurrent(visit, budget) && VisitsInKind(visit, ident, budget)
    requires Coherent(ident, list, live) && Faithful(ident, c) && (left > 0 ==> index < |list|) && q in list
             && q.Visible()
    requires o == Scan(visit, c, list, index, left, commands, true) && !o.incomplete
    ensures o.cache.images == c.images
    ensures InHand(c, q, budget, Ahead(list, index, left)) ==> o.cache.Current(q)
    decreases left
  {
    if left > 0 {
      var v := visit(c, list[index]);
      ScanGoesOn(visit, c, list, index, left, commands, true, o, v, After(v, list, index));
      assert Asked(c, list[index]) && Identified(ident, list[index]);
      StepDrains(visit, ident, c, list, live, budget, index, v, After(v, list, index), {});
      var ahead := Ahead(list, NextIndex(list, index), left - 1);
      if InHand(c, q, budget, {list[index]} + ahead) {
        StepInHand(visit, ident, c, list, live, budget, index, v, v.cache, q, ahead);
      }
      RestServes(visit, ident, v.cache, list, live, budget, NextIndex(list, index), left - 1, commands, o, q);
    }
  }

  /** The visit that leaves an image without a source, in a call that completes: `q` is missed if that is its image. */
  lemma EmitLoses(visit: Visitor, ident: Ident, c: Cache, list: seq<HostPlacement>, live: set<SourceKey>,
                  budget: Option<nat>, index: nat, left: nat, o: Outcome, v: Visit, next: Cache, q: HostPlacement,
                  ahead: set<HostPlacement>)
    requires VisitsWell(visit, budget) && ServesCurrent(visit, budget) && VisitsInKind(visit, ident, budget)
    requires Coherent(ident, list, live) && Faithful(ident, c) && index < |list| && q in list && q.Visible()
    requires v == visit(c, list[index]) && v.Emit? && next == After(v, list, index)
    requires o == Scan(visit, next, list, NextIndex(list, index), left, v.commands, true) && !o.incomplete
    requires ahead == Ahead(list, NextIndex(list, index), left) && InHand(c, q, budget, {list[index]} + ahead)
    requires !KeepsShown(c.sources, next.sources)
    ensures o.cache.Current(q) <==> !(ShownBy(c.sources, q.HostId()) && !ShownBy(next.sources, q.HostId()))
  {
    var p := list[index];
    assert Asked(c, p) && Identified(ident, p) && Identified(ident, q) && Apart(p, q);
    StepDrains(visit, ident, c, list, live, budget, index, v, next, {});
    if p.HostId() == q.HostId() { SameImage(ident, c, p, q); }
    LostOne(c, p, next, q);
    if next.ImageCurrent(q) { StepInHand(visit, ident, c, list, live, budget, index, v, next, q, ahead); }
    RestServes(visit, ident, next, list, live, budget, NextIndex(list, index), left, v.commands, o, q);
  }

  /** The one image that loses its last source goes; every other stays. */
  lemma LostOne(c: Cache, p: HostPlacement, next: Cache, q: HostPlacement)
    requires next.sources == c.sources[p.source := p.HostId()]
    requires p.source in c.sources && next.images == (c.images - {c.sources[p.source]})[p.HostId() := p.signature]
    requires !KeepsShown(c.sources, next.sources) && c.ImageCurrent(q)
             && (p.HostId() == q.HostId() ==> p.signature == q.signature)
    ensures next.ImageCurrent(q) <==> !(ShownBy(c.sources, q.HostId()) && !ShownBy(next.sources, q.HostId()))
  {
    var previous := c.sources[p.source];
    forall x | x in c.sources && x != p.source ensures ShownBy(next.sources, c.sources[x]) {
      assert next.sources[x] == c.sources[x];
    }
    assert !ShownBy(next.sources, previous);
    assert next.sources[p.source] == p.HostId();
    if q.HostId() != previous && ShownBy(c.sources, q.HostId()) {
      var x :| x in c.sources && c.sources[x] == q.HostId();
      assert ShownBy(next.sources, c.sources[x]);
    }
  }

  /** What the scans below assume of a visit. */
  ghost predicate Visits(visit: Visitor, ident: Ident, budget: Option<nat>) {
    VisitsWell(visit, budget) && ServesCurrent(visit, budget) && VisitsInKind(visit, ident, budget)
  }

  /** A visit that passes, or emits without leaving an image without a source, keeps in step with the sources followed,
      and keeps `q` in hand. */
  lemma StepFollows(visit: Visitor, ident: Ident, f: Cache, c: Cache, list: seq<HostPlacement>, live: set<SourceKey>,
                    budget: Option<nat>, index: nat, v: Visit, next: Cache, sources: Sources,
                    sent: Option<HostPlacement>, q: HostPlacement, ahead: set<HostPlacement>)
    requires Visits(visit, ident, budget) && Coherent(ident, list, live) && index < |list|
    requires Followed(ident, f, c, list, sources, budget, sent) && (v.Emit? ==> sent.None?)
    requires v == visit(c, list[index]) && next == After(v, list, index)
    requires q in list && q.Visible() && InHand(c, q, budget, {list[index]} + ahead) && f.ImageCurrent(q)
    ensures next.sources == Moved(f, list[index], sources, budget) && (v.Pass? ==> KeepsShown(sources, next.sources))
    ensures KeepsShown(sources, next.sources) ==>
              && Followed(ident, f, next, list, next.sources, budget, if v.Pass? then sent else Some(list[index]))
              && InHand(next, q, budget, ahead)
  {
    var p := list[index];
    assert Asked(c, p) && Identified(ident, p);
    StepDrains(visit, ident, c, list, live, budget, index, v, next, {});
    if v.Pass? {
      PassMoves(ident, f, c, list, live, sources, budget, sent, p, v);
      PassFollows(ident, f, c, list, live, sources, budget, sent, p, v);
    } else {
      EmitFollows(ident, f, c, list, live, sources, budget, p, v, next);
    }
    if KeepsShown(sources, next.sources) {
      StillCurrent(ident, f, next, list, live, next.sources, budget, if v.Pass? then sent else Some(p), q);
      StepInHand(visit, ident, c, list, live, budget, index, v, next, q, ahead);
    }
  }

  lemma {:induction false} ScanMisses(visit: Visitor, ident: Ident, f: Cache, c: Cache, list: seq<HostPlacement>,
                                      live: set<SourceKey>, budget: Option<nat>, index: nat, left: nat,
                                      commands: seq<Command>, emitted: bool, o: Outcome, sources: Sources,
                                      sent: Option<HostPlacement>, q: HostPlacement)
    requires Visits(visit, ident, budget)
    requires Coherent(ident, list, live) && Followed(ident, f, c, list, sources, budget, sent)
             && (sent.Some? ==> emitted)
    requires (left > 0 ==> index < |list|) && o == Scan(visit, c, list, index, left, commands, emitted) && !o.incomplete
    requires q in list && q.Visible() && InHand(c, q, budget, Ahead(list, index, left)) && f.ImageCurrent(q)
    ensures o.cache.Current(q) <==> !AbandonedFirst(f, list, index, left, sources, budget, q.HostId())
    decreases left
  {
    if left > 0 {
      var v := visit(c, list[index]);
      var next := After(v, list, index);
      var ahead := Ahead(list, NextIndex(list, index), left - 1);
      ScanGoesOn(visit, c, list, index, left, commands, emitted, o, v, next);
      StepFollows(visit, ident, f, c, list, live, budget, index, v, next, sources, sent, q, ahead);
      if KeepsShown(sources, next.sources) {
        ScanMisses(visit, ident, f, next, list, live, budget, NextIndex(list, index), left - 1,
                   if v.Pass? then commands else v.commands, emitted || v.Emit?, o, next.sources,
                   if v.Pass? then sent else Some(list[index]), q);
      } else {
        EmitLoses(visit, ident, c, list, live, budget, index, left - 1, o, v, next, q, ahead);
      }
    }
  }

  lemma {:induction false} DropDeadSilent(c: Cache, dead: seq<SourceKey>, commands: seq<Command>, emitted: bool)
    ensures var s := DropDead(c, dead, commands, emitted); !s.emitted ==> s.cache.images == c.images
    decreases |dead|
  {
    if dead != [] {
      var removed := c.(sources := c.sources - {dead[0]});
      if dead[0] !in c.sources {
        DropDeadSilent(c, dead[1..], commands, emitted);
      } else if c.ReferencedByOther(dead[0], c.sources[dead[0]]) {
        DropDeadSilent(removed, dead[1..], commands, emitted);
      } else {
        DropDeadFlagStays(DropImage(removed, c.sources[dead[0]]), dead[1..],
                          commands + [DeleteImage(c.sources[dead[0]])]);
      }
    }
  }

  lemma {:induction false} DropDeadFlagStays(c: Cache, dead: seq<SourceKey>, commands: seq<Command>)
    ensures DropDead(c, dead, commands, true).emitted
    decreases |dead|
  {
    if dead != [] {
      var removed := c.(sources := c.sources - {dead[0]});
      if dead[0] !in c.sources {
        DropDeadFlagStays(c, dead[1..], commands);
      } else if c.ReferencedByOther(dead[0], c.sources[dead[0]]) {
        DropDeadFlagStays(removed, dead[1..], commands);
      }
    }
  }

  lemma {:induction false} DropStaleFlagStays(c: Cache, stale: seq<Key>, commands: seq<Command>)
    ensures DropStale(c, stale, commands, true).emitted
    decreases |stale|
  {
  }

  /** An image that only vanished layers showed is deleted before the visits, which then emit nothing. */
  lemma DeadGone(ident: Ident, c: Cache, list: seq<HostPlacement>, live: set<SourceKey>, budget: Option<nat>,
                 front: Stage, o: Outcome, q: HostPlacement)
    requires Coherent(ident, list, live) && Grounded(c) && front == Front(c, list, live) && !front.stopped
             && Faithful(ident, front.cache)
    requires o == Incremental(c, list, live, budget) && !o.incomplete
    requires q in list && q.Visible() && c.ImageCurrent(q) && OnlyDead(c, live, q.HostId())
    ensures front.emitted && !o.cache.ImageCurrent(q)
  {
    var sources := SortedSources(DeadSources(c, live));
    FrontOutcome(c, list, live, front);
    DropDeadSilent(c, sources, [], false);
    var dead := DropDead(c, sources, [], false);
    var kept := Retain(dead.cache, list, live);
    var stale := SortedKeys(StaleKeys(kept, list));
    DropStaleFrame(kept, stale, dead.commands, dead.emitted);
    assert dead.emitted;
    DropStaleFlagStays(kept, stale, dead.commands);
    VisitingVisitsWell(budget);
    VisitingServesCurrent(budget);
    VisitingInKind(ident, budget);
    RestServes(Visiting(budget), ident, front.cache, list, live, budget, StartIndex(c, list), |list|, front.commands,
               o, q);
  }

  lemma FrontRemarked(c: Cache, list: seq<HostPlacement>, live: set<SourceKey>, budget: Option<nat>, front: Stage)
    requires Grounded(c) && front == Front(c, list, live) && !front.stopped
    ensures AllRemarked(AfterFront(c, list, live), front.cache, list, budget)
  {
    FrontOutcome(c, list, live, front);
    var f := AfterFront(c, list, live);
    forall p | p in list ensures Remarked(f, front.cache, p, budget) {
      assert Quarantined(front.cache, p, budget) <==> Quarantined(c, p, budget);
    }
  }

  // --- The first image to lose its sources is the one deserted first ---

  lemma {:induction false} AheadInList(list: seq<HostPlacement>, index: nat, m: nat, p: HostPlacement)
    requires (m > 0 ==> index < |list|) && p in Ahead(list, index, m)
    ensures p in list
    decreases m
  {
    if p != list[index] { AheadInList(list, NextIndex(list, index), m - 1, p); }
  }

  /** A visit that keeps every image shown can be skipped. */
  lemma DesertedLater(ident: Ident, f: Cache, list: seq<HostPlacement>, live: set<SourceKey>, index: nat, m: nat,
                      sources: Sources, budget: Option<nat>, next: Sources, id: u32)
    requires Coherent(ident, list, live) && index < |list|
    requires next == Moved(f, list[index], sources, budget) && KeepsShown(sources, next)
    ensures Deserted(f, list, index, m + 1, sources, budget, id)
            <==> Deserted(f, list, NextIndex(list, index), m, next, budget, id)
  {
    var p, ahead := list[index], Ahead(list, NextIndex(list, index), m);
    assert Ahead(list, index, m + 1) == {p} + ahead;
    if Showable(f, p, budget) {
      forall q | q in ahead && q.source == p.source ensures q.HostId() == p.HostId() {
        AheadInList(list, NextIndex(list, index), m, q);
        assert Apart(p, q);
      }
      assert next[p.source] == p.HostId();
      forall s | s in sources && s != p.source ensures next[s] == sources[s] {}
      if Deserted(f, list, index, m + 1, sources, budget, id) {
        var s :| s in sources && sources[s] == id;
        assert ShownBy(next, sources[s]);
      }
      if Deserted(f, list, NextIndex(list, index), m, next, budget, id) {
        assert id != p.HostId();
      }
    }
  }

  /** The visit that leaves an image without a source deserts it, and no other. */
  lemma DesertedNow(f: Cache, list: seq<HostPlacement>, index: nat, sources: Sources, budget: Option<nat>,
                    next: Sources, id: u32)
    requires index < |list| && next == Moved(f, list[index], sources, budget)
    ensures Deserted(f, list, index, 1, sources, budget, id) <==> ShownBy(sources, id) && !ShownBy(next, id)
  {
    var p := list[index];
    assert Ahead(list, index, 1) == {p};
    if Showable(f, p, budget) {
      assert next[p.source] == p.HostId();
      forall s | s in sources && s != p.source ensures s in next && next[s] == sources[s] {}
      if ShownBy(sources, id) && !ShownBy(next, id) {
        assert forall s :: s in sources && sources[s] == id ==> s == p.source;
      }
    }
  }

  /** Following the sources finds the image that is deserted first. */
  lemma {:induction false} AbandonedInPlainTerms(ident: Ident, f: Cache, list: seq<HostPlacement>, live: set<SourceKey>,
                                                 index: nat, left: nat, sources: Sources, budget: Option<nat>, id: u32)
    requires Coherent(ident, list, live) && (left > 0 ==> index < |list|)
    ensures AbandonedFirst(f, list, index, left, sources, budget, id)
            <==> DesertedFirst(f, list, index, left, sources, budget, id)
    decreases left
  {
    if left == 0 {
      NoneAtOnce(f, list, index, sources, budget);
    } else {
      var next := Moved(f, list[index], sources, budget);
      var after := NextIndex(list, index);
      if KeepsShown(sources, next) {
        AbandonedInPlainTerms(ident, f, list, live, after, left - 1, next, budget, id);
        forall m: nat, other
          ensures Deserted(f, list, index, m + 1, sources, budget, other)
                  <==> Deserted(f, list, after, m, next, budget, other)
        {
          DesertedLater(ident, f, list, live, index, m, sources, budget, next, other);
        }
        NoneAtOnce(f, list, index, sources, budget);
        FirstShifts(f, list, index, left, sources, budget, next, id);
      } else {
        FirstNow(f, list, index, left, sources, budget, next, id);
      }
    }
  }

  lemma NoneAtOnce(f: Cache, list: seq<HostPlacement>, index: nat, sources: Sources, budget: Option<nat>)
    ensures forall other :: !Deserted(f, list, index, 0, sources, budget, other)
  {
    forall other | ShownBy(sources, other) ensures !Deserted(f, list, index, 0, sources, budget, other) {
      var s :| s in sources && sources[s] == other;
    }
  }

  /** When the first visit leaves an image without a source, that one is deserted first. */
  lemma FirstNow(f: Cache, list: seq<HostPlacement>, index: nat, left: nat, sources: Sources, budget: Option<nat>,
                 next: Sources, id: u32)
    requires 0 < left && index < |list| && next == Moved(f, list[index], sources, budget) && !KeepsShown(sources, next)
    ensures DesertedFirst(f, list, index, left, sources, budget, id) <==> ShownBy(sources, id) && !ShownBy(next, id)
  {
    NoneAtOnce(f, list, index, sources, budget);
    DesertedNow(f, list, index, sources, budget, next, id);
    var s :| s in sources && !ShownBy(next, sources[s]);
    DesertedNow(f, list, index, sources, budget, next, sources[s]);
    assert Deserted(f, list, index, 1, sources, budget, sources[s]);
  }

  lemma FirstShifts(f: Cache, list: seq<HostPlacement>, index: nat, left: nat, sources: Sources, budget: Option<nat>,
                    next: Sources, id: u32)
    requires 0 < left && index < |list|
    requires forall other :: !Deserted(f, list, index, 0, sources, budget, other)
    requires forall m: nat, other {:trigger Deserted(f, list, NextIndex(list, index), m, next, budget, other)} ::
               Deserted(f, list, index, m + 1, sources, budget, other)
               <==> Deserted(f, list, NextIndex(list, index), m, next, budget, other)
    ensures DesertedFirst(f, list, index, left, sources, budget, id)
            <==> DesertedFirst(f, list, NextIndex(list, index), left - 1, next, budget, id)
  {
    var after := NextIndex(list, index);
    if DesertedFirst(f, list, index, left, sources, budget, id) {
      var m: nat :| m <= left && Deserted(f, list, index, m, sources, budget, id)
                    && forall n: nat, other {:trigger Deserted(f, list, index, n, sources, budget, other)} ::
                         n < m ==> !Deserted(f, list, index, n, sources, budget, other);
      assert Deserted(f, list, after, m - 1, next, budget, id);
      forall n: nat, other | n < m - 1 ensures !Deserted(f, list, after, n, next, budget, other) {
        assert !Deserted(f, list, index, n + 1, sources, budget, other);
      }
    }
    if DesertedFirst(f, list, after, left - 1, next, budget, id) {
      var m: nat :| m <= left - 1 && Deserted(f, list, after, m, next, budget, id)
                    && forall n: nat, other {:trigger Deserted(f, list, after, n, next, budget, other)} ::
                         n < m ==> !Deserted(f, list, after, n, next, budget, other);
      assert Deserted(f, list, index, m + 1, sources, budget, id);
      forall n: nat, other | n < m + 1 ensures !Deserted(f, list, index, n, sources, budget, other) {
        if n > 0 { assert !Deserted(f, list, after, n - 1, next, budget, other); }
      }
    }
  }

  // --- One call ---

  /** An entry that was collected without data because the terminal had its image is missed by a complete call if and
      only if that image was abandoned: only vanished layers showed it, or it is the first image that, in the order of
      the visits, every source leaves before an entry with that image is reached. */
  lemma MissedExactly(ident: Ident, c: Cache, list: seq<HostPlacement>, live: set<SourceKey>, budget: Option<nat>,
                      o: Outcome, q: HostPlacement)
    requires Coherent(ident, list, live) && Faithful(ident, c) && Grounded(c)
    requires o == Incremental(c, list, live, budget) && !o.incomplete
    requires q in list && q.Visible() && c.ImageCurrent(q) && !Quarantined(c, q, budget)
    ensures !o.cache.Current(q) <==> Abandoned(c, list, live, budget, q.HostId())
  {
    var front, f, start := Front(c, list, live), AfterFront(c, list, live), StartIndex(c, list);
    FrontDrains(ident, c, list, live, front);
    FrontOutcome(c, list, live, front);
    VisitingVisitsWell(budget);
    VisitingServesCurrent(budget);
    VisitingInKind(ident, budget);
    ScanCovers(list, start, q);
    if OnlyDead(c, live, q.HostId()) {
      DeadGone(ident, c, list, live, budget, front, o, q);
    } else {
      AbandonedInPlainTerms(ident, f, list, live, start, |list|, f.sources, budget, q.HostId());
      assert AllRemarked(f, front.cache, list, budget) by { FrontRemarked(c, list, live, budget, front); }
      ScanMisses(Visiting(budget), ident, f, front.cache, list, live, budget, start, |list|, front.commands,
                 front.emitted, o,
                 f.sources, None, q);
    }
  }
}
