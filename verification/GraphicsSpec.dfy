/**
 The host graphics cache on values: what each cache operation and each encoder computes, as functions.
 `GraphicsCache.dfy` holds the class whose methods update the cache in place and are proved equal to these.
 */
module GraphicsSpec {
  import opened Prelude
  import opened KittyProtocol
  import Ordering

  datatype SourceKey =
    | TerminalImage(pane: u32, imageId: u32)
    | PaneLayer(pane: u32, layer: string)

  datatype ImageSignature = ImageSignature(
    width: u32, height: u32, format: u32, dataLen: nat, fingerprint: nat)

  datatype PlacementSignature = PlacementSignature(shown: Shown, scrollback: u32)

  /** One wanted placement. `layerHostId` is set for pane layers only; `hashedHostId` and
      `placementId` stand for the two hash functions, and `clip` for the outcome of clipping. */
  datatype HostPlacement = HostPlacement(
    source: SourceKey,
    layerHostId: Option<u32>,
    hashedHostId: u32,
    placementId: u32,
    signature: ImageSignature,
    clip: Option<Shown>,
    scrollback: u32,
    data: seq<byte>)
  {
    function HostId(): u32 {
      if layerHostId.Some? then layerHostId.value else hashedHostId
    }

    function Key(): Key { (HostId(), placementId) }

    function Payload(): Image { Image(signature.format, signature.width, signature.height, data) }

    predicate Visible() { clip.Some? }

    function Placed(): PlacementSignature
      requires Visible()
    {
      PlacementSignature(clip.value, scrollback)
    }
  }

  datatype Cursor = Cursor(source: SourceKey, placementId: u32, next: nat)

  datatype View = View(workspace: nat, tab: nat)

  datatype Cache = Cache(
    images: map<u32, ImageSignature>,
    placements: map<Key, PlacementSignature>,
    sources: map<SourceKey, u32>,
    oversized: map<SourceKey, ImageSignature>,
    continuation: Option<Cursor>,
    view: Option<View>,
    replay: bool,
    replayed: set<Key>)
  {
    predicate ImageCurrent(p: HostPlacement) {
      p.HostId() in images && images[p.HostId()] == p.signature
    }

    predicate PlacementCurrent(p: HostPlacement)
      requires p.Visible()
    {
      && p.Key() in placements && placements[p.Key()] == p.Placed()
      && (!replay || p.Key() in replayed)
    }

    predicate SourceCurrent(p: HostPlacement) {
      p.source in sources && sources[p.source] == p.HostId()
    }

    /** Nothing is left to do for `p`. */
    predicate Current(p: HostPlacement) {
      p.Visible() && ImageCurrent(p) && PlacementCurrent(p) && SourceCurrent(p)
    }

    predicate Referenced(id: u32) {
      exists s :: s in sources && sources[s] == id
    }

    predicate ReferencedByOther(source: SourceKey, id: u32) {
      exists s :: s in sources && s != source && sources[s] == id
    }
  }

  const EMPTY_CACHE := Cache(map[], map[], map[], map[], None, None, false, {})

  /** Forget an image together with its placements. */
  function DropImage(c: Cache, id: u32): Cache {
    c.(images := c.images - {id},
       placements := Without(c.placements, id),
       replayed := set k | k in c.replayed && k.0 != id)
  }

  function DropPlacement(c: Cache, k: Key): Cache {
    c.(placements := c.placements - {k}, replayed := c.replayed - {k})
  }

  /** Point `source` at `id`, deleting the image it showed before once no source shows it any more. */
  function Release(c: Cache, source: SourceKey, id: u32): (Cache, seq<Command>) {
    var moved := c.(sources := c.sources[source := id]);
    if source !in c.sources then (moved, [])
    else
      var previous := c.sources[source];
      if previous == id || moved.Referenced(previous) then (moved, [])
      else (DropImage(moved, previous), [DeleteImage(previous)])
  }

  /** How the pixels of `p` reach the terminal: the new cache, the commands, and whether they display it. */
  function SendImage(c: Cache, p: HostPlacement): (Cache, seq<Command>, bool)
    requires p.Visible()
  {
    var id := p.HostId();
    if c.ImageCurrent(p) then (c, [], false)
    else if id in c.images && p.source.PaneLayer? then
      (c.(images := c.images[id := p.signature]),
       [TransmitAndDisplay(id, p.Payload(), p.placementId, p.clip.value)], true)
    else if id in c.images then
      var dropped := DropImage(c, id);
      (dropped.(images := dropped.images[id := p.signature]), [DeleteImage(id), Upload(id, p.Payload())], false)
    else
      (c.(images := c.images[id := p.signature]), [Upload(id, p.Payload())], false)
  }

  /** The transaction that makes `p` current, or None when nothing is to be done or nothing can be. */
  function PlacementUpdate(c: Cache, p: HostPlacement): Option<(Cache, seq<Command>)> {
    if !p.Visible() || c.Current(p) || (!c.ImageCurrent(p) && p.data == []) then None
    else
      var (sent, pixels, displayed) := SendImage(c, p);
      var (released, deletes) := Release(sent, p.source, p.HostId());
      var display :=
        if displayed || c.PlacementCurrent(p) then []
        else [Display(p.HostId(), p.placementId, p.clip.value)];
      var replayed := if released.replay then released.replayed + {p.Key()} else released.replayed;
      Some((released.(placements := released.placements[p.Key() := p.Placed()], replayed := replayed),
            pixels + deletes + display))
  }

  /** The image that `p` no longer shows and that nothing else shows either. */
  predicate Superseded(c: Cache, p: HostPlacement, id: u32) {
    && p.source in c.sources && c.sources[p.source] == id
    && id != p.HostId() && !c.ReferencedByOther(p.source, id)
  }

  /** The host id of the terminal image `p` shows a different image, which has to go first. */
  predicate Collides(c: Cache, p: HostPlacement) {
    p.source.TerminalImage? && p.HostId() in c.images && !c.ImageCurrent(p)
  }

  /** What the transaction of `p` does to the cache, entry by entry. */
  ghost predicate Effect(c: Cache, p: HostPlacement, c': Cache) {
    && p.Visible()
    && c' == c.(images := c'.images, placements := c'.placements, sources := c'.sources, replayed := c'.replayed)
    && c'.sources == c.sources[p.source := p.HostId()]
    && (forall i :: i in c'.images <==> i == p.HostId() || (i in c.images && !Superseded(c, p, i)))
    && (forall i :: i in c'.images ==> c'.images[i] == if i == p.HostId() then p.signature else c.images[i])
    && (forall k :: k in c'.placements <==>
          k == p.Key() || (k in c.placements && !Superseded(c, p, k.0) && !(k.0 == p.HostId() && Collides(c, p))))
    && (forall k :: k in c'.placements ==> c'.placements[k] == if k == p.Key() then p.Placed() else c.placements[k])
    && (forall k :: k in c'.replayed <==>
          (c.replay && k == p.Key())
          || (k in c.replayed && !Superseded(c, p, k.0) && !(k.0 == p.HostId() && Collides(c, p))))
  }

  lemma ReleaseEffect(c: Cache, source: SourceKey, id: u32)
    ensures var c' := Release(c, source, id).0;
            var gone := (i: u32) => source in c.sources && c.sources[source] == i && i != id
                && !c.ReferencedByOther(source, i);
            && c' == c.(images := c'.images, placements := c'.placements, sources := c.sources[source := id],
                        replayed := c'.replayed)
            && c'.images == (map i | i in c.images && !gone(i) :: c.images[i])
            && c'.placements == (map k | k in c.placements && !gone(k.0) :: c.placements[k])
            && c'.replayed == (set k | k in c.replayed && !gone(k.0))
  {
    var moved := c.(sources := c.sources[source := id]);
    if source in c.sources && c.sources[source] != id {
      var previous := c.sources[source];
      assert moved.Referenced(previous) <==> c.ReferencedByOther(source, previous) by {
        if moved.Referenced(previous) {
          var s :| s in moved.sources && moved.sources[s] == previous;
          assert s != source && s in c.sources;
        }
        if c.ReferencedByOther(source, previous) {
          var s :| s in c.sources && s != source && c.sources[s] == previous;
          assert s in moved.sources && moved.sources[s] == previous;
        }
      }
    }
  }

  lemma SendEffect(c: Cache, p: HostPlacement, sent: Cache)
    requires p.Visible() && sent == SendImage(c, p).0
    ensures sent == c.(images := c.images[p.HostId() := p.signature], placements := sent.placements,
                       replayed := sent.replayed)
    ensures sent.placements == if Collides(c, p) then Without(c.placements, p.HostId()) else c.placements
    ensures sent.replayed == if Collides(c, p) then (set k | k in c.replayed && k.0 != p.HostId()) else c.replayed
  {
    if c.ImageCurrent(p) {
      assert c.images[p.HostId() := p.signature] == c.images;
    } else {
      assert (c.images - {p.HostId()})[p.HostId() := p.signature] == c.images[p.HostId() := p.signature];
    }
  }

  lemma UpdateEffect(c: Cache, p: HostPlacement, c': Cache, commands: seq<Command>)
    requires PlacementUpdate(c, p) == Some((c', commands))
    ensures Effect(c, p, c')
  {
    var sent := SendImage(c, p).0;
    var released := Release(sent, p.source, p.HostId()).0;
    SendEffect(c, p, sent);
    ReleaseEffect(sent, p.source, p.HostId());
    EffectOf(c, p, sent, released, c');
  }

  lemma EffectOf(c: Cache, p: HostPlacement, sent: Cache, released: Cache, c': Cache)
    requires p.Visible()
    requires sent == c.(images := c.images[p.HostId() := p.signature], placements := sent.placements,
                        replayed := sent.replayed)
    requires sent.placements == if Collides(c, p) then Without(c.placements, p.HostId()) else c.placements
    requires sent.replayed == if Collides(c, p) then (set k | k in c.replayed && k.0 != p.HostId()) else c.replayed
    requires var gone := (i: u32) => p.source in sent.sources && sent.sources[p.source] == i && i != p.HostId()
                                     && !sent.ReferencedByOther(p.source, i);
             && released == sent.(images := released.images, placements := released.placements,
                                  sources := sent.sources[p.source := p.HostId()], replayed := released.replayed)
             && released.images == (map i | i in sent.images && !gone(i) :: sent.images[i])
             && released.placements == (map k | k in sent.placements && !gone(k.0) :: sent.placements[k])
             && released.replayed == (set k | k in sent.replayed && !gone(k.0))
    requires c' == released.(placements := released.placements[p.Key() := p.Placed()],
                             replayed := if released.replay then released.replayed + {p.Key()} else released.replayed)
    ensures Effect(c, p, c')
  {
    SameSuperseded(c, p, sent);
    EffectOfParts(c, p, sent, released, c');
  }

  lemma SameSuperseded(c: Cache, p: HostPlacement, sent: Cache)
    requires sent.sources == c.sources
    ensures forall i :: Superseded(c, p, i) <==>
              p.source in sent.sources && sent.sources[p.source] == i && i != p.HostId()
              && !sent.ReferencedByOther(p.source, i)
  {
    assert forall i :: sent.ReferencedByOther(p.source, i) <==> c.ReferencedByOther(p.source, i);
  }

  lemma EffectOfParts(c: Cache, p: HostPlacement, sent: Cache, released: Cache, c': Cache)
    requires p.Visible()
    requires sent == c.(images := c.images[p.HostId() := p.signature], placements := sent.placements,
                        replayed := sent.replayed)
    requires sent.placements == if Collides(c, p) then Without(c.placements, p.HostId()) else c.placements
    requires sent.replayed == if Collides(c, p) then (set k | k in c.replayed && k.0 != p.HostId()) else c.replayed
    requires released == sent.(images := released.images, placements := released.placements,
                               sources := sent.sources[p.source := p.HostId()], replayed := released.replayed)
    requires released.images == (map i | i in sent.images && !Superseded(c, p, i) :: sent.images[i])
    requires released.placements == (map k | k in sent.placements && !Superseded(c, p, k.0) :: sent.placements[k])
    requires released.replayed == (set k | k in sent.replayed && !Superseded(c, p, k.0))
    requires c' == released.(placements := released.placements[p.Key() := p.Placed()],
                             replayed := if released.replay then released.replayed + {p.Key()} else released.replayed)
    ensures Effect(c, p, c')
  {
  }

  // --- One incremental call ---

  datatype Outcome = Outcome(cache: Cache, commands: seq<Command>, incomplete: bool)

  /** A stage of the call: where it left the cache, what was emitted so far, and whether the call ends here. */
  datatype Stage = Stage(cache: Cache, commands: seq<Command>, emitted: bool, stopped: bool)

  function DeadSources(c: Cache, live: set<SourceKey>): set<SourceKey> {
    set s | s in c.sources && s.PaneLayer? && s !in live
  }

  function DesiredSources(list: seq<HostPlacement>): set<SourceKey> {
    set p | p in list :: p.source
  }

  function DesiredKeys(list: seq<HostPlacement>): set<Key> {
    set p | p in list && p.Visible() :: p.Key()
  }

  function StaleKeys(c: Cache, list: seq<HostPlacement>): set<Key> {
    c.placements.Keys - DesiredKeys(list)
  }

  function DropDead(c: Cache, dead: seq<SourceKey>, commands: seq<Command>, emitted: bool): Stage
    decreases |dead|
  {
    if dead == [] then Stage(c, commands, emitted, false)
    else if dead[0] !in c.sources then DropDead(c, dead[1..], commands, emitted)
    else
      var id := c.sources[dead[0]];
      var lastReference := !c.ReferencedByOther(dead[0], id);
      if emitted && lastReference then Stage(c, commands, emitted, true)
      else
        var removed := c.(sources := c.sources - {dead[0]});
        if lastReference
        then DropDead(DropImage(removed, id), dead[1..], commands + [DeleteImage(id)], true)
        else DropDead(removed, dead[1..], commands, emitted)
  }

  /** Forget terminal sources that are no longer wanted, and quarantine marks of vanished sources. */
  function Retain(c: Cache, list: seq<HostPlacement>, live: set<SourceKey>): Cache {
    var desired := DesiredSources(list);
    c.(sources := map s | s in c.sources && (s.PaneLayer? || s in desired) :: c.sources[s],
       oversized := map s | s in c.oversized && (s in live || s in desired) :: c.oversized[s])
  }

  function DropStale(c: Cache, stale: seq<Key>, commands: seq<Command>, emitted: bool): Stage
    decreases |stale|
  {
    if stale == [] then Stage(c, commands, emitted, false)
    else if emitted then Stage(c, commands, emitted, true)
    else DropStale(DropPlacement(c, stale[0]), stale[1..], commands + [DeletePlacement(stale[0].0, stale[0].1)], true)
  }

  /** Whether the image of `p` fits one transaction of `budget` bytes: its base64 length, 16 bytes of
      framing for each chunk of 3072 bytes, and 1024 bytes for everything else. */
  predicate ImageTransactionFits(p: HostPlacement, budget: Option<nat>) {
    budget.Some? ==>
      var encoded := Min((p.signature.dataLen + 2) / 3 * 4, USIZE_MAX);
      var overhead := Min((p.signature.dataLen + 3071) / 3072 * 16, USIZE_MAX) + 1024;
      Min(encoded + overhead, USIZE_MAX) <= budget.value
  }

  predicate Quarantined(c: Cache, p: HostPlacement, budget: Option<nat>) {
    budget.Some? && p.source in c.oversized && c.oversized[p.source] == p.signature
  }

  /** What the scan does at one placement: pass over it, or emit a transaction. `before` is the
      cache at the point where the scan would stop instead of emitting a second transaction. */
  datatype Visit = Pass(cache: Cache) | Emit(before: Cache, after: Cache, commands: seq<Command>)

  function VisitPlacement(c: Cache, p: HostPlacement, budget: Option<nat>): Visit {
    if Quarantined(c, p, budget) then Pass(c)
    else
      var c1 := c.(oversized := c.oversized - {p.source});
      if !c1.ImageCurrent(p) && !ImageTransactionFits(p, budget) then
        Pass(c1.(oversized := c1.oversized[p.source := p.signature]))
      else
        match PlacementUpdate(c1, p)
        case None => Pass(c1)
        case Some((c2, commands)) => if commands == [] then Pass(c2) else Emit(c1, c2, commands)
  }

  /** The index after `index`, wrapping round: (index + 1) % |list|. */
  function NextIndex(list: seq<HostPlacement>, index: nat): (r: nat)
    requires index < |list|
    ensures r < |list|
  {
    if index + 1 == |list| then 0 else index + 1
  }

  lemma NextIndexWraps(list: seq<HostPlacement>, index: nat)
    requires index < |list|
    ensures NextIndex(list, index) == (index + 1) % |list|
  {
  }

  /** What the scan does at a placement under a given budget. */
  type Visitor = (Cache, HostPlacement) -> Visit

  function Visiting(budget: Option<nat>): Visitor {
    (c, p) => VisitPlacement(c, p, budget)
  }

  /** Visit the `left` placements from `index` round, stopping before a second transaction. */
  function Scan(visit: Visitor, c: Cache, list: seq<HostPlacement>, index: nat, left: nat,
                commands: seq<Command>, emitted: bool): Outcome
    requires left > 0 ==> index < |list|
    decreases left
  {
    if left == 0 then Outcome(c.(replay := false, replayed := {}), commands, false)
    else
      match visit(c, list[index])
      case Pass(next) => Scan(visit, next, list, NextIndex(list, index), left - 1, commands, emitted)
      case Emit(before, after, sent) =>
        if emitted then Outcome(before, commands, true)
        else Scan(visit, Resume(after, list, index), list, NextIndex(list, index), left - 1, sent, true)
  }

  /** Remember that the next call resumes after `index`. */
  function Resume(c: Cache, list: seq<HostPlacement>, index: nat): Cache
    requires index < |list|
  {
    c.(continuation := Some(Cursor(list[index].source, list[index].placementId, NextIndex(list, index))))
  }

  /** The first index whose identity is (source, placementId), if any. */
  function Position(list: seq<HostPlacement>, source: SourceKey, placementId: u32): (r: Option<nat>)
    ensures r.Some? ==> r.value < |list| && list[r.value].source == source && list[r.value].placementId == placementId
    ensures r.Some? ==> forall i :: 0 <= i < r.value ==> list[i].source != source || list[i].placementId != placementId
    ensures r.None? ==> forall i :: 0 <= i < |list| ==> list[i].source != source || list[i].placementId != placementId
  {
    if list == [] then None
    else if list[0].source == source && list[0].placementId == placementId then Some(0)
    else
      var rest := Position(list[1..], source, placementId);
      if rest.Some? then Some(rest.value + 1) else None
  }

  function StartIndex(c: Cache, list: seq<HostPlacement>): (r: nat)
    ensures list != [] ==> r < |list|
  {
    if c.continuation.None? then 0
    else
      var cursor := c.continuation.value;
      var found := Position(list, cursor.source, cursor.placementId);
      (if found.Some? then found.value + 1 else cursor.next) % Max(|list|, 1)
  }

  /** Pane layers in the order of their pane and layer name. Only layers are ever sorted; ties with
      terminal sources are broken arbitrarily to make the order total. */
  predicate SourceLeq(a: SourceKey, b: SourceKey) {
    if a.pane != b.pane then a.pane < b.pane
    else match (a, b)
      case (PaneLayer(_, x), PaneLayer(_, y)) => Ordering.StringLeq(x, y)
      case (TerminalImage(_, x), TerminalImage(_, y)) => x <= y
      case (TerminalImage(_, _), _) => true
      case _ => false
  }

  lemma SourceLeqTotal()
    ensures Ordering.TotalOn(SourceLeq)
  {
    forall a, b ensures SourceLeq(a, b) || SourceLeq(b, a)
    {
      if a.PaneLayer? && b.PaneLayer? { Ordering.StringLeqTotal(a.layer, b.layer); }
    }
    forall a, b | SourceLeq(a, b) && SourceLeq(b, a) ensures a == b
    {
      if a.PaneLayer? && b.PaneLayer? { Ordering.StringLeqTotal(a.layer, b.layer); }
    }
    forall a, b, c | SourceLeq(a, b) && SourceLeq(b, c) ensures SourceLeq(a, c)
    {
      if a.PaneLayer? && b.PaneLayer? && c.PaneLayer? && a.pane == b.pane == c.pane {
        Ordering.StringLeqTransitive(a.layer, b.layer, c.layer);
      }
    }
  }

  ghost function SortedSources(s: set<SourceKey>): (r: seq<SourceKey>)
    ensures forall x :: x in r <==> x in s
  {
    SourceLeqTotal();
    Ordering.Sorted(s, SourceLeq)
  }

  lemma PairLeqTotal()
    ensures Ordering.TotalOn(Ordering.PairLeq)
  {
  }

  ghost function SortedKeys(s: set<Key>): (r: seq<Key>)
    ensures forall x :: x in r <==> x in s
  {
    PairLeqTotal();
    Ordering.Sorted(s, Ordering.PairLeq)
  }

  /** The deletions that come before the scan: dead pane layers, then stale placements. */
  ghost function Front(c: Cache, list: seq<HostPlacement>, live: set<SourceKey>): Stage {
    var dead := DropDead(c, SortedSources(DeadSources(c, live)), [], false);
    if dead.stopped then dead
    else
      var kept := Retain(dead.cache, list, live);
      DropStale(kept, SortedKeys(StaleKeys(kept, list)), dead.commands, dead.emitted)
  }

  /** One call of the incremental encoder: at most one transaction, `incomplete` when more is due. */
  ghost function Incremental(c: Cache, list: seq<HostPlacement>, live: set<SourceKey>, budget: Option<nat>): Outcome {
    var front := Front(c, list, live);
    if front.stopped then Outcome(front.cache, front.commands, true)
    else Scan(Visiting(budget), front.cache, list, StartIndex(c, list), |list|, front.commands, front.emitted)
  }

  // --- Clearing and bookkeeping ---

  function ResetIncremental(c: Cache): Cache {
    c.(oversized := map[], continuation := None, replay := false, replayed := {})
  }

  function RequestReplay(c: Cache): Cache {
    if c.replay then c else c.(replay := true, replayed := {})
  }

  function UpdateView(c: Cache, view: Option<View>): Cache {
    if c.view == view then c else c.(view := view, continuation := None)
  }

  function ClearBytes(c: Cache): Cache {
    ResetIncremental(c.(images := map[], placements := map[], sources := map[])).(view := None)
  }

  /** The images of removed pane layers that no remaining source shows. */
  function OrphanedByLayers(c: Cache): set<u32> {
    set s | s in c.sources && s.PaneLayer?
        && (forall t :: t in c.sources && t.TerminalImage? ==> c.sources[t] != c.sources[s]) :: c.sources[s]
  }

  function ClearPaneSources(c: Cache): Cache {
    var orphaned := OrphanedByLayers(c);
    ResetIncremental(c.(
      images := c.images - orphaned,
      placements := map k | k in c.placements && k.0 !in orphaned :: c.placements[k],
      sources := map s | s in c.sources && s.TerminalImage? :: c.sources[s]))
  }

  /** Delete one thing: the image of least id, else the least placement, else what remains of the bookkeeping. */
  ghost function ClearNext(c: Cache): Outcome {
    var c0 := c.(continuation := None);
    if c.images != map[] then
      IdLeqTotal();
      Ordering.LeastExists(c.images.Keys, IdLeq);
      var id :| Ordering.IsLeast(id, c.images.Keys, IdLeq);
      var next := DropImage(c0, id);
      var next' := next.(sources := map s | s in next.sources && next.sources[s] != id :: next.sources[s]);
      Outcome(next', [DeleteImage(id)], !IsEmpty(next'))
    else if c.placements != map[] then
      PairLeqTotal();
      Ordering.LeastExists(c.placements.Keys, Ordering.PairLeq);
      var k :| Ordering.IsLeast(k, c.placements.Keys, Ordering.PairLeq);
      var next := DropPlacement(c0, k);
      Outcome(next, [DeletePlacement(k.0, k.1)], !IsEmpty(next))
    else
      var next := c0.(sources := map[], oversized := map[], view := None, replay := false, replayed := {});
      Outcome(next, [], !IsEmpty(next))
  }

  predicate IdLeq(a: u32, b: u32) { a <= b }

  lemma IdLeqTotal()
    ensures Ordering.TotalOn(IdLeq)
  {
  }

  predicate IsEmpty(c: Cache) { c.images == map[] && c.placements == map[] }

  // --- The one-pass reference encoder for terminal images ---

  datatype Pass1 = Pass1(cache: Cache, wanted: set<Key>, commands: seq<Command>)

  /** The `cache.placements.retain` and `current_placements.remove` pair of the reference encoder. */
  function ForgetPlacements(r: Pass1, id: u32): Pass1 {
    r.(cache := r.cache.(placements := Without(r.cache.placements, id)),
       wanted := r.wanted - (set k | k in r.cache.placements && k.0 == id))
  }

  function LegacyRelease(r: Pass1, source: SourceKey, id: u32): Pass1 {
    var moved := r.(cache := r.cache.(sources := r.cache.sources[source := id]));
    if source !in r.cache.sources then moved
    else
      var previous := r.cache.sources[source];
      if previous == id || moved.cache.Referenced(previous) then moved
      else
        var forgot := ForgetPlacements(moved, previous);
        forgot.(cache := forgot.cache.(images := forgot.cache.images - {previous}),
                commands := forgot.commands + [DeleteImage(previous)])
  }

  function LegacyVisit(r: Pass1, p: HostPlacement, viewChanged: bool): Pass1 {
    if !p.Visible() then r
    else
      var id := p.hashedHostId;
      var key := (id, p.placementId);
      var wanted := r.(wanted := r.wanted + {key});
      var current := id in r.cache.images && r.cache.images[id] == p.signature;
      var cleared :=
        if !current && id in r.cache.images
        then ForgetPlacements(wanted.(commands := wanted.commands + [DeleteImage(id)]), id)
        else wanted;
      if !current && p.data == [] then cleared
      else
        var uploaded :=
          if current then cleared
          else cleared.(cache := cleared.cache.(images := cleared.cache.images[id := p.signature]),
                        commands := cleared.commands + [Upload(id, p.Payload())]);
        var released := LegacyRelease(uploaded, p.source, id);
        if !viewChanged && key in released.cache.placements && released.cache.placements[key] == p.Placed()
        then released
        else released.(cache := released.cache.(placements := released.cache.placements[key := p.Placed()]),
                       commands := released.commands + [Display(id, p.placementId, p.clip.value)])
  }

  function LegacyScan(r: Pass1, list: seq<HostPlacement>, viewChanged: bool): Pass1
    decreases |list|
  {
    if list == [] then r
    else LegacyScan(LegacyVisit(r, list[0], viewChanged), list[1..], viewChanged)
  }

  /** The reference encoder first forgets every source that is not a wanted terminal image. */
  function LegacyStart(c: Cache, list: seq<HostPlacement>): Pass1 {
    var wanted := DesiredSources(list);
    Pass1(c.(sources := map s | s in c.sources && s.TerminalImage? && s in wanted :: c.sources[s]), {}, [])
  }

  function LegacyStale(r: Pass1): set<Key> { r.cache.placements.Keys - r.wanted }

  /** The cache after the reference encoder; its last commands delete the stale placements in any order. */
  function Legacy(c: Cache, list: seq<HostPlacement>, viewChanged: bool): Cache {
    var r := LegacyScan(LegacyStart(c, list), list, viewChanged);
    r.cache.(placements := r.cache.placements - LegacyStale(r))
  }
}
