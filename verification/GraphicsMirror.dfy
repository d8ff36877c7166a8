/**
 The cache mirrors the terminal: interpreting what an operation emits keeps the terminal equal to
 what the cache records, over every operation and every run of operations.
 */
module GraphicsMirror {
  import opened Prelude
  import opened KittyProtocol
  import opened GraphicsSpec
  import Ordering

  /** The fingerprint of image data, of which nothing is assumed. */
  type Fingerprint = seq<byte> -> nat

  function Describe(fp: Fingerprint, image: Image): ImageSignature {
    ImageSignature(image.width, image.height, image.format, |image.data|, fp(image.data))
  }

  /** The terminal holds the images and placements of the cache, except the placements in `lost`
      (those the text of a new frame painted over). */
  ghost predicate Mirrors(fp: Fingerprint, c: Cache, t: Terminal, lost: set<Key>) {
    && t.images.Keys == c.images.Keys
    && (forall id :: id in t.images ==> Describe(fp, t.images[id]) == c.images[id])
    && t.placements.Keys == c.placements.Keys - lost
    && (forall k :: k in t.placements ==> t.placements[k] == c.placements[k].shown)
  }

  /** Every placement and every source of the cache is about an image the cache holds. */
  ghost predicate Grounded(c: Cache) {
    && (forall k :: k in c.placements ==> k.0 in c.images)
    && (forall s :: s in c.sources ==> c.sources[s] in c.images)
  }

  /** The signature of `p` has the length and the fingerprint of its data, when it carries data. */
  predicate Described(fp: Fingerprint, p: HostPlacement) {
    p.data != [] ==> |p.data| == p.signature.dataLen && fp(p.data) == p.signature.fingerprint
  }

  /** What is sent then has the signature of the entry. */
  lemma PayloadDescribed(fp: Fingerprint, p: HostPlacement)
    requires Described(fp, p) && p.data != []
    ensures Describe(fp, p.Payload()) == p.signature
  {
  }

  /** When the update of `p` breaks the mirror: the host id of `p` already shows a different image, and
      either `p` is a terminal image whose placement looked current before that image was deleted, or
      `p` is a pane layer whose id also carries some other placement. */
  predicate Hazard(c: Cache, p: HostPlacement) {
    && p.Visible() && p.data != [] && p.HostId() in c.images && !c.ImageCurrent(p)
    && if p.source.PaneLayer? then exists k :: k in c.placements && k.0 == p.HostId() && k != p.Key()
       else c.PlacementCurrent(p)
  }

  // --- One command at a time ---

  lemma DeleteImageMirrors(fp: Fingerprint, c: Cache, t: Terminal, lost: set<Key>, id: u32)
    requires Mirrors(fp, c, t, lost)
    ensures Mirrors(fp, DropImage(c, id), Apply(t, DeleteImage(id)), lost)
  {
  }

  lemma UploadMirrors(fp: Fingerprint, c: Cache, t: Terminal, lost: set<Key>, id: u32, image: Image)
    requires Mirrors(fp, c, t, lost) && forall k :: k in c.placements ==> k.0 != id
    ensures Mirrors(fp, c.(images := c.images[id := Describe(fp, image)]), Apply(t, Upload(id, image)), lost)
  {
  }

  lemma TransmitMirrors(fp: Fingerprint, c: Cache, t: Terminal, lost: set<Key>, id: u32, image: Image,
                        placement: u32, placed: PlacementSignature)
    requires Mirrors(fp, c, t, lost) && forall k :: k in c.placements && k.0 == id ==> k.1 == placement
    ensures Mirrors(fp, c.(images := c.images[id := Describe(fp, image)],
                           placements := c.placements[(id, placement) := placed]),
                    Apply(t, TransmitAndDisplay(id, image, placement, placed.shown)), lost - {(id, placement)})
  {
  }

  lemma DisplayMirrors(fp: Fingerprint, c: Cache, t: Terminal, lost: set<Key>, id: u32, placement: u32,
                       placed: PlacementSignature)
    requires Mirrors(fp, c, t, lost) && id in c.images
    ensures Mirrors(fp, c.(placements := c.placements[(id, placement) := placed]),
                    Apply(t, Display(id, placement, placed.shown)), lost - {(id, placement)})
  {
  }

  /** The mirror is about images and placements only. */
  lemma MirrorsFrame(fp: Fingerprint, c: Cache, c': Cache, t: Terminal, lost: set<Key>)
    requires Mirrors(fp, c, t, lost) && c.images == c'.images && c.placements == c'.placements
    ensures Mirrors(fp, c', t, lost)
  {
  }

  lemma DisplayedConcat(a: seq<Command>, b: seq<Command>)
    ensures Displayed(a + b) == Displayed(a) + Displayed(b)
  {
    forall c | c in a + b ensures c in a || c in b {}
  }

  // --- The transaction of one placement ---

  lemma ReleaseMirrors(fp: Fingerprint, c: Cache, t: Terminal, lost: set<Key>, source: SourceKey, id: u32)
    requires Mirrors(fp, c, t, lost)
    ensures var (c', commands) := Release(c, source, id);
            Mirrors(fp, c', Interpret(t, commands), lost) && Displayed(commands) == {}
  {
    var (c', commands) := Release(c, source, id);
    var moved := c.(sources := c.sources[source := id]);
    MirrorsFrame(fp, c, moved, t, lost);
    if commands != [] {
      DeleteImageMirrors(fp, moved, t, lost, commands[0].id);
      InterpretOne(t, commands[0]);
    }
  }

  lemma ReleaseGrounded(c: Cache, source: SourceKey, id: u32)
    requires Grounded(c) && id in c.images
    ensures Grounded(Release(c, source, id).0) && id in Release(c, source, id).0.images
  {
  }

  /** The cache after the pixels of `p` were sent, with the placement that sending them displayed. */
  function Sent(c: Cache, p: HostPlacement): Cache
    requires p.Visible()
  {
    var (c', _, displayed) := SendImage(c, p);
    if displayed then c'.(placements := c'.placements[p.Key() := p.Placed()]) else c'
  }

  lemma SendMirrors(fp: Fingerprint, c: Cache, t: Terminal, lost: set<Key>, p: HostPlacement)
    requires Mirrors(fp, c, t, lost) && Grounded(c) && Described(fp, p) && p.Visible() && !Hazard(c, p)
    requires c.ImageCurrent(p) || p.data != []
    ensures var commands := SendImage(c, p).1;
            Mirrors(fp, Sent(c, p), Interpret(t, commands), lost - Displayed(commands))
            && Displayed(commands) == (if SendImage(c, p).2 then {p.Key()} else {})
  {
    var id := p.HostId();
    if !c.ImageCurrent(p) {
      PayloadDescribed(fp, p);
      if id in c.images && p.source.PaneLayer? {
        RetransmittedMirrors(fp, c, t, lost, p);
      } else {
        if id in c.images {
          ReplacedMirrors(fp, c, t, lost, id, p.Payload());
        } else {
          UploadMirrors(fp, c, t, lost, id, p.Payload());
          InterpretOne(t, Upload(id, p.Payload()));
        }
        assert Displayed(SendImage(c, p).1) == {};
      }
    }
  }

  lemma RetransmittedMirrors(fp: Fingerprint, c: Cache, t: Terminal, lost: set<Key>, p: HostPlacement)
    requires Mirrors(fp, c, t, lost) && p.Visible() && !Hazard(c, p) && p.data != []
    requires !c.ImageCurrent(p) && p.HostId() in c.images && p.source.PaneLayer?
    requires Describe(fp, p.Payload()) == p.signature
    ensures var commands := SendImage(c, p).1;
            Mirrors(fp, Sent(c, p), Interpret(t, commands), lost - Displayed(commands))
                && Displayed(commands) == {p.Key()}
  {
    var command := TransmitAndDisplay(p.HostId(), p.Payload(), p.placementId, p.clip.value);
    TransmitMirrors(fp, c, t, lost, p.HostId(), p.Payload(), p.placementId, p.Placed());
    InterpretOne(t, command);
    assert Displayed([command]) == {p.Key()} by { assert command in [command]; }
  }

  lemma ReplacedMirrors(fp: Fingerprint, c: Cache, t: Terminal, lost: set<Key>, id: u32, image: Image)
    requires Mirrors(fp, c, t, lost)
    ensures var dropped := DropImage(c, id);
            Mirrors(fp, dropped.(images := dropped.images[id := Describe(fp, image)]),
                    Interpret(t, [DeleteImage(id), Upload(id, image)]), lost)
  {
    DeleteImageMirrors(fp, c, t, lost, id);
    UploadMirrors(fp, DropImage(c, id), Apply(t, DeleteImage(id)), lost, id, image);
    InterpretTwo(t, DeleteImage(id), Upload(id, image));
  }

  lemma InterpretTwo(t: Terminal, a: Command, b: Command)
    ensures Interpret(t, [a, b]) == Apply(Apply(t, a), b)
  {
    assert [a, b] == [a] + [b];
    InterpretConcat(t, [a], [b]);
    InterpretOne(t, a);
    InterpretOne(Apply(t, a), b);
  }

  lemma SendGrounded(c: Cache, p: HostPlacement)
    requires Grounded(c) && p.Visible()
    ensures Grounded(Sent(c, p)) && p.HostId() in Sent(c, p).images
  {
  }

  /** The transaction of `p` in three steps: send pixels, release the superseded image, display. */
  lemma UpdateDecomposes(c: Cache, p: HostPlacement)
    requires PlacementUpdate(c, p).Some?
    ensures var (c', commands) := PlacementUpdate(c, p).value;
            var (released, first) := Released(c, p);
            && commands == first + Shows(c, p)
            && c'.images == released.images && c'.sources == released.sources
            && c'.placements == released.placements[p.Key() := p.Placed()]
  {
    ReleasePlaced(SendImage(c, p).0, p.source, p.HostId(), p.Key(), p.Placed());
  }

  /** Releasing an image does not mind a placement of the new one. */
  lemma ReleasePlaced(c: Cache, source: SourceKey, id: u32, k: Key, placed: PlacementSignature)
    requires k.0 == id
    ensures var (a, first) := Release(c, source, id);
            var (b, second) := Release(c.(placements := c.placements[k := placed]), source, id);
            first == second && b == a.(placements := a.placements[k := placed])
            && b.placements == b.placements[k := placed]
  {
    var moved := c.(sources := c.sources[source := id]);
    var moved' := moved.(placements := c.placements[k := placed]);
    assert forall i :: moved.Referenced(i) <==> moved'.Referenced(i);
    if source in c.sources && c.sources[source] != id {
      var previous := c.sources[source];
      assert Without(moved'.placements, previous) == Without(moved.placements, previous)[k := placed];
    }
  }

  /** The display command at the end of the transaction, if one is due. */
  function Shows(c: Cache, p: HostPlacement): seq<Command>
    requires p.Visible()
  {
    if SendImage(c, p).2 || c.PlacementCurrent(p) then [] else [Display(p.HostId(), p.placementId, p.clip.value)]
  }

  /** Without a hazard, a placement that needs no display command is already recorded as it should be. */
  lemma StillPlaced(c: Cache, p: HostPlacement)
    requires PlacementUpdate(c, p).Some? && !Hazard(c, p) && Shows(c, p) == []
    ensures var released := Released(c, p).0;
            p.Key() in released.placements && released.placements[p.Key()] == p.Placed()
  {
  }

  /** The first two steps keep the mirror and leave the host image of `p` in place. */
  lemma TwoSteps(fp: Fingerprint, c: Cache, t: Terminal, lost: set<Key>, p: HostPlacement)
      returns (released: Cache, commands: seq<Command>)
    requires Mirrors(fp, c, t, lost) && Grounded(c) && Described(fp, p) && !Hazard(c, p)
    requires PlacementUpdate(c, p).Some?
    ensures Mirrors(fp, released, Interpret(t, commands), lost - Displayed(commands)) && Grounded(released)
    ensures p.HostId() in released.images
    ensures Released(c, p) == (released, commands)
  {
    var pixels, sent := SendImage(c, p).1, Sent(c, p);
    SendMirrors(fp, c, t, lost, p);
    SendGrounded(c, p);
    ReleaseMirrors(fp, sent, Interpret(t, pixels), lost - Displayed(pixels), p.source, p.HostId());
    ReleaseGrounded(sent, p.source, p.HostId());
    var deletes;
    released, deletes := Release(sent, p.source, p.HostId()).0, Release(sent, p.source, p.HostId()).1;
    InterpretConcat(t, pixels, deletes);
    DisplayedConcat(pixels, deletes);
    assert Displayed(pixels) + {} == Displayed(pixels);
    commands := pixels + deletes;
  }

  /** The cache and the commands after the pixels of `p` were sent and its superseded image released. */
  function Released(c: Cache, p: HostPlacement): (Cache, seq<Command>)
    requires p.Visible()
  {
    var (released, deletes) := Release(Sent(c, p), p.source, p.HostId());
    (released, SendImage(c, p).1 + deletes)
  }

  /** The display command ends the transaction. */
  lemma LastStep(fp: Fingerprint, released: Cache, c': Cache, t: Terminal, lost: set<Key>, shows: seq<Command>,
                 p: HostPlacement)
    requires Mirrors(fp, released, t, lost) && Grounded(released) && p.Visible() && p.HostId() in released.images
    requires shows == [] ==> p.Key() in released.placements && released.placements[p.Key()] == p.Placed()
    requires shows != [] ==> shows == [Display(p.HostId(), p.placementId, p.clip.value)]
    requires c'.images == released.images && c'.sources == released.sources
    requires c'.placements == released.placements[p.Key() := p.Placed()]
    ensures Mirrors(fp, c', Interpret(t, shows), lost - Displayed(shows)) && Grounded(c')
  {
    if shows == [] {
      assert c'.placements == released.placements;
    } else {
      InterpretOne(t, shows[0]);
      DisplayMirrors(fp, released, t, lost, p.HostId(), p.placementId, p.Placed());
      assert Displayed(shows) == {p.Key()} by { assert shows[0] in shows; }
    }
  }

  lemma JoinSteps(fp: Fingerprint, released: Cache, c': Cache, t: Terminal, lost: set<Key>,
                  first: seq<Command>, shows: seq<Command>, p: HostPlacement)
    requires Mirrors(fp, released, Interpret(t, first), lost - Displayed(first)) && Grounded(released)
    requires p.Visible() && p.HostId() in released.images
    requires shows == [] ==> p.Key() in released.placements && released.placements[p.Key()] == p.Placed()
    requires shows != [] ==> shows == [Display(p.HostId(), p.placementId, p.clip.value)]
    requires c'.images == released.images && c'.sources == released.sources
    requires c'.placements == released.placements[p.Key() := p.Placed()]
    ensures Mirrors(fp, c', Interpret(t, first + shows), lost - Displayed(first + shows)) && Grounded(c')
  {
    LastStep(fp, released, c', Interpret(t, first), lost - Displayed(first), shows, p);
    InterpretConcat(t, first, shows);
    DisplayedConcat(first, shows);
    assert lost - Displayed(first) - Displayed(shows) == lost - Displayed(first + shows);
  }

  /** The transaction for one placement keeps the mirror, and every placement it displays is no longer lost. */
  lemma UpdateMirrors(fp: Fingerprint, c: Cache, t: Terminal, lost: set<Key>, p: HostPlacement, c': Cache,
                      commands: seq<Command>)
    requires Mirrors(fp, c, t, lost) && Grounded(c) && Described(fp, p) && !Hazard(c, p)
    requires PlacementUpdate(c, p) == Some((c', commands))
    ensures Mirrors(fp, c', Interpret(t, commands), lost - Displayed(commands)) && Grounded(c')
  {
    var released, first := TwoSteps(fp, c, t, lost, p);
    UpdateDecomposes(c, p);
    if Shows(c, p) == [] { StillPlaced(c, p); }
    JoinSteps(fp, released, c', t, lost, first, Shows(c, p), p);
  }

  /** What no command displays and the terminal lacks, the terminal still lacks afterwards. */
  lemma {:induction false} NotDisplayed(t: Terminal, commands: seq<Command>, k: Key)
    requires k !in t.placements && k !in Displayed(commands)
    ensures k !in Interpret(t, commands).placements
  {
    if commands != [] {
      var n := |commands| - 1;
      assert commands == commands[..n] + [commands[n]];
      DisplayedConcat(commands[..n], [commands[n]]);
      NotDisplayed(t, commands[..n], k);
      assert commands[n] in commands;
    }
  }

  /** The placement that goes missing under a hazard. */
  ghost function Casualty(c: Cache, p: HostPlacement): (k: Key)
    requires Hazard(c, p)
    ensures k.0 == p.HostId() && k in c.placements
    ensures if p.source.PaneLayer? then k != p.Key() else k == p.Key()
  {
    if p.source.PaneLayer? then var k :| k in c.placements && k.0 == p.HostId() && k != p.Key(); k else p.Key()
  }

  lemma CasualtyRecorded(c: Cache, p: HostPlacement, c': Cache, commands: seq<Command>)
    requires Hazard(c, p) && PlacementUpdate(c, p) == Some((c', commands))
    ensures Casualty(c, p) in c'.placements
  {
    UpdateDecomposes(c, p);
  }

  lemma CasualtyGone(c: Cache, t: Terminal, p: HostPlacement, c': Cache, commands: seq<Command>)
    requires Hazard(c, p) && PlacementUpdate(c, p) == Some((c', commands))
    ensures Casualty(c, p) !in Interpret(t, commands).placements
  {
    var k := Casualty(c, p);
    var first := if p.source.PaneLayer? then TransmitAndDisplay(p.HostId(), p.Payload(), p.placementId, p.clip.value)
                 else DeleteImage(p.HostId());
    assert SendImage(c, p).1[0] == first;
    var rest := commands[1..];
    assert commands == [first] + rest;
    assert k !in Displayed(rest);
    InterpretConcat(t, [first], rest);
    InterpretOne(t, first);
    NotDisplayed(Apply(t, first), rest, k);
  }

  /** A hazard always breaks the mirror: the cache records a placement that the terminal no longer has. */
  lemma HazardBreaks(fp: Fingerprint, c: Cache, t: Terminal, p: HostPlacement, c': Cache, commands: seq<Command>)
    requires Hazard(c, p) && PlacementUpdate(c, p) == Some((c', commands))
    ensures !Mirrors(fp, c', Interpret(t, commands), {})
  {
    CasualtyRecorded(c, p, c', commands);
    CasualtyGone(c, t, p, c', commands);
    assert Casualty(c, p) in c'.placements.Keys - {};
  }

  /** The mirror survives the transaction of one placement exactly when there is no hazard. */
  lemma MirrorKeptIffNoHazard(fp: Fingerprint, c: Cache, t: Terminal, p: HostPlacement, c': Cache,
                              commands: seq<Command>)
    requires Mirrors(fp, c, t, {}) && Grounded(c) && Described(fp, p)
    requires PlacementUpdate(c, p) == Some((c', commands))
    ensures Mirrors(fp, c', Interpret(t, commands), {}) <==> !Hazard(c, p)
  {
    if Hazard(c, p) {
      HazardBreaks(fp, c, t, p, c', commands);
    } else {
      UpdateMirrors(fp, c, t, {}, p, c', commands);
      assert {} - Displayed(commands) == {};
    }
  }

  // --- Host ids without collisions ---

  /** What a host id stands for: one image of a terminal program, or one pane layer. */
  datatype Owner = Pixels(signature: ImageSignature) | Layer(source: SourceKey, placementId: u32)

  type Ident = u32 -> Owner

  /** The ids of `p` are those of its image, or of its layer. */
  predicate Identified(ident: Ident, p: HostPlacement) {
    match p.source
    case TerminalImage(_, _) => p.layerHostId.None? && ident(p.hashedHostId) == Pixels(p.signature)
    case PaneLayer(_, _) => p.layerHostId.Some? && ident(p.layerHostId.value) == Layer(p.source, p.placementId)
  }

  ghost predicate Faithful(ident: Ident, c: Cache) {
    && (forall id :: id in c.images && ident(id).Pixels? ==> c.images[id] == ident(id).signature)
    && (forall k :: k in c.placements && ident(k.0).Layer? ==> k.1 == ident(k.0).placementId)
  }

  lemma NoHazard(ident: Ident, c: Cache, p: HostPlacement)
    requires Faithful(ident, c) && Identified(ident, p)
    ensures !Hazard(c, p)
  {
  }

  lemma UpdateFaithful(ident: Ident, c: Cache, p: HostPlacement, c': Cache)
    requires Faithful(ident, c) && Identified(ident, p) && Effect(c, p, c')
    ensures Faithful(ident, c')
  {
  }

  /** The whole invariant of cache and terminal. */
  ghost predicate Synced(fp: Fingerprint, ident: Ident, c: Cache, t: Terminal, lost: set<Key>) {
    Mirrors(fp, c, t, lost) && Grounded(c) && Faithful(ident, c)
  }

  /** The same, after `commands` were sent to a terminal that was in state `t` with `lost` painted over. */
  ghost predicate SyncedAfter(fp: Fingerprint, ident: Ident, c: Cache, t: Terminal, lost: set<Key>,
                              commands: seq<Command>) {
    Synced(fp, ident, c, Interpret(t, commands), lost - Displayed(commands))
  }

  lemma SyncedTrans(fp: Fingerprint, ident: Ident, c: Cache, t: Terminal, lost: set<Key>, a: seq<Command>,
                    b: seq<Command>)
    requires SyncedAfter(fp, ident, c, Interpret(t, a), lost - Displayed(a), b)
    ensures SyncedAfter(fp, ident, c, t, lost, a + b)
  {
    InterpretConcat(t, a, b);
    DisplayedConcat(a, b);
    assert lost - Displayed(a) - Displayed(b) == lost - Displayed(a + b);
  }

  ghost predicate Wellformed(fp: Fingerprint, ident: Ident, list: seq<HostPlacement>) {
    forall p :: p in list ==> Identified(ident, p) && Described(fp, p)
  }

  // --- The stages of an incremental call ---

  lemma SyncedFrame(fp: Fingerprint, ident: Ident, c: Cache, c': Cache, t: Terminal, lost: set<Key>)
    requires Synced(fp, ident, c, t, lost)
    requires c'.images == c.images && c'.placements == c.placements
    requires forall s :: s in c'.sources ==> s in c.sources && c'.sources[s] == c.sources[s]
    ensures Synced(fp, ident, c', t, lost)
  {
  }

  lemma UpdateSynced(fp: Fingerprint, ident: Ident, c: Cache, t: Terminal, lost: set<Key>, p: HostPlacement,
                     c': Cache, commands: seq<Command>)
    requires Synced(fp, ident, c, t, lost) && Identified(ident, p) && Described(fp, p)
    requires PlacementUpdate(c, p) == Some((c', commands))
    ensures SyncedAfter(fp, ident, c', t, lost, commands)
  {
    NoHazard(ident, c, p);
    UpdateMirrors(fp, c, t, lost, p, c', commands);
    UpdateEffect(c, p, c', commands);
    UpdateFaithful(ident, c, p, c');
  }

  lemma VisitSynced(fp: Fingerprint, ident: Ident, c: Cache, t: Terminal, lost: set<Key>, p: HostPlacement,
                    budget: Option<nat>, v: Visit)
    requires Synced(fp, ident, c, t, lost) && Identified(ident, p) && Described(fp, p)
    requires v == VisitPlacement(c, p, budget)
    ensures v.Pass? ==> Synced(fp, ident, v.cache, t, lost)
    ensures v.Emit? ==> Synced(fp, ident, v.before, t, lost) && SyncedAfter(fp, ident, v.after, t, lost, v.commands)
  {
    var c1 := c.(oversized := c.oversized - {p.source});
    SyncedFrame(fp, ident, c, c1, t, lost);
    var update := PlacementUpdate(c1, p);
    if update.Some? {
      UpdateSynced(fp, ident, c1, t, lost, p, update.value.0, update.value.1);
      if update.value.1 == [] {
        assert lost - Displayed([]) == lost;
      }
    }
    if v.Pass? && v.cache.images == c.images && v.cache.placements == c.placements && v.cache.sources == c.sources {
      SyncedFrame(fp, ident, c, v.cache, t, lost);
    }
  }

  /** Every visit keeps cache and terminal in step. */
  ghost predicate KeepsSynced(visit: Visitor, fp: Fingerprint, ident: Ident) {
    forall c, p, t, lost {:trigger visit(c, p), Synced(fp, ident, c, t, lost)} ::
      Synced(fp, ident, c, t, lost) && Identified(ident, p) && Described(fp, p) ==>
        var v := visit(c, p);
        && (v.Pass? ==> Synced(fp, ident, v.cache, t, lost))
        && (v.Emit? ==> Synced(fp, ident, v.before, t, lost) && SyncedAfter(fp, ident, v.after, t, lost, v.commands))
  }

  lemma VisitingKeepsSynced(fp: Fingerprint, ident: Ident, budget: Option<nat>)
    ensures KeepsSynced(Visiting(budget), fp, ident)
  {
    forall c, p, t, lost | Synced(fp, ident, c, t, lost) && Identified(ident, p) && Described(fp, p)
      ensures var v := Visiting(budget)(c, p);
              && (v.Pass? ==> Synced(fp, ident, v.cache, t, lost))
              && (v.Emit? ==>
                    Synced(fp, ident, v.before, t, lost) && SyncedAfter(fp, ident, v.after, t, lost, v.commands))
    {
      VisitSynced(fp, ident, c, t, lost, p, budget, Visiting(budget)(c, p));
    }
  }

  lemma {:induction false} ScanSynced(visit: Visitor, fp: Fingerprint, ident: Ident, c: Cache, t: Terminal,
                                      lost: set<Key>, list: seq<HostPlacement>, index: nat, left: nat,
                                      commands: seq<Command>, emitted: bool, o: Outcome)
    requires KeepsSynced(visit, fp, ident) && (left > 0 ==> index < |list|) && Wellformed(fp, ident, list)
    requires SyncedAfter(fp, ident, c, t, lost, commands) && (!emitted ==> commands == [])
    requires o == Scan(visit, c, list, index, left, commands, emitted)
    ensures SyncedAfter(fp, ident, o.cache, t, lost, o.commands)
    decreases left
  {
    if left == 0 {
      SyncedFrame(fp, ident, c, o.cache, Interpret(t, commands), lost - Displayed(commands));
    } else {
      var v := visit(c, list[index]);
      if v.Pass? {
        ScanSynced(visit, fp, ident, v.cache, t, lost, list, NextIndex(list, index), left - 1, commands, emitted, o);
      } else if !emitted {
        assert lost - Displayed(commands) == lost;
        ResumeSynced(fp, ident, v.after, t, lost, v.commands, list, index);
        ScanSynced(visit, fp, ident, Resume(v.after, list, index), t, lost, list, NextIndex(list, index), left - 1,
                   v.commands, true, o);
      }
    }
  }

  lemma ResumeSynced(fp: Fingerprint, ident: Ident, c: Cache, t: Terminal, lost: set<Key>, commands: seq<Command>,
                     list: seq<HostPlacement>, index: nat)
    requires SyncedAfter(fp, ident, c, t, lost, commands) && index < |list|
    ensures SyncedAfter(fp, ident, Resume(c, list, index), t, lost, commands)
  {
  }

  /** A delete command appended to what was sent before. */
  lemma DeleteAfter(fp: Fingerprint, ident: Ident, c: Cache, c': Cache, t: Terminal, lost: set<Key>,
                    commands: seq<Command>, delete: Command)
    requires SyncedAfter(fp, ident, c, t, lost, commands) && Grounded(c')
    requires match delete
             case DeleteImage(id) => c'.images == c.images - {id} && c'.placements == Without(c.placements, id)
             case DeletePlacement(id, pid) => c'.images == c.images && c'.placements == c.placements - {(id, pid)}
             case _ => false
    ensures SyncedAfter(fp, ident, c', t, lost, commands + [delete])
  {
    InterpretConcat(t, commands, [delete]);
    InterpretOne(Interpret(t, commands), delete);
    DisplayedConcat(commands, [delete]);
    assert Displayed([delete]) == {};
    assert lost - Displayed(commands + [delete]) == lost - Displayed(commands);
  }

  lemma {:induction false} DropDeadSynced(fp: Fingerprint, ident: Ident, c: Cache, t: Terminal, lost: set<Key>,
                                          dead: seq<SourceKey>, commands: seq<Command>, emitted: bool)
    requires SyncedAfter(fp, ident, c, t, lost, commands)
    ensures var s := DropDead(c, dead, commands, emitted); SyncedAfter(fp, ident, s.cache, t, lost, s.commands)
    decreases |dead|
  {
    if dead != [] && dead[0] !in c.sources {
      DropDeadSynced(fp, ident, c, t, lost, dead[1..], commands, emitted);
    } else if dead != [] {
      var id := c.sources[dead[0]];
      var removed := c.(sources := c.sources - {dead[0]});
      if c.ReferencedByOther(dead[0], id) {
        SyncedFrame(fp, ident, c, removed, Interpret(t, commands), lost - Displayed(commands));
        DropDeadSynced(fp, ident, removed, t, lost, dead[1..], commands, emitted);
      } else if !emitted {
        DeleteAfter(fp, ident, c, DropImage(removed, id), t, lost, commands, DeleteImage(id));
        DropDeadSynced(fp, ident, DropImage(removed, id), t, lost, dead[1..], commands + [DeleteImage(id)], true);
      }
    }
  }

  lemma {:induction false} DropStaleSynced(fp: Fingerprint, ident: Ident, c: Cache, t: Terminal, lost: set<Key>,
                                           stale: seq<Key>, commands: seq<Command>, emitted: bool)
    requires SyncedAfter(fp, ident, c, t, lost, commands)
    ensures var s := DropStale(c, stale, commands, emitted); SyncedAfter(fp, ident, s.cache, t, lost, s.commands)
    decreases |stale|
  {
    if stale != [] && !emitted {
      var delete := DeletePlacement(stale[0].0, stale[0].1);
      DeleteAfter(fp, ident, c, DropPlacement(c, stale[0]), t, lost, commands, delete);
      DropStaleSynced(fp, ident, DropPlacement(c, stale[0]), t, lost, stale[1..], commands + [delete], true);
    }
  }

  /** Commands are only emitted together with the flag that stops a second transaction. */
  lemma {:induction false} DropDeadFlag(c: Cache, dead: seq<SourceKey>, commands: seq<Command>, emitted: bool)
    requires !emitted ==> commands == []
    ensures var s := DropDead(c, dead, commands, emitted); !s.emitted ==> s.commands == []
    decreases |dead|
  {
    if dead != [] {
      var removed := c.(sources := c.sources - {dead[0]});
      if dead[0] !in c.sources {
        DropDeadFlag(c, dead[1..], commands, emitted);
      } else if c.ReferencedByOther(dead[0], c.sources[dead[0]]) {
        DropDeadFlag(removed, dead[1..], commands, emitted);
      } else {
        DropDeadFlag(DropImage(removed, c.sources[dead[0]]), dead[1..], commands + [DeleteImage(c.sources[dead[0]])],
                     true);
      }
    }
  }

  lemma {:induction false} DropStaleFlag(c: Cache, stale: seq<Key>, commands: seq<Command>, emitted: bool)
    requires !emitted ==> commands == []
    ensures var s := DropStale(c, stale, commands, emitted); !s.emitted ==> s.commands == []
    decreases |stale|
  {
    if stale != [] && !emitted {
      DropStaleFlag(DropPlacement(c, stale[0]), stale[1..], commands + [DeletePlacement(stale[0].0, stale[0].1)], true);
    }
  }

  /** One incremental call keeps cache and terminal in step, whatever the list, the budget and the cursor. */
  lemma IncrementalSynced(fp: Fingerprint, ident: Ident, c: Cache, t: Terminal, lost: set<Key>,
                          list: seq<HostPlacement>, live: set<SourceKey>, budget: Option<nat>)
    requires Synced(fp, ident, c, t, lost) && Wellformed(fp, ident, list)
    ensures var o := Incremental(c, list, live, budget);
            SyncedAfter(fp, ident, o.cache, t, lost, o.commands)
  {
    FrontSynced(fp, ident, c, t, lost, list, live);
    var front := Front(c, list, live);
    if !front.stopped {
      VisitingKeepsSynced(fp, ident, budget);
      ScanSynced(Visiting(budget), fp, ident, front.cache, t, lost, list, StartIndex(c, list), |list|, front.commands,
                 front.emitted,
                 Incremental(c, list, live, budget));
    }
  }

  lemma FrontSynced(fp: Fingerprint, ident: Ident, c: Cache, t: Terminal, lost: set<Key>,
                    list: seq<HostPlacement>, live: set<SourceKey>)
    requires Synced(fp, ident, c, t, lost)
    ensures var s := Front(c, list, live);
            SyncedAfter(fp, ident, s.cache, t, lost, s.commands) && (!s.emitted ==> s.commands == [])
  {
    var deadSources := SortedSources(DeadSources(c, live));
    assert lost - Displayed([]) == lost;
    DropDeadSynced(fp, ident, c, t, lost, deadSources, [], false);
    DropDeadFlag(c, deadSources, [], false);
    var dead := DropDead(c, deadSources, [], false);
    if !dead.stopped {
      var kept := Retain(dead.cache, list, live);
      SyncedFrame(fp, ident, dead.cache, kept, Interpret(t, dead.commands), lost - Displayed(dead.commands));
      var staleKeys := SortedKeys(StaleKeys(kept, list));
      DropStaleSynced(fp, ident, kept, t, lost, staleKeys, dead.commands, dead.emitted);
      DropStaleFlag(kept, staleKeys, dead.commands, dead.emitted);
    }
  }

  // --- The reference encoder ---

  ghost predicate TerminalOnly(list: seq<HostPlacement>) {
    forall p :: p in list ==> p.source.TerminalImage?
  }

  lemma LegacyReleaseSynced(fp: Fingerprint, ident: Ident, r: Pass1, t: Terminal, lost: set<Key>, source: SourceKey,
                            id: u32, r': Pass1)
    requires SyncedAfter(fp, ident, r.cache, t, lost, r.commands) && id in r.cache.images
    requires r' == LegacyRelease(r, source, id)
    ensures SyncedAfter(fp, ident, r'.cache, t, lost, r'.commands) && id in r'.cache.images
  {
    var moved := r.cache.(sources := r.cache.sources[source := id]);
    MirrorsFrame(fp, r.cache, moved, Interpret(t, r.commands), lost - Displayed(r.commands));
    assert SyncedAfter(fp, ident, moved, t, lost, r.commands);
    if r'.commands != r.commands {
      var previous := r.cache.sources[source];
      DeleteAfter(fp, ident, moved, r'.cache, t, lost, r.commands, DeleteImage(previous));
    }
  }

  lemma LegacyUploadSynced(fp: Fingerprint, ident: Ident, c: Cache, t: Terminal, lost: set<Key>, commands: seq<Command>,
                           p: HostPlacement)
    requires SyncedAfter(fp, ident, c, t, lost, commands) && Identified(ident, p) && Described(fp, p)
    requires p.HostId() !in c.images && p.data != []
    ensures SyncedAfter(fp, ident, c.(images := c.images[p.HostId() := p.signature]), t, lost,
                        commands + [Upload(p.HostId(), p.Payload())])
  {
    var upload := Upload(p.HostId(), p.Payload());
    PayloadDescribed(fp, p);
    UploadMirrors(fp, c, Interpret(t, commands), lost - Displayed(commands), p.HostId(), p.Payload());
    InterpretConcat(t, commands, [upload]);
    InterpretOne(Interpret(t, commands), upload);
    DisplayedConcat(commands, [upload]);
    assert Displayed([upload]) == {};
    assert lost - Displayed(commands + [upload]) == lost - Displayed(commands);
  }

  lemma LegacyDisplaySynced(fp: Fingerprint, ident: Ident, c: Cache, t: Terminal, lost: set<Key>,
                            commands: seq<Command>, p: HostPlacement)
    requires SyncedAfter(fp, ident, c, t, lost, commands) && Identified(ident, p)
    requires p.HostId() in c.images && p.Visible()
    ensures SyncedAfter(fp, ident, c.(placements := c.placements[p.Key() := p.Placed()]), t, lost,
                        commands + [Display(p.HostId(), p.placementId, p.clip.value)])
  {
    var display := Display(p.HostId(), p.placementId, p.clip.value);
    DisplayMirrors(fp, c, Interpret(t, commands), lost - Displayed(commands), p.HostId(), p.placementId, p.Placed());
    InterpretConcat(t, commands, [display]);
    InterpretOne(Interpret(t, commands), display);
    DisplayedConcat(commands, [display]);
    assert Displayed([display]) == {p.Key()} by { assert display in [display]; }
    assert lost - Displayed(commands + [display]) == lost - Displayed(commands) - {p.Key()};
  }

  lemma LegacyVisitSynced(fp: Fingerprint, ident: Ident, r: Pass1, t: Terminal, lost: set<Key>, p: HostPlacement,
                          viewChanged: bool, r': Pass1)
    requires SyncedAfter(fp, ident, r.cache, t, lost, r.commands)
    requires Identified(ident, p) && Described(fp, p) && p.source.TerminalImage?
    requires r' == LegacyVisit(r, p, viewChanged)
    ensures SyncedAfter(fp, ident, r'.cache, t, lost, r'.commands)
  {
    var id := p.HostId();
    var current := id in r.cache.images;
    if p.Visible() && (current || p.data != []) {
      var wanted := r.(wanted := r.wanted + {p.Key()});
      var uploaded := if current then wanted
                      else wanted.(cache := r.cache.(images := r.cache.images[id := p.signature]),
                                   commands := r.commands + [Upload(id, p.Payload())]);
      if !current { LegacyUploadSynced(fp, ident, r.cache, t, lost, r.commands, p); }
      var released := LegacyRelease(uploaded, p.source, id);
      LegacyReleaseSynced(fp, ident, uploaded, t, lost, p.source, id, released);
      LegacyDisplaySynced(fp, ident, released.cache, t, lost, released.commands, p);
    }
  }

  lemma {:induction false} LegacyScanSynced(fp: Fingerprint, ident: Ident, r: Pass1, t: Terminal, lost: set<Key>,
                                            list: seq<HostPlacement>, viewChanged: bool, r': Pass1)
    requires SyncedAfter(fp, ident, r.cache, t, lost, r.commands)
    requires Wellformed(fp, ident, list) && TerminalOnly(list)
    requires r' == LegacyScan(r, list, viewChanged)
    ensures SyncedAfter(fp, ident, r'.cache, t, lost, r'.commands)
    decreases |list|
  {
    if list != [] {
      var next := LegacyVisit(r, list[0], viewChanged);
      LegacyVisitSynced(fp, ident, r, t, lost, list[0], viewChanged, next);
      LegacyScanSynced(fp, ident, next, t, lost, list[1..], viewChanged, r');
    }
  }

  /** The commands of the reference encoder: those of its pass, then the stale placements in any order. */
  ghost predicate LegacyCommands(c: Cache, list: seq<HostPlacement>, viewChanged: bool, commands: seq<Command>) {
    var r := LegacyScan(LegacyStart(c, list), list, viewChanged);
    r.commands <= commands && DeletesPlacements(commands[|r.commands|..], LegacyStale(r))
  }

  lemma NothingDisplayed(commands: seq<Command>)
    requires forall c :: c in commands ==> c.DeleteImage? || c.DeletePlacement?
    ensures Displayed(commands) == {}
  {
  }

  lemma LegacySynced(fp: Fingerprint, ident: Ident, c: Cache, t: Terminal, lost: set<Key>,
                     list: seq<HostPlacement>, viewChanged: bool, commands: seq<Command>)
    requires Synced(fp, ident, c, t, lost) && Wellformed(fp, ident, list) && TerminalOnly(list)
    requires LegacyCommands(c, list, viewChanged, commands)
    ensures SyncedAfter(fp, ident, Legacy(c, list, viewChanged), t, lost, commands)
  {
    var start := LegacyStart(c, list);
    var r := LegacyScan(start, list, viewChanged);
    assert lost - Displayed([]) == lost;
    SyncedFrame(fp, ident, c, start.cache, t, lost);
    LegacyScanSynced(fp, ident, start, t, lost, list, viewChanged, r);
    var deletes := commands[|r.commands|..];
    assert commands == r.commands + deletes;
    InterpretConcat(t, r.commands, deletes);
    InterpretDeletesPlacements(Interpret(t, r.commands), deletes, LegacyStale(r));
    DisplayedConcat(r.commands, deletes);
    NothingDisplayed(deletes);
    assert lost - Displayed(commands) == lost - Displayed(r.commands);
    StaleDropped(fp, ident, r.cache, Interpret(t, r.commands), lost - Displayed(r.commands), LegacyStale(r));
  }

  lemma StaleDropped(fp: Fingerprint, ident: Ident, c: Cache, t: Terminal, lost: set<Key>, keys: set<Key>)
    requires Synced(fp, ident, c, t, lost)
    ensures Synced(fp, ident, c.(placements := c.placements - keys), t.(placements := t.placements - keys), lost)
  {
  }

  // --- Clearing ---

  lemma ImagesDropped(fp: Fingerprint, ident: Ident, c: Cache, c': Cache, t: Terminal, lost: set<Key>, ids: set<u32>,
                      commands: seq<Command>)
    requires Synced(fp, ident, c, t, lost) && DeletesImages(commands, ids)
    requires c'.images == c.images - ids
    requires c'.placements == map k | k in c.placements && k.0 !in ids :: c.placements[k]
    requires forall s :: s in c'.sources ==> s in c.sources && c'.sources[s] == c.sources[s] && c.sources[s] !in ids
    ensures SyncedAfter(fp, ident, c', t, lost, commands)
  {
    InterpretDeletesImages(t, commands, ids);
    NothingDisplayed(commands);
    assert lost - Displayed(commands) == lost;
  }

  lemma ClearBytesSynced(fp: Fingerprint, ident: Ident, c: Cache, t: Terminal, lost: set<Key>, commands: seq<Command>)
    requires Synced(fp, ident, c, t, lost) && DeletesImages(commands, c.images.Keys)
    ensures SyncedAfter(fp, ident, ClearBytes(c), t, lost, commands)
    ensures Interpret(t, commands) == Terminal(map[], map[])
  {
    assert c.images - c.images.Keys == map[];
    assert (map k | k in c.placements && k.0 !in c.images :: c.placements[k]) == map[];
    ImagesDropped(fp, ident, c, ClearBytes(c), t, lost, c.images.Keys, commands);
    assert Interpret(t, commands).images.Keys == {} && Interpret(t, commands).placements.Keys == {};
  }

  lemma ClearPaneSourcesSynced(fp: Fingerprint, ident: Ident, c: Cache, t: Terminal, lost: set<Key>,
                               commands: seq<Command>)
    requires Synced(fp, ident, c, t, lost) && DeletesImages(commands, OrphanedByLayers(c))
    ensures SyncedAfter(fp, ident, ClearPaneSources(c), t, lost, commands)
  {
    ImagesDropped(fp, ident, c, ClearPaneSources(c), t, lost, OrphanedByLayers(c), commands);
  }

  /** After all pane layers are removed, an image is still there exactly if a terminal image shows it or no layer did,
      and only terminal images have sources. */
  lemma ClearPaneSourcesExactly(c: Cache)
    ensures var after := ClearPaneSources(c);
            && (forall id :: id in after.images <==>
                  id in c.images && ((exists s :: s in c.sources && s.TerminalImage? && c.sources[s] == id)
                                     || (forall s :: s in c.sources && s.PaneLayer? ==> c.sources[s] != id)))
            && (forall s :: s in after.sources <==> s in c.sources && s.TerminalImage?)
            && (forall s :: s in after.sources ==> after.sources[s] == c.sources[s])
  {
  }

  /** How much there is to delete. */
  ghost function Left(c: Cache): nat {
    |c.images| + |c.placements|
  }

  /** The image of least id goes with its placements and sources, if there is an image. */
  lemma ClearNextShape(c: Cache, o: Outcome) returns (id: u32)
    requires o == ClearNext(c) && c.images != map[]
    ensures Ordering.IsLeast(id, c.images.Keys, IdLeq) && o.commands == [DeleteImage(id)]
    ensures o.cache.images == c.images - {id} && o.cache.placements == Without(c.placements, id)
    ensures o.cache.sources == map s | s in c.sources && c.sources[s] != id :: c.sources[s]
    ensures o.incomplete == !IsEmpty(o.cache)
  {
    id := o.commands[0].id;
    assert Ordering.IsLeast(id, c.images.Keys, IdLeq);
  }

  lemma ClearNextEmpty(c: Cache, o: Outcome)
    requires o == ClearNext(c) && c.images == map[] && c.placements == map[]
    ensures o.commands == [] && !o.incomplete
    ensures o.cache.images == map[] && o.cache.placements == map[] && o.cache.sources == map[]
  {
  }

  /** The step keeps cache and terminal in step. It deletes exactly the image of least id, with its placements, if there
      is one, and it is incomplete exactly while something is left. */
  lemma ClearNextSynced(fp: Fingerprint, ident: Ident, c: Cache, t: Terminal, lost: set<Key>, o: Outcome)
    requires Synced(fp, ident, c, t, lost) && o == ClearNext(c)
    ensures SyncedAfter(fp, ident, o.cache, t, lost, o.commands)
    ensures if t.images == map[] then o.commands == []
            else exists id :: Ordering.IsLeast(id, t.images.Keys, IdLeq) && o.commands == [DeleteImage(id)]
    ensures o.incomplete <==> o.cache.images != map[] || o.cache.placements != map[]
    ensures |o.cache.images| == |c.images| - |o.commands| && Left(o.cache) <= Left(c) - |o.commands|
  {
    assert lost - Displayed([]) == lost;
    if c.images == map[] {
      assert c.placements.Keys == {} && t.images.Keys == {};
      ClearNextEmpty(c, o);
      SyncedFrame(fp, ident, c, o.cache, t, lost);
    } else {
      var id := ClearNextShape(c, o);
      assert t.images.Keys == c.images.Keys;
      ImageCleared(fp, ident, c, o.cache, t, lost, id);
      FewerLeft(c, o.cache, id);
    }
  }

  lemma ImageCleared(fp: Fingerprint, ident: Ident, c: Cache, c': Cache, t: Terminal, lost: set<Key>, id: u32)
    requires Synced(fp, ident, c, t, lost)
    requires c'.images == c.images - {id} && c'.placements == Without(c.placements, id)
    requires c'.sources == map s | s in c.sources && c.sources[s] != id :: c.sources[s]
    ensures SyncedAfter(fp, ident, c', t, lost, [DeleteImage(id)])
  {
    assert lost - Displayed([]) == lost;
    assert [DeleteImage(id)] == [] + [DeleteImage(id)];
    DeleteAfter(fp, ident, c, c', t, lost, [], DeleteImage(id));
  }

  lemma FewerLeft(c: Cache, c': Cache, id: u32)
    requires id in c.images && c'.images == c.images - {id} && c'.placements == Without(c.placements, id)
    ensures |c'.images| == |c.images| - 1 && Left(c') < Left(c)
  {
    assert c.images.Keys == c'.images.Keys + {id};
    SubsetCardinality(c'.placements.Keys, c.placements.Keys);
  }

  /** Clear one thing after another, as long as something is left. */
  ghost function ClearSteps(fp: Fingerprint, ident: Ident, c: Cache, t: Terminal, lost: set<Key>): (Cache, seq<Command>)
    requires Synced(fp, ident, c, t, lost)
    decreases Left(c)
  {
    var o := ClearNext(c);
    ClearNextSynced(fp, ident, c, t, lost, o);
    if !o.incomplete then (o.cache, o.commands)
    else
      var (end, rest) := ClearSteps(fp, ident, o.cache, Interpret(t, o.commands), lost - Displayed(o.commands));
      (end, o.commands + rest)
  }

  /** The steps end, with one deletion for every image and with nothing left on either side. */
  lemma {:induction false} ClearStepsEmpty(fp: Fingerprint, ident: Ident, c: Cache, t: Terminal, lost: set<Key>)
    requires Synced(fp, ident, c, t, lost)
    ensures var (end, commands) := ClearSteps(fp, ident, c, t, lost);
            && end.images == map[] && end.placements == map[] && end.sources == map[]
            && |commands| == |c.images| && Interpret(t, commands) == Terminal(map[], map[])
    decreases Left(c)
  {
    var o := ClearNext(c);
    ClearNextSynced(fp, ident, c, t, lost, o);
    if o.incomplete {
      ClearStepsEmpty(fp, ident, o.cache, Interpret(t, o.commands), lost - Displayed(o.commands));
      InterpretConcat(t, o.commands,
                      ClearSteps(fp, ident, o.cache, Interpret(t, o.commands), lost - Displayed(o.commands)).1);
    } else {
      var t' := Interpret(t, o.commands);
      assert t'.images.Keys == {} && t'.placements.Keys == {};
    }
  }

  // --- Runs ---

  /** What can happen to one host terminal and the cache kept for it. */
  datatype Step =
    | PaintFrame(list: seq<HostPlacement>, live: set<SourceKey>, budget: Option<nat>)
    | ReferenceFrame(terminalList: seq<HostPlacement>, viewChanged: bool)
    | AskReplay
    | ChangeView(view: Option<View>)
    | ClearOne
    | ClearLayers
    | ClearAll
    | TextBlit(painted: set<Key>)

  /** `lost` are the placements that text painted over and that were not displayed again since. */
  datatype Host = Host(cache: Cache, terminal: Terminal, lost: set<Key>)

  const NEW_HOST := Host(EMPTY_CACHE, Terminal(map[], map[]), {})

  ghost predicate Admissible(fp: Fingerprint, ident: Ident, step: Step) {
    match step
    case PaintFrame(list, _, _) => Wellformed(fp, ident, list)
    case ReferenceFrame(list, _) => Wellformed(fp, ident, list) && TerminalOnly(list)
    case _ => true
  }

  /** `h'` is `h` with cache `cache` after the terminal read `commands`. */
  ghost predicate Sends(h: Host, cache: Cache, commands: seq<Command>, h': Host) {
    h' == Host(cache, Interpret(h.terminal, commands), h.lost - Displayed(commands))
  }

  ghost predicate Next(h: Host, step: Step, h': Host) {
    match step
    case PaintFrame(list, live, budget) =>
      var o := Incremental(h.cache, list, live, budget); Sends(h, o.cache, o.commands, h')
    case ReferenceFrame(list, viewChanged) =>
      exists commands :: LegacyCommands(h.cache, list, viewChanged, commands)
                         && Sends(h, Legacy(h.cache, list, viewChanged), commands, h')
    case AskReplay => h' == h.(cache := RequestReplay(h.cache))
    case ChangeView(view) => h' == h.(cache := UpdateView(h.cache, view))
    case ClearOne => var o := ClearNext(h.cache); Sends(h, o.cache, o.commands, h')
    case ClearLayers =>
      exists commands :: DeletesImages(commands, OrphanedByLayers(h.cache))
          && Sends(h, ClearPaneSources(h.cache), commands, h')
    case ClearAll =>
      exists commands :: DeletesImages(commands, h.cache.images.Keys) && Sends(h, ClearBytes(h.cache), commands, h')
    case TextBlit(painted) =>
      h' == Host(h.cache, h.terminal.(placements := h.terminal.placements - painted), h.lost + painted)
  }

  ghost predicate Run(fp: Fingerprint, ident: Ident, hosts: seq<Host>, steps: seq<Step>) {
    && |hosts| == |steps| + 1 && hosts[0] == NEW_HOST
    && forall i :: 0 <= i < |steps| ==> Admissible(fp, ident, steps[i]) && Next(hosts[i], steps[i], hosts[i + 1])
  }

  lemma NextSynced(fp: Fingerprint, ident: Ident, h: Host, step: Step, h': Host)
    requires Synced(fp, ident, h.cache, h.terminal, h.lost) && Admissible(fp, ident, step) && Next(h, step, h')
    ensures Synced(fp, ident, h'.cache, h'.terminal, h'.lost)
  {
    match step
    case PaintFrame(list, live, budget) =>
      IncrementalSynced(fp, ident, h.cache, h.terminal, h.lost, list, live, budget);
    case ReferenceFrame(list, viewChanged) =>
      var commands :| LegacyCommands(h.cache, list, viewChanged, commands)
                      && Sends(h, Legacy(h.cache, list, viewChanged), commands, h');
      LegacySynced(fp, ident, h.cache, h.terminal, h.lost, list, viewChanged, commands);
    case AskReplay => SyncedFrame(fp, ident, h.cache, h'.cache, h.terminal, h.lost);
    case ChangeView(_) => SyncedFrame(fp, ident, h.cache, h'.cache, h.terminal, h.lost);
    case ClearOne => ClearNextSynced(fp, ident, h.cache, h.terminal, h.lost, ClearNext(h.cache));
    case ClearLayers =>
      var commands :| DeletesImages(commands, OrphanedByLayers(h.cache))
          && Sends(h, ClearPaneSources(h.cache), commands, h');
      ClearPaneSourcesSynced(fp, ident, h.cache, h.terminal, h.lost, commands);
    case ClearAll =>
      var commands :| DeletesImages(commands, h.cache.images.Keys) && Sends(h, ClearBytes(h.cache), commands, h');
      ClearBytesSynced(fp, ident, h.cache, h.terminal, h.lost, commands);
    case TextBlit(painted) =>
  }

  /** At every point of every run, the terminal holds exactly the images the cache records and exactly
      its placements, up to those that text has painted over since they were last displayed. */
  lemma {:induction false} CacheMirrorsTerminal(fp: Fingerprint, ident: Ident, hosts: seq<Host>, steps: seq<Step>,
                                                i: nat)
    requires Run(fp, ident, hosts, steps) && i < |hosts|
    ensures Synced(fp, ident, hosts[i].cache, hosts[i].terminal, hosts[i].lost)
  {
    if i > 0 {
      CacheMirrorsTerminal(fp, ident, hosts, steps, i - 1);
      NextSynced(fp, ident, hosts[i - 1], steps[i - 1], hosts[i]);
    }
  }

  /** When no text is painted over placements, nothing is ever lost: cache and terminal agree exactly. */
  lemma {:induction false} NothingLostWithoutBlits(fp: Fingerprint, ident: Ident, hosts: seq<Host>, steps: seq<Step>,
                                                   i: nat)
    requires Run(fp, ident, hosts, steps) && i < |hosts|
    requires forall j :: 0 <= j < |steps| ==> !steps[j].TextBlit?
    ensures Mirrors(fp, hosts[i].cache, hosts[i].terminal, {})
  {
    CacheMirrorsTerminal(fp, ident, hosts, steps, i);
    StillNothingLost(fp, ident, hosts, steps, i);
  }

  lemma {:induction false} StillNothingLost(fp: Fingerprint, ident: Ident, hosts: seq<Host>, steps: seq<Step>, i: nat)
    requires Run(fp, ident, hosts, steps) && i < |hosts|
    requires forall j :: 0 <= j < |steps| ==> !steps[j].TextBlit?
    ensures hosts[i].lost == {}
  {
    if i > 0 {
      StillNothingLost(fp, ident, hosts, steps, i - 1);
      assert Next(hosts[i - 1], steps[i - 1], hosts[i]);
    }
  }
}
