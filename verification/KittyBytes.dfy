/**
 The bytes reach the terminal: whatever an operation of the cache sends is rendered to bytes that are read as exactly
 the commands meant, so that a terminal that reads the bytes keeps in step with the cache.
 */
module KittyBytes {
  import opened Prelude
  import opened KittyProtocol
  import opened KittyWire
  import opened GraphicsSpec
  import opened GraphicsMirror
  import opened GraphicsBudget
  import opened KittyReader
  import Clipping

  /** Every visible entry was clipped to a pane on the screen. */
  ghost predicate AllClipped(list: seq<HostPlacement>) {
    forall p :: p in list && p.Visible() ==> exists u :: ClippedTo(p, u)
  }

  predicate AllReadable(commands: seq<Command>) {
    forall c :: c in commands ==> Readable(c)
  }

  lemma ClipPlaces(p: HostPlacement)
    requires p.Visible() && exists u :: ClippedTo(p, u)
    ensures p.clip.value.x < 0xffff && p.clip.value.y < 0xffff
  {
    var u :| ClippedTo(p, u);
    Clipping.ClipInBounds(u);
  }

  /** The transaction of an entry: its pixels are never empty, and it displays the entry as it was clipped. */
  lemma TransactionReadable(c: Cache, p: HostPlacement, c': Cache, commands: seq<Command>)
    requires PlacementUpdate(c, p) == Some((c', commands)) && exists u :: ClippedTo(p, u)
    ensures AllReadable(commands)
  {
    ClipPlaces(p);
    var pixels, deletes, shows := TransactionShape(c, p, c', commands);
    forall d | d in pixels ensures Readable(d) {}
    forall d | d in commands ensures Readable(d) { assert d in pixels || d in deletes || d in shows; }
  }

  lemma CallReadable(c: Cache, list: seq<HostPlacement>, live: set<SourceKey>, budget: Option<nat>, o: Outcome)
    requires o == Incremental(c, list, live, budget) && AllClipped(list)
    ensures AllReadable(o.commands)
  {
    CallSendsOne(c, list, live, budget, o);
    if p :| p in list && Transaction(p, budget, o.commands) {
      var c1: Cache, c2: Cache :| PlacementUpdate(c1, p) == Some((c2, o.commands));
      TransactionReadable(c1, p, c2, o.commands);
    }
  }

  lemma LegacyVisitReadable(r: Pass1, p: HostPlacement, viewChanged: bool)
    requires AllReadable(r.commands) && (p.Visible() ==> exists u :: ClippedTo(p, u))
    ensures AllReadable(LegacyVisit(r, p, viewChanged).commands)
  {
    if p.Visible() { ClipPlaces(p); }
  }

  lemma {:induction false} LegacyScanReadable(r: Pass1, list: seq<HostPlacement>, viewChanged: bool)
    requires AllReadable(r.commands) && AllClipped(list)
    ensures AllReadable(LegacyScan(r, list, viewChanged).commands)
    decreases |list|
  {
    if list != [] {
      assert list[0] in list;
      LegacyVisitReadable(r, list[0], viewChanged);
      LegacyScanReadable(LegacyVisit(r, list[0], viewChanged), list[1..], viewChanged);
    }
  }

  lemma LegacyReadable(c: Cache, list: seq<HostPlacement>, viewChanged: bool, commands: seq<Command>)
    requires LegacyCommands(c, list, viewChanged, commands) && AllClipped(list)
    ensures AllReadable(commands)
  {
    var r := LegacyScan(LegacyStart(c, list), list, viewChanged);
    LegacyScanReadable(LegacyStart(c, list), list, viewChanged);
    var deletes := commands[|r.commands|..];
    assert commands == r.commands + deletes;
    forall d | d in commands ensures Readable(d) { assert d in r.commands || d in deletes; }
  }

  ghost predicate StepClipped(step: Step) {
    match step
    case PaintFrame(list, _, _) => AllClipped(list)
    case ReferenceFrame(list, _) => AllClipped(list)
    case _ => true
  }

  /** The terminal read these bytes. */
  ghost predicate Reads(t: Terminal, bytes: string, t': Terminal) {
    ReadAll(bytes).Some? && t' == Interpret(t, ReadAll(bytes).value)
  }

  /** Every operation sends bytes that take the terminal to its next state. */
  lemma StepReaches(h: Host, step: Step, h': Host) returns (bytes: string)
    requires Next(h, step, h') && StepClipped(step) && !step.TextBlit?
    ensures Reads(h.terminal, bytes, h'.terminal)
  {
    var cache, commands := h'.cache, [];
    match step {
      case PaintFrame(list, live, budget) =>
        var o := Incremental(h.cache, list, live, budget);
        CallReadable(h.cache, list, live, budget, o);
        commands := o.commands;
      case ReferenceFrame(list, viewChanged) =>
        commands :| LegacyCommands(h.cache, list, viewChanged, commands)
                    && Sends(h, Legacy(h.cache, list, viewChanged), commands, h');
        LegacyReadable(h.cache, list, viewChanged, commands);
      case ClearOne => commands := ClearNext(h.cache).commands;
      case ClearLayers =>
        commands :| DeletesImages(commands, OrphanedByLayers(h.cache))
                    && Sends(h, ClearPaneSources(h.cache), commands, h');
      case ClearAll =>
        commands :| DeletesImages(commands, h.cache.images.Keys) && Sends(h, ClearBytes(h.cache), commands, h');
      case _ =>
    }
    bytes := RenderAll(commands);
    ReadsRendered(commands);
  }

  /** One call keeps cache and terminal in step by the bytes that it writes. */
  lemma BytesSynced(fp: Fingerprint, ident: Ident, c: Cache, t: Terminal, lost: set<Key>, list: seq<HostPlacement>,
                    live: set<SourceKey>, budget: Option<nat>, o: Outcome)
    requires Synced(fp, ident, c, t, lost) && Wellformed(fp, ident, list) && AllClipped(list)
    requires o == Incremental(c, list, live, budget)
    ensures ReadAll(RenderAll(o.commands)).Some?
    ensures SyncedAfter(fp, ident, o.cache, t, lost, ReadAll(RenderAll(o.commands)).value)
  {
    CallReadable(c, list, live, budget, o);
    ReadsRendered(o.commands);
    IncrementalSynced(fp, ident, c, t, lost, list, live, budget);
  }
}
