/**
 What one incremental call writes: at most one transaction, within the byte budget, and inside the pane.
 */
module GraphicsBudget {
  import opened Prelude
  import opened KittyProtocol
  import opened KittyWire
  import opened GraphicsSpec
  import opened GraphicsMirror
  import opened GraphicsDrain
  import Clipping

  // --- Rendering ---

  function Field(name: string, value: u32): string {
    "," + name + "=" + Decimal(value)
  }

  /** Placement controls are written only when they are not zero. */
  function Optional(name: string, value: u32): string {
    if value > 0 then Field(name, value) else ""
  }

  function PlacementControls(s: Shown): string {
    Optional("x", s.sourceX) + Optional("y", s.sourceY) + Optional("w", s.sourceWidth) + Optional("h", s.sourceHeight)
    + Optional("X", s.xOffset) + Optional("Y", s.yOffset)
  }

  function MoveCursor(s: Shown): string {
    [ESC] + "[" + Decimal((s.y + 1) % 0x1_0000) + ";" + Decimal((s.x + 1) % 0x1_0000) + "H"
  }

  function ImageControl(image: Image, id: u32): string {
    ",t=d" + Field("f", image.format) + Field("s", image.width) + Field("v", image.height) + Field("i", id)
  }

  function ShownControl(placement: u32, s: Shown): string {
    Field("p", placement) + Field("c", s.cols) + Field("r",
                                                       s.rows) + ",z=" + Signed(s.z) + ",C=1,q=2" + PlacementControls(s)
  }

  function Render(c: Command): string {
    match c
    case DeleteImage(id) => Frame(Packet("a=d,d=I" + Field("i", id) + ",q=2", ""))
    case DeletePlacement(id, placement) =>
        Frame(Packet("a=d,d=i" + Field("i", id) + Field("p", placement) + ",q=2", ""))
    case Upload(id, image) => Stream(Transfer("a=t" + ImageControl(image, id) + ",q=2", image.data))
    case TransmitAndDisplay(id, image, placement, s) =>
      MoveCursor(s) + Stream(Transfer("a=T" + ImageControl(image, id) + ShownControl(placement, s), image.data))
    case Display(id, placement, s) =>
      MoveCursor(s) + Frame(Packet("a=p" + Field("i", id) + ShownControl(placement, s), ""))
  }

  function RenderAll(commands: seq<Command>): string {
    Chain(Render, commands)
  }

  lemma JoinLength(a: seq<Command>, b: seq<Command>)
    ensures |RenderAll(a + b)| == |RenderAll(a)| + |RenderAll(b)|
  {
    ChainConcat(Render, a, b);
  }

  // --- Lengths ---

  lemma FieldLength(name: string, value: u32)
    requires |name| == 1
    ensures |Field(name, value)| <= 13 && |Optional(name, value)| <= 13
  {
    Lengths(value, 0);
  }

  lemma ShownLengths(placement: u32, s: Shown)
    ensures |MoveCursor(s)| <= 24 && |ShownControl(placement, s)| <= 139
  {
    Lengths((s.y + 1) % 0x1_0000, s.z);
    Lengths((s.x + 1) % 0x1_0000, s.z);
    FieldLength("p", placement);
    FieldLength("c", s.cols);
    FieldLength("r", s.rows);
    ControlsLength(s);
  }

  lemma ControlsLength(s: Shown)
    ensures |PlacementControls(s)| <= 78
  {
    FieldLength("x", s.sourceX);
    FieldLength("y", s.sourceY);
    FieldLength("w", s.sourceWidth);
    FieldLength("h", s.sourceHeight);
    FieldLength("X", s.xOffset);
    FieldLength("Y", s.yOffset);
  }

  lemma ImageControlLength(image: Image, id: u32)
    ensures |ImageControl(image, id)| <= 56
  {
    FieldLength("f", image.format);
    FieldLength("s", image.width);
    FieldLength("v", image.height);
    FieldLength("i", id);
  }

  /** How many chunks carry `n` bytes. */
  function Chunks(n: nat): nat {
    if n == 0 then 0 else if n <= CHUNK then 1 else 1 + Chunks(n - CHUNK)
  }

  lemma {:induction false} ChunksCeil(n: nat)
    ensures Chunks(n) == (n + 3071) / 3072
  {
    if n > CHUNK { ChunksCeil(n - CHUNK); }
  }

  lemma {:induction false} ContinuationLength(data: seq<byte>)
    ensures |Stream(Continuation(data))| == 9 * Chunks(|data|) + |Base64(data)|
  {
    if data != [] {
      var n := Min(CHUNK, |data|);
      var first, rest := Packet(More(data), Base64(data[..n])), Continuation(data[n..]);
      ContinuationLength(data[n..]);
      ChunkJoins(data, n);
      assert ([first] + rest)[1..] == rest;
    }
  }

  /** The image data on the wire: base64, framing of at most 16 bytes a chunk, and the control text once. */
  lemma TransferLength(control: string, data: seq<byte>)
    ensures |Stream(Transfer(control, data))| <= |control| + 16 * ((|data| + 3071) / 3072) + (|data| + 2) / 3 * 4
  {
    if data != [] {
      var n := Min(CHUNK, |data|);
      var first, rest := Packet(control + "," + More(data), Base64(data[..n])), Continuation(data[n..]);
      ContinuationLength(data[n..]);
      ChunkJoins(data, n);
      assert ([first] + rest)[1..] == rest;
      ChunksCeil(|data|);
      Base64Length(data);
    }
  }

  /** Bytes of image data on the wire. */
  function DataBytes(n: nat): nat {
    16 * ((n + 3071) / 3072) + (n + 2) / 3 * 4
  }

  /** Each command is short, apart from the image data it carries. */
  lemma RenderLength(c: Command)
    ensures match c
            case DeleteImage(_) => |Render(c)| <= 64
            case DeletePlacement(_, _) => |Render(c)| <= 64
            case Upload(_, image) => |Render(c)| <= 128 + DataBytes(|image.data|)
            case TransmitAndDisplay(_, image, _, _) => |Render(c)| <= 256 + DataBytes(|image.data|)
            case Display(_, _, _) => |Render(c)| <= 256
  {
    match c
    case DeleteImage(id) => FieldLength("i", id);
    case DeletePlacement(id, placement) =>
      FieldLength("i", id);
      FieldLength("p", placement);
    case Upload(id, image) =>
      ImageControlLength(image, id);
      TransferLength("a=t" + ImageControl(image, id) + ",q=2", image.data);
    case TransmitAndDisplay(id, image, placement, s) =>
      ImageControlLength(image, id);
      ShownLengths(placement, s);
      TransferLength("a=T" + ImageControl(image, id) + ShownControl(placement, s), image.data);
    case Display(id, placement, s) =>
      FieldLength("i", id);
      ShownLengths(placement, s);
  }

  // --- One transaction a call ---

  /** A transaction of `p` that the scan may emit under this budget. */
  ghost predicate Transaction(p: HostPlacement, budget: Option<nat>, commands: seq<Command>) {
    exists c: Cache, c': Cache :: PlacementUpdate(c, p) == Some((c', commands))
        && (c.ImageCurrent(p) || ImageTransactionFits(p, budget))
  }

  /** Nothing, one deletion, or the transaction of one entry of the list. */
  ghost predicate OneTransaction(list: seq<HostPlacement>, budget: Option<nat>, commands: seq<Command>) {
    || commands == []
    || (exists id :: commands == [DeleteImage(id)])
    || (exists id, placement :: commands == [DeletePlacement(id, placement)])
    || (exists p :: p in list && Transaction(p, budget, commands))
  }

  ghost predicate SendsTransactions(visit: Visitor, budget: Option<nat>) {
    forall c, p {:trigger Asked(c, p)} :: visit(c, p).Emit? ==> Transaction(p, budget, visit(c, p).commands)
  }

  lemma VisitingSendsTransactions(budget: Option<nat>)
    ensures SendsTransactions(Visiting(budget), budget)
  {
    forall c, p | Visiting(budget)(c, p).Emit? ensures Transaction(p, budget, Visiting(budget)(c, p).commands) {
      var v := VisitPlacement(c, p, budget);
      assert PlacementUpdate(v.before, p) == Some((v.after, v.commands));
    }
  }

  lemma {:induction false} ScanSendsOne(visit: Visitor, c: Cache, list: seq<HostPlacement>, budget: Option<nat>,
                                        index: nat, left: nat, commands: seq<Command>, emitted: bool, o: Outcome)
    requires SendsTransactions(visit, budget) && (left > 0 ==> index < |list|)
    requires OneTransaction(list, budget, commands) && o == Scan(visit, c, list, index, left, commands, emitted)
    ensures OneTransaction(list, budget, o.commands)
    decreases left
  {
    if left > 0 {
      var p := list[index];
      var v := visit(c, p);
      assert Asked(c, p);
      if v.Pass? {
        ScanSendsOne(visit, v.cache, list, budget, NextIndex(list, index), left - 1, commands, emitted, o);
      } else if !emitted {
        ScanSendsOne(visit, Resume(v.after, list, index), list, budget, NextIndex(list, index), left - 1, v.commands,
                     true, o);
      }
    }
  }

  lemma {:induction false} DropDeadSendsOne(c: Cache, dead: seq<SourceKey>, commands: seq<Command>, emitted: bool)
    requires (!emitted ==> commands == []) && (emitted ==> exists id :: commands == [DeleteImage(id)])
    ensures var s := DropDead(c, dead, commands, emitted);
            (!s.emitted ==> s.commands == []) && (s.emitted ==> exists id :: s.commands == [DeleteImage(id)])
    decreases |dead|
  {
    if dead != [] && dead[0] !in c.sources {
      DropDeadSendsOne(c, dead[1..], commands, emitted);
    } else if dead != [] {
      var id := c.sources[dead[0]];
      var removed := c.(sources := c.sources - {dead[0]});
      if c.ReferencedByOther(dead[0], id) {
        DropDeadSendsOne(removed, dead[1..], commands, emitted);
      } else if !emitted {
        assert commands + [DeleteImage(id)] == [DeleteImage(id)];
        DropDeadSendsOne(DropImage(removed, id), dead[1..], commands + [DeleteImage(id)], true);
      }
    }
  }

  lemma FrontSendsOne(c: Cache, list: seq<HostPlacement>, live: set<SourceKey>, budget: Option<nat>)
    ensures OneTransaction(list, budget, Front(c, list, live).commands)
  {
    var sources := SortedSources(DeadSources(c, live));
    DropDeadSendsOne(c, sources, [], false);
    var dead := DropDead(c, sources, [], false);
    if !dead.stopped {
      var kept := Retain(dead.cache, list, live);
      var stale := SortedKeys(StaleKeys(kept, list));
      if stale != [] && !dead.emitted {
        var delete := DeletePlacement(stale[0].0, stale[0].1);
        assert dead.commands + [delete] == [delete];
        assert Front(c, list, live) == DropStale(DropPlacement(kept, stale[0]), stale[1..], [delete], true);
      }
    }
  }

  /** One call emits at most one transaction. */
  lemma CallSendsOne(c: Cache, list: seq<HostPlacement>, live: set<SourceKey>, budget: Option<nat>, o: Outcome)
    requires o == Incremental(c, list, live, budget)
    ensures OneTransaction(list, budget, o.commands)
  {
    FrontSendsOne(c, list, live, budget);
    var front := Front(c, list, live);
    if !front.stopped {
      VisitingSendsTransactions(budget);
      ScanSendsOne(Visiting(budget), front.cache, list, budget, StartIndex(c, list), |list|, front.commands,
                   front.emitted, o);
    }
  }

  // --- The budget ---

  /** An entry carries all of its data or none of it, and no more than memory can hold. */
  predicate Carries(p: HostPlacement) {
    p.data != [] ==> |p.data| == p.signature.dataLen < 0x8000_0000_0000_0000
  }

  /** The shape of the transaction of `p`: pixels at most once and only if the image is not current, at most
      two deletions, at most one display. */
  lemma TransactionShape(c: Cache, p: HostPlacement, c': Cache, commands: seq<Command>)
      returns (pixels: seq<Command>, deletes: seq<Command>, shows: seq<Command>)
    requires PlacementUpdate(c, p) == Some((c', commands))
    ensures commands == pixels + deletes + shows
    ensures pixels == SendImage(c, p).1
    ensures deletes == [] || exists id :: deletes == [DeleteImage(id)]
    ensures shows == [] || shows == [Display(p.HostId(), p.placementId, p.clip.value)]
  {
    UpdateDecomposes(c, p);
    pixels, deletes, shows := SendImage(c, p).1, Release(Sent(c, p), p.source, p.HostId()).1, Shows(c, p);
  }

  lemma OneLength(c: Command)
    ensures |RenderAll([c])| == |Render(c)|
  {
    ChainOne(Render, c);
  }

  lemma PixelsLength(c: Cache, p: HostPlacement)
    requires p.Visible()
    ensures |RenderAll(SendImage(c, p).1)| <= if c.ImageCurrent(p) then 0 else 320 + DataBytes(|p.data|)
  {
    var pixels := SendImage(c, p).1;
    if |pixels| == 2 {
      assert pixels == [pixels[0]] + [pixels[1]];
      JoinLength([pixels[0]], [pixels[1]]);
      OneLength(pixels[0]);
      OneLength(pixels[1]);
      RenderLength(pixels[0]);
      RenderLength(pixels[1]);
    } else if |pixels| == 1 {
      OneLength(pixels[0]);
      RenderLength(pixels[0]);
    }
  }

  lemma ShortLength(commands: seq<Command>)
    requires commands == []
             || (|commands| == 1 && (commands[0].DeleteImage? || commands[0].DeletePlacement? || commands[0].Display?))
    ensures |RenderAll(commands)| <= 256
  {
    if commands != [] {
      assert commands == [commands[0]];
      OneLength(commands[0]);
      RenderLength(commands[0]);
    }
  }

  lemma TransactionLength(c: Cache, p: HostPlacement, c': Cache, commands: seq<Command>)
    requires PlacementUpdate(c, p) == Some((c', commands))
    ensures |RenderAll(commands)| <= if c.ImageCurrent(p) then 512 else 832 + DataBytes(|p.data|)
  {
    var pixels, deletes, shows := TransactionShape(c, p, c', commands);
    JoinLength(pixels, deletes);
    JoinLength(pixels + deletes, shows);
    PixelsLength(c, p);
    ShortLength(deletes);
    ShortLength(shows);
  }

  lemma FitsWithin(p: HostPlacement, budget: nat)
    requires ImageTransactionFits(p, Some(budget)) && Carries(p) && p.data != []
    ensures 832 + DataBytes(|p.data|) <= budget
  {
  }

  // --- An incomplete call renders something ---

  ghost predicate EmitsSomething(visit: Visitor) {
    forall c, p {:trigger Asked(c, p)} :: visit(c, p).Emit? ==> visit(c, p).commands != []
  }

  lemma {:induction false} ScanEmitsSomething(visit: Visitor, c: Cache, list: seq<HostPlacement>, index: nat, left: nat,
                                              commands: seq<Command>, emitted: bool, o: Outcome)
    requires EmitsSomething(visit) && (left > 0 ==> index < |list|) && (emitted ==> commands != [])
    requires o == Scan(visit, c, list, index, left, commands, emitted)
    ensures o.incomplete ==> o.commands != []
    decreases left
  {
    if left > 0 {
      var v := visit(c, list[index]);
      assert Asked(c, list[index]);
      if v.Pass? {
        ScanEmitsSomething(visit, v.cache, list, NextIndex(list, index), left - 1, commands, emitted, o);
      } else if !emitted {
        ScanEmitsSomething(visit, Resume(v.after, list, index), list, NextIndex(list, index), left - 1, v.commands,
                           true, o);
      }
    }
  }

  lemma FrontEmitsSomething(c: Cache, list: seq<HostPlacement>, live: set<SourceKey>, front: Stage)
    requires front == Front(c, list, live)
    ensures (front.stopped ==> front.emitted) && (front.emitted ==> front.commands != [])
  {
    var sources := SortedSources(DeadSources(c, live));
    DropDeadSendsOne(c, sources, [], false);
    DropDeadStops(c, sources, [], false);
    var dead := DropDead(c, sources, [], false);
    if !dead.stopped {
      var kept := Retain(dead.cache, list, live);
      DropStaleSends(kept, SortedKeys(StaleKeys(kept, list)), dead.commands, dead.emitted);
    }
  }

  lemma {:induction false} DropDeadStops(c: Cache, dead: seq<SourceKey>, commands: seq<Command>, emitted: bool)
    ensures var s := DropDead(c, dead, commands, emitted); s.stopped ==> s.emitted
    decreases |dead|
  {
    if dead != [] {
      var removed := c.(sources := c.sources - {dead[0]});
      if dead[0] !in c.sources {
        DropDeadStops(c, dead[1..], commands, emitted);
      } else if c.ReferencedByOther(dead[0], c.sources[dead[0]]) {
        DropDeadStops(removed, dead[1..], commands, emitted);
      } else if !emitted {
        DropDeadStops(DropImage(removed, c.sources[dead[0]]), dead[1..], commands + [DeleteImage(c.sources[dead[0]])],
                      true);
      }
    }
  }

  lemma {:induction false} DropStaleSends(c: Cache, stale: seq<Key>, commands: seq<Command>, emitted: bool)
    requires emitted ==> commands != []
    ensures var s := DropStale(c, stale, commands, emitted);
            (s.stopped ==> s.emitted) && (s.emitted ==> s.commands != [])
    decreases |stale|
  {
    if stale != [] && !emitted {
      DropStaleSends(DropPlacement(c, stale[0]), stale[1..], commands + [DeletePlacement(stale[0].0, stale[0].1)],
                     true);
    }
  }

  lemma IncompleteEmits(c: Cache, list: seq<HostPlacement>, live: set<SourceKey>, budget: Option<nat>, o: Outcome)
    requires o == Incremental(c, list, live, budget)
    ensures o.incomplete ==> o.commands != []
  {
    var front := Front(c, list, live);
    FrontEmitsSomething(c, list, live, front);
    if !front.stopped {
      forall c, p | Visiting(budget)(c, p).Emit? ensures Visiting(budget)(c, p).commands != [] {}
      ScanEmitsSomething(Visiting(budget), front.cache, list, StartIndex(c, list), |list|, front.commands,
                         front.emitted, o);
    }
  }

  /** A command that carries pixels carries some. */
  predicate CarriesPixels(c: Command) {
    c.Upload? || c.TransmitAndDisplay? ==> c.image.data != []
  }

  lemma RenderNotEmpty(c: Command)
    requires CarriesPixels(c)
    ensures Render(c) != ""
  {
  }

  /** What an entry without data sends is never pixels. */
  lemma TransactionStarts(c: Cache, p: HostPlacement, c': Cache, commands: seq<Command>)
    requires PlacementUpdate(c, p) == Some((c', commands)) && commands != []
    ensures CarriesPixels(commands[0])
  {
    var pixels, deletes, shows := TransactionShape(c, p, c', commands);
  }

  lemma StartsRender(commands: seq<Command>)
    requires commands != [] && CarriesPixels(commands[0])
    ensures RenderAll(commands) != ""
  {
    RenderNotEmpty(commands[0]);
  }

  /** Every call keeps to its byte budget: what it renders, with control text, framing, base64, deletions
      and cursor moves, is no longer than the budget. A call that does not complete renders something. */
  lemma BudgetHonoured(c: Cache, list: seq<HostPlacement>, live: set<SourceKey>, budget: nat, o: Outcome)
    requires budget >= 1024 && o == Incremental(c, list, live, Some(budget))
    requires forall p :: p in list ==> Carries(p)
    ensures |RenderAll(o.commands)| <= budget
    ensures o.incomplete ==> RenderAll(o.commands) != ""
  {
    CallSendsOne(c, list, live, Some(budget), o);
    IncompleteEmits(c, list, live, Some(budget), o);
    if p :| p in list && Transaction(p, Some(budget), o.commands) {
      var c1: Cache, c2: Cache :| PlacementUpdate(c1, p) == Some((c2, o.commands))
                                  && (c1.ImageCurrent(p) || ImageTransactionFits(p, Some(budget)));
      TransactionLength(c1, p, c2, o.commands);
      if o.commands != [] {
        TransactionStarts(c1, p, c2, o.commands);
        StartsRender(o.commands);
      }
      if !c1.ImageCurrent(p) {
        FitsWithin(p, budget);
      }
    } else {
      ShortLength(o.commands);
      if o.commands != [] { StartsRender(o.commands); }
    }
  }

  // --- On screen ---

  /** The placement of an entry was clipped to a pane whose image it shows. */
  ghost predicate ClippedTo(p: HostPlacement, u: Clipping.Unclipped) {
    p.clip == Clipping.Clip(u) && Clipping.OnScreen(u.area)
    && u.imageWidth == p.signature.width && u.imageHeight == p.signature.height
  }

  /** A transaction displays its own entry only, as it was clipped. */
  lemma DisplaysItself(p: HostPlacement, budget: Option<nat>, commands: seq<Command>, d: Command)
    requires Transaction(p, budget, commands) && d in commands && (d.Display? || d.TransmitAndDisplay?)
    ensures p.Visible() && p.Key() == (d.id, d.placement) && d.shown == p.clip.value
  {
    var c: Cache, c': Cache :| PlacementUpdate(c, p) == Some((c', commands));
    var pixels, deletes, shows := TransactionShape(c, p, c', commands);
    assert d in pixels || d in deletes || d in shows;
  }

  /** Whatever a call displays lies inside its pane and shows a part of its image. */
  lemma DisplaysInBounds(c: Cache, list: seq<HostPlacement>, live: set<SourceKey>, budget: Option<nat>, o: Outcome,
                         d: Command)
    requires o == Incremental(c, list, live, budget) && d in o.commands && (d.Display? || d.TransmitAndDisplay?)
    requires forall p :: p in list && p.Visible() ==> exists u :: ClippedTo(p, u)
    ensures exists p, u :: p in list && ClippedTo(p, u) && p.Key() == (d.id, d.placement)
                           && Clipping.InBounds(u.area, p.signature.width, p.signature.height, d.shown)
  {
    CallSendsOne(c, list, live, budget, o);
    var p :| p in list && Transaction(p, budget, o.commands);
    DisplaysItself(p, budget, o.commands, d);
    var u :| ClippedTo(p, u);
    Clipping.ClipInBounds(u);
  }
}
