/** The byte framer: what it keeps between reads, and what a read and an idle timeout do to it. */
module RawInputFramer {
  import opened Prelude
  import opened RawInputBytes

  const MAX_ORPHAN := 32
  const MAX_DISCARDED := 128
  const COLOR_REPLIES := 258
  const CELL_SIZE_REPLIES := 1

  /** The replies of the host terminal that are awaited, and whether input was held once for one of them. */
  datatype Replies = Replies(color: nat, cellSize: nat, appearance: bool, held: bool, tracking: bool, onFocus: bool)

  datatype Framer = Framer(
    buffer: Bytes,
    discardUntil: Option<Family>,
    discarded: nat,
    loneEscape: bool,
    replies: Replies,
    split: bool)

  function Initial(split: bool): Framer {
    Framer([], None, 0, false, Replies(0, 0, false, false, false, false), split)
  }

  function Took(f: Framer, n: nat): Framer
    requires n <= |f.buffer|
  {
    f.(buffer := f.buffer[n..])
  }

  // --- The rest of a mouse report whose escape was flushed on its own ---

  predicate Parameter(c: byte) { Digit(c) || c == SEMICOLON }

  predicate AllParameters(b: Bytes) { forall i :: 0 <= i < |b| ==> Parameter(b[i]) }

  predicate OrphanStart(b: Bytes) { |b| >= 2 && b[0] == 0x5b && b[1] == 0x3c }

  predicate IncompleteOrphan(b: Bytes) {
    && |b| <= MAX_ORPHAN
    && (b == [] || b == [0x5b] || (OrphanStart(b) && AllParameters(b[2..])))
  }

  /** The length of a whole mouse report without its escape. */
  function CompleteOrphan(b: Bytes): (n: Option<nat>)
    ensures n.Some? ==> 1 <= n.value <= |b|
  {
    var end := FindByte(b, MouseFinal);
    if end.None? || end.value + 1 > MAX_ORPHAN then None
    else
      var report := [ESC] + b[..end.value + 1];
      if Utf8(report) && ParseSgrMouse(report).Some? then Some(end.value + 1) else None
  }

  // --- Tails that are thrown away, by at most `room` bytes: how many, and whether that ends it ---

  function CsiTail(b: Bytes, room: nat): (r: (nat, bool))
    ensures r.0 <= |b| && (!r.1 ==> r.0 == |b|)
  {
    if room == 0 then (0, true)
    else if b == [] then (0, false)
    else if 0x20 <= b[0] <= 0x3f then
      var rest := CsiTail(b[1..], room - 1);
      (rest.0 + 1, rest.1)
    else (if CsiFinal(b[0]) then 1 else 0, true)
  }

  /** When the bound is exceeded, all of the buffer goes. */
  function OrphanTail(b: Bytes, room: nat): (r: (nat, bool))
    ensures r.0 <= |b| && (!r.1 ==> r.0 == |b|)
  {
    if b == [] then (0, false)
    else if room == 0 then (|b|, true)
    else if Parameter(b[0]) then
      var rest := OrphanTail(b[1..], room - 1);
      (rest.0 + 1, rest.1)
    else (if MouseFinal(b[0]) then 1 else 0, true)
  }

  function Tail(family: Family, b: Bytes, room: nat): (r: (nat, bool))
    ensures r.0 <= |b| && (!r.1 ==> r.0 == |b|)
  {
    if family == HostReplyCsi then CsiTail(b, room) else OrphanTail(b, room)
  }

  // --- One turn of the drain loop ---

  datatype Turn = Stop(next: Framer) | Again(next: Framer, chunks: seq<Bytes>)

  function Resumed(f: Framer, n: nat): Framer
    requires n <= |f.buffer|
  {
    Took(f, n).(discardUntil := None, discarded := 0)
  }

  function DiscardTurn(f: Framer): Turn
    requires f.discardUntil.Some?
  {
    var family := f.discardUntil.value;
    if family == HostReplyCsi || family == OrphanedSgrMouseTail then
      var room := SatSub(MAX_DISCARDED, f.discarded);
      var r := Tail(family, f.buffer, room);
      if r.1 then Again(Resumed(f, r.0), []) else Stop(f.(buffer := [], discarded := f.discarded + |f.buffer|))
    else
      var n := Terminator(f.buffer, family);
      if n.None? then Stop(f) else TerminatorInside(f.buffer, family); Again(Resumed(f, n.value), [])
  }

  lemma TerminatorInside(b: Bytes, family: Family)
    ensures Terminator(b, family).Some? ==> 1 <= Terminator(b, family).value <= |b|
  {
  }

  function ColorQuerySent(r: Replies): Replies { r.(color := COLOR_REPLIES, held := false) }

  function AppearanceQuerySent(r: Replies): Replies { r.(appearance := true, held := false) }

  function CellSizeQuerySent(r: Replies): Replies { r.(cellSize := CELL_SIZE_REPLIES, held := false) }

  /** What an event means for the replies that are awaited. */
  function Noted(r: Replies, e: Event): Replies {
    if e.DefaultColor? || e.PaletteColors? then r.(color := SatSub(r.color, 1))
    else if e.CellSize? then r.(cellSize := SatSub(r.cellSize, 1))
    else if r.onFocus && e.FocusGained? then AppearanceQuerySent(r)
    else if e.ColorScheme? then
      if r.tracking then ColorQuerySent(r.(appearance := false)) else r.(appearance := false)
    else r
  }

  /** A turn once no orphaned report is awaited. */
  function PlainTurn(p: Parsers, f: Framer): Turn {
    if f.discardUntil.Some? then DiscardTurn(f)
    else if f.split && Escaped(f.buffer, ESC) then Again(Took(f, 1), [[ESC]])
    else
      var r := ExtractOne(p, f.buffer);
      if r.None? then Stop(f)
      else
        var (e, n) := r.value;
        Again(Took(f, n).(replies := Noted(f.replies, e).(held := false)), [f.buffer[..n]])
  }

  function OneTurn(p: Parsers, f: Framer): Turn {
    if !f.loneEscape then PlainTurn(p, f)
    else if IncompleteOrphan(f.buffer) then Stop(f)
    else
      var n := CompleteOrphan(f.buffer);
      var g := f.(loneEscape := false);
      if n.Some? then Again(Took(g, n.value), []) else PlainTurn(p, g)
  }

  /** Each turn that goes on leaves less to do. */
  function Left(f: Framer): nat {
    2 * |f.buffer| + (if f.loneEscape then 1 else 0) + if f.discardUntil.Some? then 1 else 0
  }

  lemma DiscardShrinks(f: Framer)
    requires f.discardUntil.Some? && DiscardTurn(f).Again?
    ensures var g := DiscardTurn(f).next;
            |g.buffer| <= |f.buffer| && g.discardUntil == None && g.loneEscape == f.loneEscape
  {
    TerminatorInside(f.buffer, f.discardUntil.value);
  }

  lemma PlainShrinks(p: Parsers, f: Framer, turn: Turn)
    requires turn == PlainTurn(p, f) && turn.Again?
    ensures turn.next.loneEscape == f.loneEscape && turn.next.discardUntil == None
    ensures if f.discardUntil.Some? then |turn.next.buffer| <= |f.buffer| else |turn.next.buffer| < |f.buffer|
  {
    if f.discardUntil.Some? {
      DiscardShrinks(f);
    }
  }

  lemma TurnShrinks(p: Parsers, f: Framer, turn: Turn)
    requires turn == OneTurn(p, f) && turn.Again?
    ensures Left(turn.next) < Left(f)
  {
    if !f.loneEscape {
      PlainShrinks(p, f, turn);
    } else if CompleteOrphan(f.buffer).None? {
      PlainShrinks(p, f.(loneEscape := false), turn);
    }
  }

  function Drain(p: Parsers, f: Framer): (Framer, seq<Bytes>)
    decreases Left(f)
  {
    var turn := OneTurn(p, f);
    if turn.Stop? then (turn.next, [])
    else
      TurnShrinks(p, f, turn);
      var rest := Drain(p, turn.next);
      (rest.0, turn.chunks + rest.1)
  }

  function Fed(f: Framer, data: Bytes): Framer { f.(buffer := f.buffer + data) }

  function Push(p: Parsers, f: Framer, data: Bytes): (Framer, seq<Bytes>) {
    Drain(p, Fed(f, data))
  }

  // --- The idle timeout ---

  predicate OpenPaste(b: Bytes) { PASTE_START <= b && Find(b, PASTE_END).None? }

  predicate IncompleteSgr(b: Bytes) { Sgr(b) && AllParameters(b[3..]) }

  predicate PlausibleOsc(c: byte) {
    Digit(c) || c in {0x3b, 0x3a, 0x2f, 0x23, 0x3f, 0x2e, 0x5f, 0x2d, 0x2b, 0x72, 0x67, 0x62, 0x52, 0x47, 0x42, ESC}
  }

  predicate EndsWithEscape(b: Bytes) { b != [] && b[|b| - 1] == ESC }

  predicate PlausibleTail(family: Family, b: Bytes) {
    match family
    case Osc => forall i :: 0 <= i < |b| ==> PlausibleOsc(b[i])
    case StTerminated => EndsWithEscape(b)
    case HostReplyCsi => false
    case OrphanedSgrMouseTail => forall i :: 0 <= i < |b| ==> Parameter(b[i]) || MouseFinal(b[i])
  }

  function FlushDiscarding(f: Framer): Framer
    requires f.discardUntil.Some?
  {
    var family, total := f.discardUntil.value, f.discarded + |f.buffer|;
    if family == HostReplyCsi then f
    else if family == OrphanedSgrMouseTail || !PlausibleTail(family, f.buffer) || total > MAX_DISCARDED then
      f.(buffer := [], discardUntil := None, discarded := 0)
    else f.(buffer := if EndsWithEscape(f.buffer) then [ESC] else [], discarded := total)
  }

  function Dropped(f: Framer, until: Option<Family>, discarded: nat): Framer {
    f.(buffer := [], discardUntil := until, discarded := discarded)
  }

  /** Drop the buffer as a mouse report cut short, and what follows of it unless it is too long already. */
  function DropOrphan(f: Framer): Framer {
    Dropped(f, if |f.buffer| <= MAX_DISCARDED then Some(OrphanedSgrMouseTail) else None, |f.buffer|)
  }

  predicate AwaitingReply(r: Replies) { r.color > 0 || r.cellSize > 0 || r.appearance }

  /** No reply is awaited any more. */
  function GivenUp(r: Replies): Replies { r.(color := 0, cellSize := 0, appearance := false, held := false) }

  /** Input is held until the next timeout. */
  function Holding(f: Framer): Framer { f.(replies := f.replies.(held := true)) }

  /** What a timeout does to a buffer that neither reports nor pastes nor colours wait for. */
  function FlushText(p: Parsers, f: Framer): (Framer, seq<Bytes>)
    requires f.buffer != []
  {
    if IncompleteControl(f.buffer) then (Dropped(f, ControlFamily(f.buffer), 0), [])
    else if f.buffer == [ESC] then
      if AwaitingReply(f.replies) && !f.replies.held then (Holding(f), [])
      else (f.(replies := GivenUp(f.replies), loneEscape := true, buffer := []), [[ESC]])
    else if Utf8(f.buffer) && p.key(f.buffer) then (f.(buffer := []), [f.buffer])
    else if PartialChar(f.buffer) || (f.buffer[0] == ESC && PartialChar(f.buffer[1..])) then (f, [])
    else (f.(loneEscape := false, buffer := []), [])
  }

  function FlushReplies(p: Parsers, f: Framer): (Framer, seq<Bytes>)
    requires f.buffer != []
  {
    var r := f.replies;
    if r.cellSize > 0 && IncompleteCellSize(f.buffer) then
      (Dropped(f, Some(HostReplyCsi), 0).(replies := r.(cellSize := 0, held := false)), [])
    else if IncompleteColorScheme(f.buffer) then
      if r.appearance && !r.held then (Holding(f), [])
      else (Dropped(f, Some(HostReplyCsi), 0).(replies := r.(appearance := false, held := false)), [])
    else FlushText(p, f)
  }

  /** A bare introducer is held for one timeout while a reply that begins so is awaited. */
  function FlushIntroduced(p: Parsers, f: Framer): (Framer, seq<Bytes>)
    requires f.buffer != []
  {
    var r := f.replies;
    if (r.cellSize > 0 || r.appearance) && f.buffer == [ESC, 0x5b] then
      if !r.held then (Holding(f), [])
      else FlushReplies(p, f.(replies := r.(cellSize := 0, appearance := false, held := false)))
    else FlushReplies(p, f)
  }

  function FlushIdle(p: Parsers, f: Framer): (Framer, seq<Bytes>) {
    if f.discardUntil.Some? then (FlushDiscarding(f), [])
    else if f.buffer == [] then (f, [])
    else if f.loneEscape && OrphanStart(f.buffer) then
      var n, g := CompleteOrphan(f.buffer), f.(loneEscape := false);
      (if n.Some? then Took(g, n.value) else DropOrphan(g), [])
    else if IncompleteSgr(f.buffer) then (DropOrphan(f), [])
    else if OpenPaste(f.buffer) || IncompleteDefaultColor(f.buffer) then (f, [])
    else FlushIntroduced(p, f)
  }

  function Flush(p: Parsers, f: Framer): (Framer, seq<Bytes>) {
    var drained := Drain(p, f);
    var flushed := FlushIdle(p, drained.0);
    (flushed.0, drained.1 + flushed.1)
  }

  // --- The class ---

  lemma Associate(a: seq<Bytes>, b: seq<Bytes>, c: seq<Bytes>)
    ensures a + (b + c) == (a + b) + c && a + [] == a
  {
  }

  lemma DrainContinues(p: Parsers, f: Framer, done: seq<Bytes>, turn: Turn)
    requires turn == OneTurn(p, f)
    ensures (Drain(p, f).0, done + Drain(p, f).1) ==
              if turn.Stop? then (turn.next, done)
              else (Drain(p, turn.next).0, (done + turn.chunks) + Drain(p, turn.next).1)
  {
    Associate(done, [], []);
    if turn.Again? {
      TurnShrinks(p, f, turn);
      Associate(done, turn.chunks, Drain(p, turn.next).1);
    }
  }

  class RawInputByteFramer {
    var buffer: Bytes
    var discardUntil: Option<Family>
    var discarded: nat
    var loneEscape: bool
    var colorReplies: nat
    var cellSizeReplies: nat
    var appearance: bool
    var held: bool
    var tracking: bool
    var onFocus: bool
    var split: bool

    function State(): Framer
      reads this
    {
      Framer(buffer, discardUntil, discarded, loneEscape, Awaited(), split)
    }

    function Awaited(): Replies
      reads this
    {
      Replies(colorReplies, cellSizeReplies, appearance, held, tracking, onFocus)
    }

    constructor WithHostInputPolicy(preserveDoubledEscape: bool)
      ensures State() == Initial(!preserveDoubledEscape)
    {
      buffer, discardUntil, discarded, loneEscape := [], None, 0, false;
      colorReplies, cellSizeReplies, appearance, held := 0, 0, false, false;
      tracking, onFocus, split := false, false, !preserveDoubledEscape;
    }

    method HostColorQuerySent()
      modifies this
      ensures State() == old(State()).(replies := ColorQuerySent(old(Awaited())))
    {
      colorReplies, held := COLOR_REPLIES, false;
    }

    method HostAppearanceQuerySent()
      modifies this
      ensures State() == old(State()).(replies := AppearanceQuerySent(old(Awaited())))
    {
      appearance, held := true, false;
    }

    method HostCellSizeQuerySent()
      modifies this
      ensures State() == old(State()).(replies := CellSizeQuerySent(old(Awaited())))
    {
      cellSizeReplies, held := CELL_SIZE_REPLIES, false;
    }

    method Enable(track: bool, focus: bool)
      modifies `tracking, `onFocus
      ensures State() == old(State()).(replies := old(Awaited()).(tracking := old(tracking) || track,
                                                                  onFocus := old(onFocus) || focus))
    {
      if track { tracking := true; }
      if focus { onFocus := true; }
    }

    /** Throw away the rest of a control sequence; true when its end is reached or the bound is. */
    method DiscardHostReplyCsiTail() returns (ended: bool)
      modifies `buffer, `discarded
      ensures var r := CsiTail(old(buffer), SatSub(MAX_DISCARDED, old(discarded)));
              && ended == r.1 && buffer == old(buffer)[r.0..]
              && (!ended ==> discarded == old(discarded) + |old(buffer)|)
    {
      var room := SatSub(MAX_DISCARDED, discarded);
      var inspected := Min(|buffer|, room);
      var index := 0;
      assert buffer[0..] == buffer;
      while index < inspected
        invariant 0 <= index <= inspected && buffer == old(buffer)
        invariant CsiTail(buffer, room) == (CsiTail(buffer[index..], room - index).0 + index,
                                            CsiTail(buffer[index..], room - index).1)
      {
        assert buffer[index..][1..] == buffer[index + 1..];
        if 0x20 <= buffer[index] <= 0x3f {
        } else if CsiFinal(buffer[index]) {
          buffer := buffer[index + 1..];
          return true;
        } else {
          buffer := buffer[index..];
          return true;
        }
        index := index + 1;
      }
      buffer := buffer[inspected..];
      discarded := discarded + inspected;
      ended := discarded >= MAX_DISCARDED;
    }

    /** Throw away the rest of a mouse report. */
    method DiscardOrphanedSgrMouseTail() returns (ended: bool)
      modifies `buffer, `discarded
      ensures var r := OrphanTail(old(buffer), SatSub(MAX_DISCARDED, old(discarded)));
              && ended == r.1 && buffer == old(buffer)[r.0..]
              && (!ended ==> discarded == old(discarded) + |old(buffer)|)
    {
      var room := SatSub(MAX_DISCARDED, discarded);
      var inspected := Min(|buffer|, room);
      var index := 0;
      assert buffer[0..] == buffer;
      while index < inspected
        invariant 0 <= index <= inspected && buffer == old(buffer)
        invariant OrphanTail(buffer, room) == (OrphanTail(buffer[index..], room - index).0 + index,
                                               OrphanTail(buffer[index..], room - index).1)
      {
        assert buffer[index..][1..] == buffer[index + 1..];
        if Parameter(buffer[index]) {
        } else if MouseFinal(buffer[index]) {
          buffer := buffer[index + 1..];
          return true;
        } else {
          buffer := buffer[index..];
          return true;
        }
        index := index + 1;
      }
      discarded := discarded + inspected;
      ended := |buffer| > inspected;
      buffer := [];
    }

    method DiscardCompleteOrphan() returns (dropped: bool)
      modifies `buffer
      ensures dropped == CompleteOrphan(old(buffer)).Some?
      ensures buffer == if dropped then old(buffer)[CompleteOrphan(old(buffer)).value..] else old(buffer)
    {
      var end := FindByte(buffer, MouseFinal);
      if end.None? || end.value + 1 > MAX_ORPHAN {
        return false;
      }
      var report := [ESC] + buffer[..end.value + 1];
      if !Utf8(report) || ParseSgrMouse(report).None? {
        return false;
      }
      buffer := buffer[end.value + 1..];
      dropped := true;
    }

    method Note(e: Event)
      modifies `colorReplies, `cellSizeReplies, `appearance, `held
      ensures Awaited() == Noted(old(Awaited()), e)
    {
      if e.DefaultColor? || e.PaletteColors? {
        colorReplies := SatSub(colorReplies, 1);
      } else if e.CellSize? {
        cellSizeReplies := SatSub(cellSizeReplies, 1);
      } else if onFocus && e.FocusGained? {
        appearance, held := true, false;
      } else if e.ColorScheme? {
        appearance := false;
        if tracking {
          colorReplies, held := COLOR_REPLIES, false;
        }
      }
    }

    /** One turn of the loop while the rest of something is thrown away. */
    method DiscardOnce() returns (go: bool)
      requires discardUntil.Some?
      modifies this
      ensures var turn := DiscardTurn(old(State()));
              go == turn.Again? && State() == turn.next && (go ==> turn.chunks == [])
    {
      var family := discardUntil.value;
      if family == HostReplyCsi {
        go := DiscardHostReplyCsiTail();
      } else if family == OrphanedSgrMouseTail {
        go := DiscardOrphanedSgrMouseTail();
      } else {
        var n := Terminator(buffer, family);
        TerminatorInside(buffer, family);
        go := n.Some?;
        if go { buffer := buffer[n.value..]; }
      }
      if go {
        discardUntil, discarded := None, 0;
      }
    }

    method DrainAvailableChunks(p: Parsers) returns (chunks: seq<Bytes>)
      modifies this
      ensures (State(), chunks) == Drain(p, old(State()))
    {
      chunks := [];
      assert [] + Drain(p, State()).1 == Drain(p, State()).1;
      while true
        invariant Drain(p, old(State())) == (Drain(p, State()).0, chunks + Drain(p, State()).1)
        decreases Left(State())
      {
        ghost var before, f := chunks, State();
        DrainContinues(p, f, chunks, OneTurn(p, f));
        var go, taken := DrainOnce(p);
        if go { TurnShrinks(p, f, OneTurn(p, f)); }
        chunks := chunks + taken;
        if !go { break; }
      }
    }

    /** One turn of the loop. */
    method DrainOnce(p: Parsers) returns (go: bool, chunks: seq<Bytes>)
      modifies this
      ensures var turn := OneTurn(p, old(State()));
              go == turn.Again? && State() == turn.next && chunks == if go then turn.chunks else []
    {
      chunks := [];
      if loneEscape {
        if IncompleteOrphan(buffer) {
          return false, chunks;
        }
        var dropped := DiscardCompleteOrphan();
        loneEscape := false;
        if dropped {
          return true, chunks;
        }
      }
      if discardUntil.Some? {
        go := DiscardOnce();
        return;
      }
      if split && Escaped(buffer, ESC) {
        chunks := [[ESC]];
        buffer := buffer[1..];
        return true, chunks;
      }
      var r := ExtractOne(p, buffer);
      if r.None? {
        return false, chunks;
      }
      Note(r.value.0);
      held := false;
      chunks := [buffer[..r.value.1]];
      buffer := buffer[r.value.1..];
      go := true;
    }

    method PushBytes(p: Parsers, data: Bytes) returns (chunks: seq<Bytes>)
      modifies this
      ensures (State(), chunks) == Push(p, old(State()), data)
    {
      buffer := buffer + data;
      chunks := DrainAvailableChunks(p);
    }

    method Drop(until: Option<Family>, count: nat)
      modifies `buffer, `discardUntil, `discarded
      ensures State() == Dropped(old(State()), until, count)
    {
      discardUntil, discarded := until, count;
      buffer := [];
    }

    method FlushTimeout(p: Parsers) returns (chunks: seq<Bytes>)
      modifies this
      ensures (State(), chunks) == Flush(p, old(State()))
    {
      chunks := DrainAvailableChunks(p);
      var last := FlushWhatIsLeft(p);
      chunks := chunks + last;
    }

    method FlushWhatIsLeft(p: Parsers) returns (chunks: seq<Bytes>)
      modifies this
      ensures (State(), chunks) == FlushIdle(p, old(State()))
    {
      chunks := [];
      if discardUntil.Some? {
        FlushTail();
        return;
      }
      if buffer == [] {
        return;
      }
      if loneEscape && OrphanStart(buffer) {
        var dropped := DiscardCompleteOrphan();
        if !dropped { DropAsOrphan(); }
        loneEscape := false;
        return;
      }
      if IncompleteSgr(buffer) {
        DropAsOrphan();
        return;
      }
      if OpenPaste(buffer) || IncompleteDefaultColor(buffer) {
        return;
      }
      chunks := FlushIntroducer(p);
    }

    method FlushIntroducer(p: Parsers) returns (chunks: seq<Bytes>)
      requires buffer != []
      modifies this
      ensures (State(), chunks) == FlushIntroduced(p, old(State()))
    {
      if (cellSizeReplies > 0 || appearance) && buffer == [ESC, 0x5b] {
        if !held {
          held := true;
          return [];
        }
        cellSizeReplies, appearance, held := 0, false, false;
      }
      chunks := FlushRest(p);
    }

    method DropAsOrphan()
      modifies `buffer, `discardUntil, `discarded
      ensures State() == DropOrphan(old(State()))
    {
      discarded := |buffer|;
      discardUntil := if discarded <= MAX_DISCARDED then Some(OrphanedSgrMouseTail) else None;
      buffer := [];
    }

    method FlushTail()
      requires discardUntil.Some?
      modifies this
      ensures State() == FlushDiscarding(old(State()))
    {
      var family := discardUntil.value;
      if family == HostReplyCsi {
        return;
      }
      if family == OrphanedSgrMouseTail {
        buffer, discardUntil, discarded := [], None, 0;
        return;
      }
      var keepSplit, keep := EndsWithEscape(buffer), PlausibleTail(family, buffer);
      discarded := discarded + |buffer|;
      buffer := [];
      if keep && discarded <= MAX_DISCARDED {
        if keepSplit { buffer := [ESC]; }
      } else {
        discardUntil, discarded := None, 0;
      }
    }

    method FlushRest(p: Parsers) returns (chunks: seq<Bytes>)
      requires buffer != []
      modifies this
      ensures (State(), chunks) == FlushReplies(p, old(State()))
    {
      chunks := [];
      if cellSizeReplies > 0 && IncompleteCellSize(buffer) {
        cellSizeReplies, held := 0, false;
        Drop(Some(HostReplyCsi), 0);
        return;
      }
      if IncompleteColorScheme(buffer) {
        if appearance && !held {
          held := true;
          return;
        }
        appearance, held := false, false;
        Drop(Some(HostReplyCsi), 0);
        return;
      }
      chunks := FlushTheText(p);
    }

    method FlushTheText(p: Parsers) returns (chunks: seq<Bytes>)
      requires buffer != []
      modifies this
      ensures (State(), chunks) == FlushText(p, old(State()))
    {
      chunks := [];
      if IncompleteControl(buffer) {
        Drop(ControlFamily(buffer), 0);
      } else if buffer == [ESC] {
        if AwaitingReply(Awaited()) && !held {
          held := true;
          return;
        }
        colorReplies, cellSizeReplies, appearance, held := 0, 0, false, false;
        loneEscape := true;
        chunks := [buffer];
        buffer := [];
      } else if Utf8(buffer) && p.key(buffer) {
        chunks := [buffer];
        buffer := [];
      } else if !PartialChar(buffer) && !(buffer[0] == ESC && PartialChar(buffer[1..])) {
        loneEscape := false;
        buffer := [];
      }
    }
  }
}
