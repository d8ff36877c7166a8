/** How long input is held, and which of the framer's chunks are events. */
module RawInputTimeouts {
  import opened Prelude
  import opened RawInputBytes
  import opened RawInputStability
  import opened RawInputFramer
  import opened RawInputSplits
  import opened RawInputRuns

  // --- Bounded holding ---

  /** What may be held through any number of timeouts. */
  predicate Waiting(b: Bytes) {
    || b == []
    || OpenPaste(b)
    || IncompleteDefaultColor(b)
    || PartialChar(b)
    || (b[0] == ESC && PartialChar(b[1..]))
  }

  /** The last escape of a control string that is being thrown away, which may be half of its terminator. */
  predicate KeptEscape(f: Framer) {
    (f.discardUntil == Some(Osc) || f.discardUntil == Some(StTerminated)) && f.buffer == [ESC]
  }

  /** What is held for one timeout, for a reply that is awaited. */
  predicate HeldOnce(f: Framer) {
    f.discardUntil == None && f.replies.held
        && (f.buffer == [ESC] || f.buffer == [ESC, 0x5b] || IncompleteColorScheme(f.buffer))
  }

  lemma OneFlush(p: Parsers, f: Framer)
    requires Good(f)
    ensures var g := Flush(p, f).0;
            || g.buffer == []
            || (Waiting(g.buffer) && Settled(p, g) && FlushIdle(p, g).0 == g)
            || (HeldOnce(g) && Settled(p, g) && !g.loneEscape)
            || KeptEscape(g)
  {
    var g := Drain(p, f).0;
    DrainSettles(p, f);
    DrainSubseq(p, f);
    if g.discardUntil.Some? {
      DiscardWaits(p, g);
    } else if g.loneEscape {
      LoneIdles(p, g);
    } else if g.buffer != [] {
      CalmIdles(p, g);
      var h := FlushIdle(p, g).0;
      if h == Holding(g) { HoldingSettled(p, g); }
    }
  }

  lemma DiscardWaits(p: Parsers, f: Framer)
    requires f.discardUntil.Some? && Settled(p, f) && Good(f)
    ensures FlushIdle(p, f).0.buffer == [] || KeptEscape(FlushIdle(p, f).0)
  {
  }

  lemma LoneIdles(p: Parsers, f: Framer)
    requires f.loneEscape && f.discardUntil == None && Settled(p, f)
    ensures FlushIdle(p, f).0.buffer == []
  {
    assert IncompleteOrphan(f.buffer);
    if OrphanStart(f.buffer) {
      IncompleteHasNoEnd(f.buffer);
    } else if f.buffer == [0x5b] {
      BracketIdles(p, f);
    }
  }

  lemma IncompleteHasNoEnd(b: Bytes)
    requires IncompleteOrphan(b) && OrphanStart(b)
    ensures CompleteOrphan(b) == None
  {
    forall i | 0 <= i < |b| ensures !MouseFinal(b[i]) {
      if i >= 2 { assert Parameter(b[2..][i - 2]); }
    }
  }

  /** What a timeout in a calm state leaves: held input stays only in a waiting form, or for the one timeout. */
  predicate Idles(f: Framer, h: Framer) {
    || h.buffer == []
    || (h == f && Waiting(f.buffer))
    || (h == Holding(f) && !f.replies.held && HeldOnce(h))
  }

  lemma CalmIdles(p: Parsers, f: Framer)
    requires f.discardUntil == None && !f.loneEscape && f.buffer != []
    ensures Idles(f, FlushIdle(p, f).0)
  {
    IntroducedWaits(p, f);
  }

  lemma IntroducedWaits(p: Parsers, f: Framer)
    requires f.discardUntil == None && f.buffer != []
    ensures Idles(f, FlushIntroduced(p, f).0)
  {
    var g := f.(replies := f.replies.(cellSize := 0, appearance := false, held := false));
    TextWaits(p, f);
    if f.buffer == [ESC, 0x5b] { assert FlushReplies(p, g).0.buffer == []; }
  }

  lemma TextWaits(p: Parsers, f: Framer)
    requires f.discardUntil == None && f.buffer != []
    ensures Idles(f, FlushText(p, f).0)
  {
  }

  lemma HoldingSettled(p: Parsers, f: Framer)
    requires Settled(p, f) && f.discardUntil == None && !f.loneEscape
    ensures Settled(p, Holding(f))
  {
  }

  lemma HeldOnceIdles(p: Parsers, f: Framer)
    requires HeldOnce(f) && !f.loneEscape
    ensures FlushIdle(p, f).0.buffer == []
  {
    if f.buffer != [ESC] {
      assert f.buffer[0] == ESC && f.buffer[1] == 0x5b;
    }
  }

  /** Nothing is held for more than two timeouts in a row but an open paste, an open reply to a colour query, the
      beginning of a character, an escape with one, and the last escape of a control string that is thrown away. */
  lemma TwoFlushes(p: Parsers, f: Framer)
    requires Good(f)
    ensures var h := Flush(p, Flush(p, f).0).0; Waiting(h.buffer) || KeptEscape(h)
  {
    var g := Flush(p, f).0;
    OneFlush(p, f);
    FlushGood(p, f);
    if g.buffer == [] {
      EmptyStays(p, g);
    } else if KeptEscape(g) {
      KeptEscapeStays(p, g);
    } else {
      SettledDrain(p, g);
      if HeldOnce(g) && !g.loneEscape { HeldOnceIdles(p, g); }
    }
  }

  lemma EmptyStays(p: Parsers, f: Framer)
    requires Good(f) && f.buffer == []
    ensures Flush(p, f).0.buffer == []
  {
    DrainSubseq(p, f);
    IdleDrops(p, Drain(p, f).0);
  }

  lemma KeptEscapeStays(p: Parsers, f: Framer)
    requires KeptEscape(f) && Good(f)
    ensures Flush(p, f).0.buffer == [] || KeptEscape(Flush(p, f).0)
  {
    assert Find([ESC], ST) == None;
    assert FindByte([ESC], Bell) == None by { assert [ESC][1..] == []; }
    assert DiscardTurn(f) == Stop(f);
    SettledDrain(p, f);
  }

  /** A lone escape is emitted by a timeout, or by the next when a reply of the host is awaited and nothing was
      held for it yet. */
  lemma LoneEscapeEmitted(p: Parsers, f: Framer)
    requires f.buffer == [ESC] && f.discardUntil == None
    ensures var first := Flush(p, f);
            if AwaitingReply(f.replies) && !f.replies.held then
              first.1 == [] && Flush(p, first.0).1 == [[ESC]] && Flush(p, first.0).0.buffer == []
            else first.1 == [[ESC]] && first.0.buffer == []
  {
    var calm := f.(loneEscape := false);
    LoneEscapeIncomplete(p, [ESC]);
    EscapeIdles(p, calm);
    assert OneTurn(p, f) == Stop(calm) by { EscapeIsNoOrphan(); }
    assert [] + [[ESC]] == [[ESC]] && [] + [] == [] + Drain(p, f).1;
    var held := Holding(calm);
    EscapeIdles(p, held);
    SettledDrain(p, held);
  }

  lemma EscapeIsNoOrphan()
    ensures !IncompleteOrphan([ESC]) && CompleteOrphan([ESC]) == None
  {
    assert FindByte([ESC], MouseFinal) == None by { assert [ESC][1..] == []; }
  }

  lemma EscapeIdles(p: Parsers, f: Framer)
    requires f.buffer == [ESC] && f.discardUntil == None && !f.loneEscape
    ensures Settled(p, f)
    ensures if AwaitingReply(f.replies) && !f.replies.held then FlushIdle(p, f) == (Holding(f), [])
            else FlushIdle(p, f).0.buffer == [] && FlushIdle(p, f).1 == [[ESC]]
  {
    LoneEscapeIncomplete(p, [ESC]);
  }

  // --- Chunks and events ---

  /** The event that a chunk is turned into: an escape alone is the escape key. */
  function EventOf(p: Parsers, chunk: Bytes): Option<Event> {
    if chunk == [ESC] then Some(Key)
    else
      var r := ExtractOne(p, chunk);
      if r.Some? then Some(r.value.0) else None
  }

  /** A chunk that is lost: two or more escapes in front of a mouse report. */
  predicate Lost(chunk: Bytes) { |chunk| >= 2 && AllEscapes(chunk) }

  lemma TurnChunks(p: Parsers, f: Framer, turn: Turn)
    requires turn == OneTurn(p, f) && turn.Again?
    ensures turn.chunks == [] || (|turn.chunks| == 1 && (EventOf(p, turn.chunks[0]).None? <==> Lost(turn.chunks[0])))
    ensures f.split ==> forall c :: c in turn.chunks ==> !Lost(c)
    ensures turn.next.split == f.split
  {
    if turn.chunks != [] && !(f.split && Escaped(f.buffer, ESC)) {
      var n := ExtractOne(p, f.buffer).value.1;
      ChunkReparses(p, f.buffer);
      var c := f.buffer[..n];
      assert turn.chunks == [c];
      if n == 1 && c[0] == ESC { assert c == [ESC]; }
      if Lost(c) { assert c[0] == ESC && c[1] == ESC; }
    }
  }

  /** Every chunk of a drain is turned into an event, but for escapes before a mouse report where doubled escapes
      are preserved: these are lost. */
  lemma {:induction false} DrainedChunks(p: Parsers, f: Framer)
    ensures forall c :: c in Drain(p, f).1 ==> (EventOf(p, c).None? <==> Lost(c)) && (f.split ==> !Lost(c))
    decreases Left(f)
  {
    var turn := OneTurn(p, f);
    if turn.Again? {
      TurnChunks(p, f, turn);
      TurnShrinks(p, f, turn);
      DrainedChunks(p, turn.next);
    }
  }

  /** A whole mouse report that can be read, in either encoding, at the front of `b`. */
  predicate ReadableMouse(b: Bytes) {
    || (|b| >= 6 && X10(b) && ParseDefaultMouse(b[..6]).Some?)
    || (Sgr(b) &&
        var n := CsiLen(b, MouseFinal);
        n.Some? && Utf8(b[..n.value]) && ParseSgrMouse(b[..n.value]).Some?)
  }

  /** `n` escapes, two at least, in front of a mouse report. */
  predicate EscapesBeforeMouse(b: Bytes, n: nat) {
    2 <= n <= |b| && AllEscapes(b[..n]) && ReadableMouse(b[n..])
  }

  lemma TwoReports(b: Bytes)
    requires Escaped(b, ESC)
    ensures !UnreadableMouse(b) && EscapeBeforeMouse(b) <==> ReadableMouse(b[1..])
  {
    if |b| >= 7 { assert b[1..7] == b[1..][..6]; }
    var n := CsiLen(b[1..], MouseFinal);
    if n.Some? { assert b[1..1 + n.value] == b[1..][..n.value]; }
  }

  lemma {:induction false} EscapesLen(b: Bytes, n: nat)
    requires 1 <= n <= |b| && AllEscapes(b[..n])
    ensures EscapeLen(b) == Some(n) <==> ReadableMouse(b[n..])
    decreases n
  {
    assert b[0] == b[..n][0] == ESC;
    if n == 1 {
      if Escaped(b, ESC) { TwoReports(b); }
    } else {
      assert b[1] == b[..n][1] == ESC;
      assert b[1..][..n - 1] == b[..n][1..] && b[1..][n - 1..] == b[n..];
      assert n > 2 ==> b[2] == b[..n][2];
      EscapesLen(b[1..], n - 1);
    }
  }

  /** A chunk is lost if and only if, where doubled escapes are preserved, two escapes or more stand in front of a mouse
      report: then exactly these are. */
  lemma LostExactly(p: Parsers, f: Framer)
    requires f.discardUntil == None && !f.split
    ensures var turn := OneTurn(p, f);
            (turn.Again? && exists c :: c in turn.chunks && Lost(c))
                <==> exists n: nat :: EscapesBeforeMouse(f.buffer, n)
  {
    var b, turn := f.buffer, OneTurn(p, f);
    if turn.Again? && exists c :: c in turn.chunks && Lost(c) {
      var c :| c in turn.chunks && Lost(c);
      var n := |c|;
      assert c == b[..n] && b[0] == c[0] == ESC && b[1] == c[1] == ESC;
      EscapesLen(b, n);
      assert EscapesBeforeMouse(b, n);
    }
    if n: nat :| EscapesBeforeMouse(b, n) {
      EscapesLen(b, n);
      EscapesTurn(p, f, n);
      assert b[..n] in turn.chunks;
    }
  }

  lemma EscapesTurn(p: Parsers, f: Framer, n: nat)
    requires f.discardUntil == None && !f.split && EscapesBeforeMouse(f.buffer, n) && EscapeLen(f.buffer) == Some(n)
    ensures OneTurn(p, f).Again? && OneTurn(p, f).chunks == [f.buffer[..n]] && Lost(f.buffer[..n])
  {
    var b := f.buffer;
    assert b[0] == b[..n][0] == ESC && b[1] == b[..n][1] == ESC;
    assert !(PASTE_START <= b);
    EscapesAreText(b[..n]);
    assert CompleteOrphan(b) == None;
  }

  lemma {:induction false} EscapesAreText(b: Bytes)
    requires AllEscapes(b)
    ensures Utf8(b)
  {
    if b != [] { EscapesAreText(b[1..]); }
  }

  const ESCAPED_CLICK: Bytes := [ESC, ESC, ESC, 0x5b, 0x4d, 0x20, 0x21, 0x21]

  lemma ClickIsReadable()
    ensures EscapesBeforeMouse(ESCAPED_CLICK, 2) && EscapeLen(ESCAPED_CLICK) == Some(2)
  {
    assert ESCAPED_CLICK[2..][..6] == ESCAPED_CLICK[2..];
    assert ReadableMouse(ESCAPED_CLICK[2..]);
    EscapesLen(ESCAPED_CLICK, 2);
  }

  /** Three escapes, of which the last begins a report of the left button: the first two are emitted as one chunk, of
      which no event comes. */
  lemma LostExample(p: Parsers)
    ensures [ESC, ESC] in Push(p, Initial(false), ESCAPED_CLICK).1 && EventOf(p, [ESC, ESC]) == None
  {
    var f := Fed(Initial(false), ESCAPED_CLICK);
    assert f.buffer == ESCAPED_CLICK && ESCAPED_CLICK[..2] == [ESC, ESC];
    ClickIsReadable();
    EscapesTurn(p, f, 2);
    assert OneTurn(p, f).chunks[0] in Drain(p, f).1;
    LoneEscapesLost(p);
  }

  lemma LoneEscapesLost(p: Parsers)
    ensures EventOf(p, [ESC, ESC]) == None
  {
    assert [ESC, ESC][1..] == [ESC];
    assert EscapeLen([ESC, ESC]) == None;
  }

  /** What a timeout emits after the drain is turned into an event exactly when it is the lone escape, or a bracket
      that could have been the rest of a mouse report. Any other key prefix that timed out is emitted and lost. */
  lemma FlushedChunk(p: Parsers, f: Framer, c: Bytes)
    requires Settled(p, f) && Good(f) && c in FlushIdle(p, f).1
    ensures EventOf(p, c).Some? <==> c == [ESC] || f.loneEscape
  {
    IdleDrops(p, f);
    assert c == f.buffer;
    if f.loneEscape {
      if OrphanStart(f.buffer) { IncompleteHasNoEnd(f.buffer); }
      assert f.buffer == [0x5b];
      BracketIdles(p, f);
      assert [0x5b][..1] == [0x5b];
    }
  }

  /** Alt and a bracket: the framer hands it on at a timeout, and no event comes of it. */
  lemma AltBracketLost(p: Parsers)
    requires p.key([ESC, 0x5b])
    ensures var read := Push(p, Initial(true), [ESC, 0x5b]);
            read.1 == [] && Flush(p, read.0).1 == [[ESC, 0x5b]] && EventOf(p, [ESC, 0x5b]) == None
  {
    var f := Initial(true).(buffer := [ESC, 0x5b]);
    assert [] + [ESC, 0x5b] == [ESC, 0x5b];
    assert ExtractOne(p, f.buffer) == None;
    SettledDrain(p, f);
    assert Utf8([ESC, 0x5b]) by { assert [ESC, 0x5b][1..] == [0x5b] && [0x5b][1..] == []; }
  }

  // --- Cuts that show ---

  lemma EscapeFlushed(p: Parsers, split: bool)
    ensures var f := Flush(p, Push(p, Initial(split), [ESC]).0).0;
            f.loneEscape && f.buffer == [] && f.discardUntil == None
  {
    var read := Initial(split).(buffer := [ESC]);
    assert Fed(Initial(split), [ESC]) == read;
    EscapeIdles(p, read);
    SettledDrain(p, read);
  }

  /** After an escape that was flushed on its own, a mouse report with a plus sign is dropped when it is read in one
      piece, and emitted when it is read in two. */
  lemma LateOrphanExample(p: Parsers, split: bool)
    ensures var f := Flush(p, Push(p, Initial(split), [ESC]).0).0;
            PushBoth(p, f, PLUS_START, PLUS_REST) != Push(p, f, PLUS_START + PLUS_REST)
  {
    EscapeFlushed(p, split);
    PlusIsLate();
    var f := Flush(p, Push(p, Initial(split), [ESC]).0).0;
    assert Fed(f, PLUS_START).buffer == PLUS_START;
    ChunkSplit(p, f, PLUS_START, PLUS_REST);
  }

  lemma SgrStartFlushed(p: Parsers, split: bool)
    ensures var f := Flush(p, Push(p, Initial(split), [ESC, 0x5b, 0x3c]).0).0;
            !f.loneEscape && f.buffer == [] && f.discardUntil == Some(OrphanedSgrMouseTail) && f.discarded == 3
  {
    var read := Initial(split).(buffer := [ESC, 0x5b, 0x3c]);
    assert Fed(Initial(split), [ESC, 0x5b, 0x3c]) == read;
    assert FindByte([0x3c], MouseFinal) == None by { assert [0x3c][1..] == []; }
    assert read.buffer[2..] == [0x3c];
    assert ExtractOne(p, read.buffer) == None;
    SettledDrain(p, read);
  }

  /** After the beginning of a mouse report timed out, so many digits that the bound is passed take the next byte with
      them when it is read in one piece with them, and not otherwise. */
  lemma OverflowExample(p: Parsers, split: bool, digits: Bytes)
    requires |digits| > 125 && AllDigits(digits)
    ensures var f := Flush(p, Push(p, Initial(split), [ESC, 0x5b, 0x3c]).0).0;
            PushBoth(p, f, digits, [0x78]) != Push(p, f, digits + [0x78])
  {
    SgrStartFlushed(p, split);
    var f := Flush(p, Push(p, Initial(split), [ESC, 0x5b, 0x3c]).0).0;
    assert Fed(f, digits).buffer == digits;
    ChunkSplit(p, f, digits, [0x78]);
  }
}
