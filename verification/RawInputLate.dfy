/**
 What arrives after a timeout gave up on the beginning: the rest of a reply, of a mouse report or of a control string is
 thrown away to its last byte, and what follows it is read as if nothing had been there.
 */
module RawInputLate {
  import opened Prelude
  import opened RawInputBytes
  import opened RawInputStability
  import opened RawInputGrammar
  import opened RawInputFramer
  import opened RawInputRuns
  import opened RawInputReports

  // --- The rest of what is thrown away ---

  predicate CsiParameter(c: byte) { 0x20 <= c <= 0x3f }

  /** The whole rest of a control sequence, of a mouse report, or of a control string, with the byte that ends it. */
  predicate Rest(family: Family, tail: Bytes) {
    match family
    case HostReplyCsi => tail != [] && CsiFinal(tail[|tail| - 1])
        && forall i :: 0 <= i < |tail| - 1 ==> CsiParameter(tail[i])
    case OrphanedSgrMouseTail => tail != [] && MouseFinal(tail[|tail| - 1]) && AllParameters(tail[..|tail| - 1])
    case Osc => EndsAt(tail, true, |tail|) && Open(tail, true, |tail|)
    case StTerminated => EndsAt(tail, false, |tail|) && Open(tail, false, |tail|)
  }

  /** Control strings may go on for ever, the others for what is left of 128 bytes. */
  predicate InBound(family: Family, tail: Bytes, discarded: nat) {
    family == HostReplyCsi || family == OrphanedSgrMouseTail ==> |tail| + discarded <= 128
  }

  lemma {:induction false} CsiTailWhole(tail: Bytes, room: nat, rest: Bytes)
    requires Rest(HostReplyCsi, tail) && |tail| <= room
    ensures CsiTail(tail + rest, room) == (|tail|, true)
    decreases |tail|
  {
    if |tail| > 1 {
      assert (tail + rest)[1..] == tail[1..] + rest;
      CsiTailWhole(tail[1..], room - 1, rest);
    }
  }

  lemma {:induction false} OrphanTailWhole(tail: Bytes, room: nat, rest: Bytes)
    requires Rest(OrphanedSgrMouseTail, tail) && |tail| <= room
    ensures OrphanTail(tail + rest, room) == (|tail|, true)
    decreases |tail|
  {
    if |tail| > 1 {
      assert (tail + rest)[1..] == tail[1..] + rest;
      assert Parameter(tail[..|tail| - 1][0]);
      assert tail[1..][..|tail| - 2] == tail[..|tail| - 1][1..];
      OrphanTailWhole(tail[1..], room - 1, rest);
    }
  }

  lemma StringWhole(tail: Bytes, rest: Bytes, family: Family)
    requires (family == Osc || family == StTerminated) && Rest(family, tail)
    ensures Terminator(tail + rest, family) == Some(|tail|)
  {
    if family == Osc { OscExactly(tail, |tail|); } else { StExactly(tail, |tail|); }
    assert tail[..|tail|] == tail && tail <= tail + rest;
    TerminatorDetermined(tail, family, tail + rest);
  }

  /** The framer throws nothing away any more. */
  function Cleared(f: Framer): Framer { f.(discardUntil := None, discarded := 0) }

  lemma RestInTurn(g: Framer, family: Family, tail: Bytes, rest: Bytes)
    requires g.discardUntil == Some(family) && g.buffer == tail + rest
    requires Rest(family, tail) && InBound(family, tail, g.discarded)
    ensures DiscardTurn(g) == Again(Resumed(g, |tail|), [])
  {
    match family
    case HostReplyCsi => CsiTailWhole(tail, SatSub(128, g.discarded), rest);
    case OrphanedSgrMouseTail => OrphanTailWhole(tail, SatSub(128, g.discarded), rest);
    case Osc => StringWhole(tail, rest, Osc);
    case StTerminated => StringWhole(tail, rest, StTerminated);
  }

  lemma SilentTurn(p: Parsers, g: Framer, next: Framer)
    requires OneTurn(p, g) == Again(next, [])
    ensures Drain(p, g) == Drain(p, next)
  {
    TurnShrinks(p, g, OneTurn(p, g));
    assert [] + Drain(p, next).1 == Drain(p, next).1;
  }

  /** The rest that comes late is thrown away whole, its last byte included, and nothing of what follows. */
  lemma LateRestDropped(p: Parsers, f: Framer, tail: Bytes, rest: Bytes)
    requires f.discardUntil.Some? && f.buffer == [] && !f.loneEscape
    requires Rest(f.discardUntil.value, tail) && InBound(f.discardUntil.value, tail, f.discarded)
    ensures Push(p, f, tail + rest) == Push(p, Cleared(f), rest)
  {
    var g := Fed(f, tail + rest);
    assert g.buffer == tail + rest && [] + rest == rest && (tail + rest)[|tail|..] == rest;
    RestInTurn(g, f.discardUntil.value, tail, rest);
    assert Resumed(g, |tail|) == Fed(Cleared(f), rest);
    SilentTurn(p, g, Fed(Cleared(f), rest));
  }

  // --- A reply cut in two by a timeout ---

  /** A beginning of the reply to a query for the size of a cell, and what is left of it. */
  predicate CutCell(width: nat, height: nat, first: Bytes, second: Bytes) {
    first + second == CellReport(width, height) && |first| >= 3 && second != []
  }

  lemma CutParts(width: nat, height: nat, first: Bytes, second: Bytes)
    requires CutCell(width, height, first, second)
    ensures Escaped(first, 0x5b) && first[2] == 0x36 && AllParameters(first[2..]) && Rest(HostReplyCsi, second)
  {
    var s, t := CellReport(width, height), Triple(6, height, width);
    TripleFields(6, height, width);
    assert Decimal(6) == [0x36] && t[0] == 0x36;
    assert forall i :: 0 <= i < |first| ==> first[i] == s[i];
    assert forall i :: 0 <= i < |second| ==> second[i] == s[|first| + i];
    forall i | 0 <= i < |first| - 2 ensures Parameter(first[2..][i]) {
      assert first[2..][i] == first[i + 2] == s[i + 2] == t[i];
    }
    forall i | 0 <= i < |second| - 1 ensures CsiParameter(second[i]) {
      assert second[i] == s[|first| + i] == t[|first| + i - 2] && Parameter(t[|first| + i - 2]);
    }
  }

  lemma DigitsFront(a: Bytes, m: nat)
    requires AllDigits(a) && m <= |a|
    ensures AllDigits(a[..m])
  {
  }

  /** The beginning is one that the framer knows to be incomplete. */
  lemma CutIncomplete(width: nat, height: nat, first: Bytes, second: Bytes)
    requires CutCell(width, height, first, second)
    ensures IncompleteCellSize(first)
  {
    var t, m := Triple(6, height, width), |first| - 2;
    CutParts(width, height, first, second);
    FrontOfReply(width, height, first, second);
    assert Decimal(6) == [0x36];
    DecimalDigits(6);
    DecimalDigits(height);
    DecimalDigits(width);
    CutFields(Decimal(6), Decimal(height), Decimal(width), m);
    assert Parameter(first[2..][m - 1]) && first[2..][m - 1] == first[|first| - 1];
  }

  /** The fields of a beginning of three numbers. */
  lemma CutFields(six: Bytes, h: Bytes, w: Bytes, m: nat)
    requires AllDigits(six) && AllDigits(h) && AllDigits(w) && |six| == 1 && h != []
    requires 1 <= m <= 3 + |h| + |w|
    ensures var fields := Fields((six + [SEMICOLON] + (h + [SEMICOLON] + w))[..m]);
            && fields[0] == six && |fields| <= 3
            && (|fields| > 1 ==> AllDigits(fields[1]))
            && (|fields| > 2 ==> AllDigits(fields[2]) && fields[1] != [])
  {
    var t := six + [SEMICOLON] + (h + [SEMICOLON] + w);
    if m == 1 {
      assert t[..m] == six;
      LastField(six);
    } else if m <= 2 + |h| {
      DigitsFront(h, m - 2);
      assert t[..m] == six + [SEMICOLON] + h[..m - 2];
      LastField(h[..m - 2]);
      NextField(six, h[..m - 2]);
    } else {
      var k := m - 3 - |h|;
      DigitsFront(w, k);
      assert t[..m] == six + [SEMICOLON] + (h + [SEMICOLON] + w[..k]);
      LastField(w[..k]);
      NextField(h, w[..k]);
      NextField(six, h + [SEMICOLON] + w[..k]);
    }
  }

  lemma FrontOfReply(width: nat, height: nat, first: Bytes, second: Bytes)
    requires CutCell(width, height, first, second)
    ensures 1 <= |first| - 2 <= |Triple(6, height, width)| && first[2..] == Triple(6, height, width)[..|first| - 2]
  {
    var s, t := CellReport(width, height), Triple(6, height, width);
    assert s[2..|first|] == first[2..] == t[..|first| - 2];
  }

  lemma CutHeld(p: Parsers, f: Framer, first: Bytes)
    requires Escaped(first, 0x5b) && |first| > 2 && first[2] == 0x36 && AllParameters(first[2..])
    requires f.buffer == first && f.discardUntil == None && !f.loneEscape
    ensures Drain(p, f) == (f, [])
  {
    forall i | 2 <= i < |first| ensures Parameter(first[i]) { assert Parameter(first[2..][i - 2]); }
    if CsiLen(first, CsiFinal).Some? {
      CsiExactly(first, CsiFinal, CsiLen(first, CsiFinal).value);
    }
    assert EscapeLen(first) == None;
    assert !(PASTE_START <= first);
    assert OneTurn(p, f) == Stop(f);
  }

  /** The reply to a query for the size of a cell that a timeout cuts in two reaches no pane: the beginning is given up,
      the rest thrown away when it comes, and what follows is read as ever. */
  lemma CutReplyVanishes(p: Parsers, f: Framer, width: nat, height: nat, first: Bytes, second: Bytes, rest: Bytes)
    requires CutCell(width, height, first, second) && |second| <= 128
    requires f.buffer == [] && f.discardUntil == None && !f.loneEscape && f.replies.cellSize > 0
    ensures var read := Push(p, f, first);
            var waited := Flush(p, read.0);
            && read.1 == [] && waited.1 == []
            && Push(p, waited.0, second + rest)
               == Push(p, f.(discarded := 0, replies := f.replies.(cellSize := 0, held := false)), rest)
  {
    var held := f.(buffer := first);
    assert Fed(f, first) == held;
    CutParts(width, height, first, second);
    CutIncomplete(width, height, first, second);
    CutHeld(p, held, first);
    CutGivenUp(p, held);
    CutTail(p, f, first, second, rest);
  }

  lemma CutTail(p: Parsers, f: Framer, first: Bytes, second: Bytes, rest: Bytes)
    requires f.buffer == [] && f.discardUntil == None && !f.loneEscape && Rest(HostReplyCsi, second) && |second| <= 128
    ensures var given := f.replies.(cellSize := 0, held := false);
            Push(p, Dropped(f.(buffer := first), Some(HostReplyCsi), 0).(replies := given), second + rest)
            == Push(p, f.(discarded := 0, replies := given), rest)
  {
    var waiting :=
      Dropped(f.(buffer := first), Some(HostReplyCsi), 0).(replies := f.replies.(cellSize := 0, held := false));
    LateRestDropped(p, waiting, second, rest);
    assert Cleared(waiting) == f.(discarded := 0, replies := f.replies.(cellSize := 0, held := false));
  }

  lemma CutGivenUp(p: Parsers, f: Framer)
    requires Escaped(f.buffer, 0x5b) && |f.buffer| > 2 && f.buffer[2] == 0x36 && IncompleteCellSize(f.buffer)
    requires f.discardUntil == None && !f.loneEscape && f.replies.cellSize > 0
    ensures FlushIdle(p, f)
            == (Dropped(f, Some(HostReplyCsi), 0).(replies := f.replies.(cellSize := 0, held := false)), [])
  {
    NotOtherwise(f.buffer);
  }

  lemma NotOtherwise(first: Bytes)
    requires Escaped(first, 0x5b) && |first| > 2 && first[2] == 0x36
    ensures !IncompleteSgr(first) && !OpenPaste(first) && !IncompleteDefaultColor(first) && first != [ESC, 0x5b]
  {
    assert PASTE_START[2] == 0x32;
  }

  // --- A control string cut in two by a timeout ---

  predicate CutString(first: Bytes, second: Bytes) {
    StringSequence(first + second) && |first| >= 2 && second != [] && !IncompleteDefaultColor(first)
  }

  /** The cut falls into the string terminator. */
  predicate CutTerminator(first: Bytes, second: Bytes) {
    EndsWithEscape(first) && second == [0x5c]
  }

  function FamilyOf(first: Bytes): Family
    requires |first| >= 2
  {
    if first[1] == 0x5d then Osc else StTerminated
  }

  lemma CutEnds(first: Bytes, second: Bytes, osc: bool, k: nat)
    ensures k <= |first| ==> (EndsAt(first, osc, k) <==> EndsAt(first + second, osc, k))
    ensures EndsAt(second, osc, k) ==> EndsAt(first + second, osc, |first| + k)
    ensures k >= 2 && EndsAt(first + second, osc, |first| + k) ==> EndsAt(second, osc, k)
  {
  }

  lemma CutUnfinished(first: Bytes, second: Bytes)
    requires CutString(first, second)
    ensures first[0] == ESC && StringIntroducer(first[1]) && IncompleteControl(first)
    ensures ControlFamily(first) == Some(FamilyOf(first)) && EscapeLen(first) == None
  {
    var s, osc := first + second, first[1] == 0x5d;
    assert s[0] == first[0] && s[1] == first[1];
    forall j: nat | j <= |first| ensures !EndsAt(first, osc, j) && !EndsAt(first, false, j) {
      CutEnds(first, second, osc, j);
      assert !EndsAt(s, osc, j);
    }
    FirstEnds(first, |first| + 1);
    if osc { OscOpen(first, |first| + 1); }
  }

  lemma CutRest(first: Bytes, second: Bytes)
    requires CutString(first, second) && !CutTerminator(first, second)
    ensures Rest(FamilyOf(first), second)
  {
    var s, osc := first + second, first[1] == 0x5d;
    assert s[1] == first[1];
    forall j: nat | j < |second| ensures !EndsAt(second, osc, j) {
      CutEnds(first, second, osc, j);
      assert !EndsAt(s, osc, |first| + j);
    }
    assert s[|s| - 1] == second[|second| - 1];
    if |second| >= 2 {
      assert s[|s| - 2] == second[|second| - 2];
    } else {
      assert s[|s| - 2] == first[|first| - 1];
    }
  }

  /** What a timeout makes of the beginning. */
  lemma CutDropped(p: Parsers, f: Framer, first: Bytes, second: Bytes, waiting: Framer)
    requires CutString(first, second) && f.buffer == [] && f.discardUntil == None && !f.loneEscape
    requires waiting == Dropped(f, Some(FamilyOf(first)), 0)
    ensures Push(p, f, first) == (f.(buffer := first), [])
    ensures Flush(p, f.(buffer := first)) == (waiting, [])
  {
    var held := f.(buffer := first);
    assert Fed(f, first) == held;
    CutUnfinished(first, second);
    NoPasteIn(first);
    assert ExtractOne(p, first) == None;
    assert OneTurn(p, held) == Stop(held);
    SettledDrain(p, held);
    StringIdles(p, held, FamilyOf(first));
    assert [] + FlushIdle(p, held).1 == FlushIdle(p, held).1;
  }

  lemma NoPasteIn(b: Bytes)
    requires |b| >= 2 && b[0] == ESC && StringIntroducer(b[1])
    ensures !(PASTE_START <= b) && !OpenPaste(b) && !IncompleteSgr(b) && !IncompleteColorScheme(b)
    ensures !IncompleteCellSize(b) && b != [ESC] && b != [ESC, 0x5b]
  {
    assert PASTE_START[1] == 0x5b;
  }

  lemma StringIdles(p: Parsers, f: Framer, family: Family)
    requires |f.buffer| >= 2 && f.buffer[0] == ESC && StringIntroducer(f.buffer[1])
    requires IncompleteControl(f.buffer) && ControlFamily(f.buffer) == Some(family) && !IncompleteDefaultColor(f.buffer)
    requires f.discardUntil == None && !f.loneEscape
    ensures FlushIdle(p, f) == (Dropped(f, Some(family), 0), [])
  {
    NoPasteIn(f.buffer);
  }

  /** Half a terminator is not one: the discarding goes on. */
  lemma HalfTerminator(p: Parsers, f: Framer)
    requires f.buffer == [] && !f.loneEscape && (f.discardUntil == Some(Osc) || f.discardUntil == Some(StTerminated))
    ensures Push(p, f, [0x5c]).0.discardUntil.Some?
  {
    var g := Fed(f, [0x5c]);
    assert g.buffer == [0x5c];
    assert Find([0x5c], ST) == None;
    assert FindByte([0x5c], Bell) == None by { assert [0x5c][1..] == []; }
    assert OneTurn(p, g) == Stop(g);
  }

  /** A control string that a timeout cuts in two vanishes whole, and what follows it is read as ever, if and only if
      the cut does not fall into the string terminator. There the timeout forgets the escape that it ended with, and
      what follows is thrown away up to the next terminator. */
  lemma CutStringVanishes(p: Parsers, f: Framer, first: Bytes, second: Bytes)
    requires CutString(first, second) && f.buffer == [] && f.discardUntil == None && !f.loneEscape
    ensures var read := Push(p, f, first);
            var waited := Flush(p, read.0);
            && read.1 == [] && waited.1 == []
            && ((forall rest :: Push(p, waited.0, second + rest) == Push(p, f.(discarded := 0), rest))
                <==> !CutTerminator(first, second))
  {
    var waiting := Dropped(f, Some(FamilyOf(first)), 0);
    CutDropped(p, f, first, second, waiting);
    assert Cleared(waiting) == f.(discarded := 0);
    if CutTerminator(first, second) {
      HalfShows(p, waiting, second);
    } else {
      CutRest(first, second);
      forall rest ensures Push(p, waiting, second + rest) == Push(p, Cleared(waiting), rest) {
        LateRestDropped(p, waiting, second, rest);
      }
    }
  }

  lemma HalfShows(p: Parsers, f: Framer, second: Bytes)
    requires f.buffer == [] && !f.loneEscape && (f.discardUntil == Some(Osc) || f.discardUntil == Some(StTerminated))
    requires second == [0x5c]
    ensures exists rest :: Push(p, f, second + rest) != Push(p, Cleared(f), rest)
  {
    HalfTerminator(p, f);
    assert second + [] == [0x5c];
    var clear := Cleared(f);
    assert Fed(clear, []) == clear && OneTurn(p, clear) == Stop(clear);
    assert Push(p, f, second + []) != Push(p, clear, []);
  }

  // --- A control string cut more than once ---

  /** What may be a piece of a colour reply, but for the hexadecimal digits a, c, d, e and f. */
  predicate ColorByte(c: byte) {
    || 0x30 <= c <= 0x39 || c == ESC
    || c in {0x3b, 0x3a, 0x2f, 0x23, 0x3f, 0x2e, 0x5f, 0x2d, 0x2b, 0x72, 0x67, 0x62, 0x52, 0x47, 0x42}
  }

  predicate Unterminated(piece: Bytes, osc: bool) { Open(piece, osc, |piece| + 1) }

  /** What lets the discarding go on: of an OSC string bytes of a colour reply only, of another what may be half of its
      terminator. */
  predicate GoesOn(family: Family, piece: Bytes) {
    if family == Osc then forall i :: 0 <= i < |piece| ==> ColorByte(piece[i])
    else piece != [] && piece[|piece| - 1] == ESC
  }

  /** While a control string is thrown away, a piece of it that a timeout cuts off keeps the discarding going if and
      only if it may be a piece of such a string, and no more than 128 bytes have been thrown away so. An escape at its
      end is kept, as the first half of a terminator; nothing else is. */
  lemma PieceKeepsDiscarding(p: Parsers, f: Framer, piece: Bytes)
    requires f.discardUntil == Some(Osc) || f.discardUntil == Some(StTerminated)
    requires f.buffer == [] && !f.loneEscape && Unterminated(piece, f.discardUntil == Some(Osc))
    ensures var read := Push(p, f, piece);
            var waited := Flush(p, read.0);
            && read.1 == [] && waited.1 == []
            && if GoesOn(f.discardUntil.value, piece) && f.discarded + |piece| <= 128
               then waited.0 == f.(discarded := f.discarded + |piece|,
                                   buffer := if piece != [] && piece[|piece| - 1] == ESC then [ESC] else [])
               else waited.0 == Cleared(f)
  {
    var held := f.(buffer := piece);
    assert Fed(f, piece) == held;
    if f.discardUntil == Some(Osc) { OscOpen(piece, |piece| + 1); }
    FirstEnds(piece, |piece| + 1);
    assert OneTurn(p, held) == Stop(held);
    SettledDrain(p, held);
    PieceIdles(p, held);
    assert [] + FlushIdle(p, held).1 == [];
  }

  lemma PieceIdles(p: Parsers, held: Framer)
    requires held.discardUntil == Some(Osc) || held.discardUntil == Some(StTerminated)
    ensures var piece := held.buffer;
            FlushIdle(p, held)
            == (if GoesOn(held.discardUntil.value, piece) && held.discarded + |piece| <= 128
                then held.(discarded := held.discarded + |piece|,
                           buffer := if piece != [] && piece[|piece| - 1] == ESC then [ESC] else [])
                else Cleared(held).(buffer := []), [])
  {
    assert forall c :: PlausibleOsc(c) <==> ColorByte(c);
  }

  /** So a reply with a hexadecimal f that comes in three pieces is not thrown away whole: its end is typed into the
      pane. */
  lemma LongReplyLeaks(p: Parsers, split: bool)
    requires p.key([0x66])
    ensures var begun := Flush(p, Push(p, Initial(split), [ESC, 0x5d, 0x34, 0x3b, 0x31, 0x3b]).0).0;
            var waited := Flush(p, Push(p, begun, [0x72, 0x67, 0x62, 0x3a, 0x66]).0).0;
            begun.discardUntil == Some(Osc) && [0x66] in Push(p, waited, [0x66, BEL]).1
  {
    var first: Bytes, piece: Bytes := [ESC, 0x5d, 0x34, 0x3b, 0x31, 0x3b], [0x72, 0x67, 0x62, 0x3a, 0x66];
    var f := Initial(split);
    var begun := Dropped(f, Some(Osc), 0);
    LeakBegins(first);
    CutDropped(p, f, first, [BEL], begun);
    PieceKeepsDiscarding(p, begun, piece);
    assert !ColorByte(piece[4]);
    LeakedKey(p, Cleared(begun));
  }

  lemma LeakBegins(first: Bytes)
    requires first == [ESC, 0x5d, 0x34, 0x3b, 0x31, 0x3b]
    ensures CutString(first, [BEL]) && Unterminated([0x72, 0x67, 0x62, 0x3a, 0x66], true)
  {
    var s := first + [BEL];
    assert s == [ESC, 0x5d, 0x34, 0x3b, 0x31, 0x3b, BEL];
    assert first[2] == 0x34 && [0x1b, 0x5d, 0x31, 0x30, 0x3b][2] == 0x31 == [0x1b, 0x5d, 0x31, 0x31, 0x3b][2];
  }

  lemma LeakedKey(p: Parsers, f: Framer)
    requires f.buffer == [] && f.discardUntil == None && !f.loneEscape && p.key([0x66])
    ensures [0x66] in Push(p, f, [0x66, BEL]).1
  {
    var g := Fed(f, [0x66, BEL]);
    assert g.buffer == [0x66, BEL] && [0x66, BEL][..1] == [0x66];
    FirstCharExactly(g.buffer, 1);
    assert EncodeChar(0x66) == [0x66] && CodePoint(0x66);
    EventExactly(p, g.buffer, 1);
    assert OneTurn(p, g).chunks == [[0x66]];
    TurnShrinks(p, g, OneTurn(p, g));
    assert OneTurn(p, g).chunks[0] in Drain(p, g).1;
  }

  // --- Beginnings that are worth waiting for ---

  /** The beginning of a character. */
  ghost predicate BeginsChar(b: Bytes) {
    exists v, n :: CodePoint(v) && 0 < n < |EncodeChar(v)| && b == EncodeChar(v)[..n]
  }

  /** A paste whose end is to come, a reply to the query for a default colour, a character, or one behind an escape. */
  ghost predicate WorthWaiting(b: Bytes) {
    || (PASTE_START <= b && forall j :: !EndAt(b, j))
    || (([ESC, 0x5d, 0x31, 0x30, 0x3b] <= b || [ESC, 0x5d, 0x31, 0x31, 0x3b] <= b) && Unterminated(b, true))
    || BeginsChar(b)
    || (|b| >= 2 && b[0] == ESC && BeginsChar(b[1..]))
  }

  lemma BeginsIsPartial(b: Bytes)
    requires BeginsChar(b)
    ensures PartialChar(b) && FirstCharLen(b) == None && !Utf8(b) && b[0] >= 0xc2
  {
    var v, n :| CodePoint(v) && 0 < n < |EncodeChar(v)| && b == EncodeChar(v)[..n];
    EncodedIsWhole(v);
    assert b[0] == EncodeChar(v)[0];
    assert forall i :: 0 <= i < n ==> b[i] == EncodeChar(v)[i];
  }

  lemma PasteOpen(b: Bytes)
    requires PASTE_START <= b && forall j :: !EndAt(b, j)
    ensures OpenPaste(b) && !IncompleteSgr(b)
  {
    if Find(b, PASTE_END).Some? {
      var i := Find(b, PASTE_END).value;
      FindExactly(b, PASTE_END, i);
      EndAtIs(b, i);
    }
    assert b[2] == PASTE_START[2] == 0x32;
  }

  lemma ColorOpen(b: Bytes)
    requires [ESC, 0x5d, 0x31, 0x30, 0x3b] <= b || [ESC, 0x5d, 0x31, 0x31, 0x3b] <= b
    requires Unterminated(b, true)
    ensures IncompleteDefaultColor(b) && b[0] == ESC && b[1] == 0x5d && EscapeLen(b) == None
  {
    assert b[0] == ESC && b[1] == 0x5d;
    OscOpen(b, |b| + 1);
    FirstEnds(b, |b| + 1);
  }

  lemma WaitingIdles(p: Parsers, f: Framer)
    requires WorthWaiting(f.buffer) && f.discardUntil == None && !f.loneEscape
    ensures OneTurn(p, f) == Stop(f) && FlushIdle(p, f) == (f, [])
  {
    var b := f.buffer;
    if PASTE_START <= b && forall j :: !EndAt(b, j) {
      PasteOpen(b);
      assert b[1] == PASTE_START[1];
    } else if BeginsChar(b) {
      BeginsIsPartial(b);
      CharIdles(p, f);
    } else if |b| >= 2 && b[0] == ESC && BeginsChar(b[1..]) {
      BeginsIsPartial(b[1..]);
      assert b[1] == b[1..][0];
      AltCharIdles(p, f);
    } else {
      ColorOpen(b);
      NoPasteIn(b);
    }
  }

  lemma CharIdles(p: Parsers, f: Framer)
    requires f.buffer != [] && PartialChar(f.buffer) && FirstCharLen(f.buffer) == None && !Utf8(f.buffer)
    requires f.buffer[0] >= 0xc2 && f.discardUntil == None && !f.loneEscape
    ensures OneTurn(p, f) == Stop(f) && FlushIdle(p, f) == (f, [])
  {
    assert PASTE_START[0] == ESC;
    assert !(PASTE_START <= f.buffer);
  }

  lemma AltCharIdles(p: Parsers, f: Framer)
    requires |f.buffer| >= 2 && f.buffer[0] == ESC && PartialChar(f.buffer[1..]) && FirstCharLen(f.buffer[1..]) == None
    requires !Utf8(f.buffer[1..]) && f.buffer[1] >= 0xc2 && f.discardUntil == None && !f.loneEscape
    ensures OneTurn(p, f) == Stop(f) && FlushIdle(p, f) == (f, [])
  {
    assert PASTE_START[1] == 0x5b;
    assert !(PASTE_START <= f.buffer);
    assert EscapeLen(f.buffer) == None;
    assert !Utf8(f.buffer);
  }

  /** Through any timeout such a beginning is kept, and read together with what follows as if no timeout had been. */
  lemma WaitsThroughTimeout(p: Parsers, f: Framer, first: Bytes, rest: Bytes)
    requires f.buffer == [] && f.discardUntil == None && !f.loneEscape && WorthWaiting(first)
    ensures var read := Push(p, f, first);
            var waited := Flush(p, read.0);
            read.1 == [] && waited.1 == [] && Push(p, waited.0, rest) == Push(p, f, first + rest)
  {
    var held := f.(buffer := first);
    assert Fed(f, first) == held;
    WaitingIdles(p, held);
    SettledDrain(p, held);
    assert [] + FlushIdle(p, held).1 == [];
    assert Fed(held, rest) == Fed(f, first + rest);
  }
}
