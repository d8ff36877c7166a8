/**
 What a timeout does to the beginning of a report: whether it is held back, and what becomes of the rest of one that was
 given up.
 */
module RawInputHeld {
  import opened Prelude
  import opened RawInputBytes
  import opened RawInputStability
  import opened RawInputGrammar
  import opened RawInputFramer
  import opened RawInputRuns
  import opened RawInputReports
  import opened RawInputLate

  // --- A timeout that only holds back ---

  /** A beginning that may become a reply that is awaited, and for which no timeout has waited yet. */
  predicate MayBeReply(r: Replies, first: Bytes) {
    && !r.held
    && (|| (first == [ESC] && (r.color > 0 || r.cellSize > 0 || r.appearance))
        || (first == [ESC, 0x5b] && (r.cellSize > 0 || r.appearance))
        || (|first| >= 3 && first[..3] == [ESC, 0x5b, 0x3f] && r.appearance))
  }

  /** The beginning of a report that changes of the colour scheme are reported with. */
  predicate SchemeBegun(first: Bytes, dark: bool) {
    var s := Written(Scheme(dark));
    3 <= |first| < |s| && first == s[..|first|]
  }

  predicate Question(b: Bytes) {
    |b| >= 3 && b[0] == ESC && b[1] == 0x5b && b[2] == 0x3f && forall i :: 2 <= i < |b| ==> !CsiFinal(b[i])
  }

  lemma SchemeBytes(first: Bytes, dark: bool)
    requires SchemeBegun(first, dark)
    ensures Question(first) && IncompleteColorScheme(first)
  {
    var s := Written(Scheme(dark));
    assert forall i :: 0 <= i < |first| ==> first[i] == s[i];
  }

  lemma QuestionUnfinished(p: Parsers, b: Bytes)
    requires Question(b)
    ensures !(PASTE_START <= b) && EscapeLen(b) == None && ExtractOne(p, b) == None
    ensures !IncompleteSgr(b) && !IncompleteDefaultColor(b)
  {
    if CsiLen(b, CsiFinal).Some? { CsiExactly(b, CsiFinal, CsiLen(b, CsiFinal).value); }
    assert EscapeLen(b) == None;
    assert PASTE_START[2] == 0x32;
  }

  lemma SchemeWaits(p: Parsers, f: Framer, dark: bool)
    requires SchemeBegun(f.buffer, dark) && f.discardUntil == None && !f.loneEscape
    ensures OneTurn(p, f) == Stop(f) && FlushIdle(p, f) == FlushReplies(p, f)
    ensures IncompleteColorScheme(f.buffer) && !IncompleteCellSize(f.buffer)
  {
    SchemeBytes(f.buffer, dark);
    QuestionUnfinished(p, f.buffer);
    SchemeNoCell(f.buffer);
  }

  lemma SchemeNoCell(first: Bytes)
    requires |first| >= 3 && first[2] == 0x3f
    ensures !IncompleteCellSize(first)
  {
    if IncompleteCellSize(first) {
      FieldStarts(first[2..]);
    }
  }

  lemma FieldStarts(b: Bytes)
    requires b != [] && b[0] != SEMICOLON
    ensures Fields(b)[0] != [] && Fields(b)[0][0] == b[0]
  {
  }

  lemma IntroducerWaits(p: Parsers, f: Framer)
    requires f.buffer == [ESC] || f.buffer == [ESC, 0x5b]
    requires f.discardUntil == None && !f.loneEscape && MayBeReply(f.replies, f.buffer)
    ensures OneTurn(p, f) == Stop(f) && FlushIdle(p, f) == (Holding(f), [])
  {
    assert EscapeLen(f.buffer) == None;
    assert |PASTE_START| == 6;
  }

  /** While a reply is awaited that may begin so, one timeout does nothing but note that it has been waited for, and the
      report is read as if there had been none. */
  lemma HeldOnce(p: Parsers, f: Framer, r: Report, first: Bytes, second: Bytes, rest: Bytes)
    requires Writable(r) && ColorsAreStrings(p) && Written(r) == first + second && second != []
    requires f.buffer == [] && f.discardUntil == None && !f.loneEscape && MayBeReply(f.replies, first)
    ensures var read := Push(p, f, first);
            var waited := Flush(p, read.0);
            read.1 == [] && waited.1 == [] && Push(p, waited.0, second + rest) == Push(p, f, Written(r) + rest)
  {
    var held := f.(buffer := first);
    assert Fed(f, first) == held;
    BeginningHeld(p, held, r, second);
    assert Fed(Holding(held), second + rest) == Fed(Holding(f), Written(r) + rest);
    HoldingAlike(p, f, r, rest);
  }

  lemma BeginningHeld(p: Parsers, f: Framer, r: Report, second: Bytes)
    requires Writable(r) && Written(r) == f.buffer + second && second != []
    requires f.discardUntil == None && !f.loneEscape && MayBeReply(f.replies, f.buffer)
    ensures Drain(p, f) == (f, []) && Flush(p, f) == (Holding(f), [])
  {
    if |f.buffer| <= 2 {
      IntroducerWaits(p, f);
    } else {
      OnlySchemes(r, f.buffer, second);
      SchemeWaits(p, f, r.dark);
    }
    SettledDrain(p, f);
    assert [] + FlushIdle(p, f).1 == [];
  }

  lemma HoldingAlike(p: Parsers, f: Framer, r: Report, rest: Bytes)
    requires Writable(r) && ColorsAreStrings(p) && f.buffer == [] && f.discardUntil == None && !f.loneEscape
    ensures Push(p, Holding(f), Written(r) + rest) == Push(p, f, Written(r) + rest)
  {
    ReportPushed(p, f, r, rest);
    ReportPushed(p, Holding(f), r, rest);
    SameNoted(f.replies, EventFor(r));
  }

  lemma SameNoted(r: Replies, e: Event)
    ensures Noted(r, e).(held := false) == Noted(r.(held := true), e).(held := false)
  {
  }

  lemma OnlySchemes(r: Report, first: Bytes, second: Bytes)
    requires Writable(r) && Written(r) == first + second && second != []
    requires |first| >= 3 && first[..3] == [ESC, 0x5b, 0x3f]
    ensures r.Scheme? && SchemeBegun(first, r.dark)
  {
    var s := Written(r);
    assert s[2] == first[2] == first[..3][2] == 0x3f;
    match r
    case Cell(width, height) => CellIsSequence(width, height);
    case _ =>
  }

  // --- A report of the colour scheme that is given up ---

  lemma SchemeRest(dark: bool, first: Bytes, second: Bytes)
    requires Written(Scheme(dark)) == first + second && SchemeBegun(first, dark)
    ensures Rest(HostReplyCsi, second) && |second| <= 128
  {
    var s := Written(Scheme(dark));
    assert forall i :: 0 <= i < |second| ==> second[i] == s[|first| + i];
  }

  /** A report of the colour scheme that a timeout cuts in two when none is awaited, or when the one awaited had its
      time: it reaches no pane, and what follows is read as ever. */
  lemma CutSchemeVanishes(p: Parsers, f: Framer, dark: bool, first: Bytes, second: Bytes, rest: Bytes)
    requires Written(Scheme(dark)) == first + second && SchemeBegun(first, dark)
    requires f.buffer == [] && f.discardUntil == None && !f.loneEscape && (f.replies.appearance ==> f.replies.held)
    ensures var read := Push(p, f, first);
            var waited := Flush(p, read.0);
            && read.1 == [] && waited.1 == []
            && Push(p, waited.0, second + rest)
               == Push(p, f.(discarded := 0, replies := f.replies.(appearance := false, held := false)), rest)
  {
    var held, given := f.(buffer := first), f.replies.(appearance := false, held := false);
    assert Fed(f, first) == held;
    SchemeWaits(p, held, dark);
    SettledDrain(p, held);
    assert [] + FlushIdle(p, held).1 == [];
    SchemeRest(dark, first, second);
    var waiting := Dropped(held, Some(HostReplyCsi), 0).(replies := given);
    LateRestDropped(p, waiting, second, rest);
    assert Cleared(waiting) == f.(discarded := 0, replies := given);
  }

  // --- A mouse report that is given up ---

  /** The two parts of a mouse report, with its escape or, when that was emitted by an earlier timeout, without it. */
  predicate CutMouse(lone: bool, first: Bytes, second: Bytes) {
    var start := if lone then [0x5b, 0x3c] else [ESC, 0x5b, 0x3c];
    && start <= first && AllParameters(first[|start|..]) && Rest(OrphanedSgrMouseTail, second)
    && |first + second| <= 128 && (lone ==> |first| <= 32)
  }

  lemma {:induction false} NoFinal(b: Bytes)
    requires forall i :: 0 <= i < |b| ==> !MouseFinal(b[i])
    ensures FindByte(b, MouseFinal) == None
  {
    if FindByte(b, MouseFinal).Some? { FindByteExactly(b, MouseFinal, FindByte(b, MouseFinal).value); }
  }

  lemma MouseWaits(p: Parsers, f: Framer, second: Bytes)
    requires f.discardUntil == None && CutMouse(f.loneEscape, f.buffer, second)
    ensures OneTurn(p, f) == Stop(f)
    ensures FlushIdle(p, f) == (DropOrphan(f.(loneEscape := false)), [])
  {
    var first, k := f.buffer, if f.loneEscape then 2 else 3;
    forall i | 0 <= i < |first| ensures !MouseFinal(first[i]) {
      if i >= k { assert Parameter(first[k..][i - k]); }
    }
    if f.loneEscape {
      NoFinal(first);
    } else {
      NoFinal(first[2..]);
      assert EscapeLen(first) == None;
      assert PASTE_START[2] == 0x32;
    }
  }

  /** A mouse report that a timeout cuts in two reaches no pane, also when its escape was emitted by a timeout
      before. */
  lemma CutMouseVanishes(p: Parsers, f: Framer, first: Bytes, second: Bytes, rest: Bytes)
    requires f.buffer == [] && f.discardUntil == None && CutMouse(f.loneEscape, first, second)
    ensures var read := Push(p, f, first);
            var waited := Flush(p, read.0);
            && read.1 == [] && waited.1 == []
            && Push(p, waited.0, second + rest) == Push(p, f.(discarded := 0, loneEscape := false), rest)
  {
    var held := f.(buffer := first);
    assert Fed(f, first) == held;
    MouseWaits(p, held, second);
    assert Drain(p, held) == (held, []);
    assert [] + FlushIdle(p, held).1 == [];
    var waiting := Dropped(held.(loneEscape := false), Some(OrphanedSgrMouseTail), |first|);
    LateRestDropped(p, waiting, second, rest);
    assert Cleared(waiting) == f.(discarded := 0, loneEscape := false);
  }

  // --- A mouse report whose escape was taken for a key ---

  lemma OrphanShape(e: MouseEvent)
    requires e.column < 0xffff && e.row < 0xffff
    ensures var s := SgrReport(e);
            && |s| >= 4 && s[0] == ESC && s[1] == 0x5b && s[2] == 0x3c && MouseFinal(s[|s| - 1])
            && (forall i :: 0 <= i < |s| - 1 ==> !MouseFinal(s[i])) && Utf8(s) && ParseSgrMouse(s).Some?
  {
    SgrIsSequence(e);
    SgrRead(e);
  }

  predicate WholeReport(s: Bytes) { Utf8(s) && ParseSgrMouse(s).Some? }

  /** A report that can be read, with its final byte at the end only. */
  predicate Report33(s: Bytes) {
    && 4 <= |s| <= 33 && s[0] == ESC && MouseFinal(s[|s| - 1]) && WholeReport(s)
    && forall i :: 0 <= i < |s| - 1 ==> !MouseFinal(s[i])
  }

  lemma OrphanBytes(s: Bytes, rest: Bytes, b: Bytes)
    requires |s| >= 4 && b == s[1..] + rest
    ensures |b| >= |s| - 1 && b[..|s| - 1] == s[1..] && b[|s| - 1..] == rest
    ensures forall i :: 0 <= i < |s| - 1 ==> b[i] == s[i + 1]
  {
  }

  lemma OrphanFinal(s: Bytes, b: Bytes)
    requires 4 <= |s| <= |b| + 1 && MouseFinal(s[|s| - 1]) && forall i :: 0 <= i < |s| - 1 ==> !MouseFinal(s[i])
    requires forall i :: 0 <= i < |s| - 1 ==> b[i] == s[i + 1]
    ensures FindByte(b, MouseFinal) == Some(|s| - 2) && !IncompleteOrphan(b)
  {
    FindByteExactly(b, MouseFinal, |s| - 2);
    assert MouseFinal(b[|s| - 2]);
    assert |b| >= 2 ==> |b[2..]| >= |s| - 3 && b[2..][|s| - 4] == b[|s| - 2];
  }

  lemma OrphanComplete(b: Bytes)
    requires FindByte(b, MouseFinal).Some?
    ensures CompleteOrphan(b) == var end := FindByte(b, MouseFinal).value;
                                 if end < 32 && WholeReport([ESC] + b[..end + 1]) then Some(end + 1) else None
  {
  }

  lemma OrphanTurn(p: Parsers, g: Framer, s: Bytes, rest: Bytes)
    requires Report33(s) && g.buffer == s[1..] + rest && g.loneEscape
    ensures OneTurn(p, g) == Again(g.(loneEscape := false, buffer := rest), [])
  {
    OrphanBytes(s, rest, g.buffer);
    OrphanFinal(s, g.buffer);
    assert [ESC] + s[1..] == s;
    OrphanComplete(g.buffer);
  }

  /** When a timeout took the escape of a mouse report for the key, the rest of the report is dropped whole, and nothing
      of what follows. */
  lemma OrphanDropped(p: Parsers, f: Framer, e: MouseEvent, rest: Bytes)
    requires e.column < 0xffff && e.row < 0xffff && |SgrReport(e)| <= 33
    requires f.buffer == [] && f.discardUntil == None && f.loneEscape
    ensures Push(p, f, SgrReport(e)[1..] + rest) == Push(p, f.(loneEscape := false), rest)
  {
    OrphanShape(e);
    DroppedWhole(p, f, SgrReport(e), rest);
  }

  lemma DroppedWhole(p: Parsers, f: Framer, s: Bytes, rest: Bytes)
    requires Report33(s) && f.buffer == [] && f.loneEscape
    ensures Push(p, f, s[1..] + rest) == Push(p, f.(loneEscape := false), rest)
  {
    var g := Fed(f, s[1..] + rest);
    assert g.buffer == s[1..] + rest;
    OrphanTurn(p, g, s, rest);
    assert [] + rest == rest;
    SilentTurn(p, g, Fed(f.(loneEscape := false), rest));
  }
}
