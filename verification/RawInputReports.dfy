/**
 Reports as a host terminal writes them, and what is read of them: mouse reports in both encodings, the size of a cell,
 focus and colour scheme, and pastes. Whatever follows, each is read back as the event that it was written for.
 */
module RawInputReports {
  import opened Prelude
  import opened RawInputBytes
  import opened RawInputStability
  import opened RawInputGrammar
  import opened RawInputFramer
  import opened RawInputRuns
  import opened RawInputTimeouts

  // --- Decimal numbers ---

  function Decimal(n: nat): (s: Bytes)
    ensures s != []
  {
    if n < 10 then [0x30 + n] else Decimal(n / 10) + [0x30 + n % 10]
  }

  lemma {:induction false} DecimalDigits(n: nat)
    ensures AllDigits(Decimal(n))
  {
    if n >= 10 { DecimalDigits(n / 10); }
  }

  lemma {:induction false} DecimalValue(n: nat)
    requires AllDigits(Decimal(n))
    ensures DigitsValue(Decimal(n)) == n
  {
    var s := Decimal(n);
    if n < 10 {
      assert s[..0] == [];
    } else {
      DecimalDigits(n / 10);
      DecimalValue(n / 10);
      assert s[..|s| - 1] == Decimal(n / 10);
    }
  }

  lemma DecimalRead(n: nat, max: nat)
    requires n <= max
    ensures ParseUnsigned(Decimal(n), max) == Some(n) && AllDigits(Decimal(n))
  {
    DecimalDigits(n);
    DecimalValue(n);
    assert Digit(Decimal(n)[0]);
  }

  lemma LastField(a: Bytes)
    requires AllDigits(a)
    ensures Fields(a) == [a]
  {
    SemicolonAt(a, |a|);
  }

  lemma NextField(a: Bytes, rest: Bytes)
    requires AllDigits(a)
    ensures Fields(a + [SEMICOLON] + rest) == [a] + Fields(rest)
  {
    var b := a + [SEMICOLON] + rest;
    SemicolonAt(b, |a|);
    assert b[..|a|] == a && b[|a| + 1..] == rest;
  }

  /** Three numbers between semicolons. */
  function Triple(a: nat, b: nat, c: nat): Bytes {
    Decimal(a) + [SEMICOLON] + (Decimal(b) + [SEMICOLON] + Decimal(c))
  }

  lemma TripleFields(a: nat, b: nat, c: nat)
    ensures Fields(Triple(a, b, c)) == [Decimal(a), Decimal(b), Decimal(c)]
    ensures AllParameters(Triple(a, b, c))
  {
    DecimalDigits(a);
    DecimalDigits(b);
    DecimalDigits(c);
    var last := Decimal(b) + [SEMICOLON] + Decimal(c);
    LastField(Decimal(c));
    NextField(Decimal(b), Decimal(c));
    NextField(Decimal(a), last);
    assert [Decimal(a)] + ([Decimal(b)] + [Decimal(c)]) == [Decimal(a), Decimal(b), Decimal(c)];
    JoinedParameters(Decimal(b), Decimal(c));
    JoinedParameters(Decimal(a), last);
  }

  lemma JoinedParameters(a: Bytes, b: Bytes)
    requires AllParameters(b) && AllDigits(a)
    ensures AllParameters(a + [SEMICOLON] + b)
  {
  }

  // --- Mouse events ---

  function ButtonCode(b: Button): nat {
    match b
    case LeftButton => 0
    case MiddleButton => 1
    case RightButton => 2
  }

  /** The button code of xterm: the button in the low bits, 32 for motion, 64 for a wheel. */
  function KindCode(k: MouseKind): nat {
    match k
    case Down(b) => ButtonCode(b)
    case Released(b) => ButtonCode(b)
    case Drag(b) => 32 + ButtonCode(b)
    case Moved => 35
    case ScrollUp => 64
    case ScrollDown => 65
    case ScrollLeft => 66
    case ScrollRight => 67
  }

  function Code(e: MouseEvent): nat {
    KindCode(e.kind) + Flag(e.shift, 4) + Flag(e.alt, 8) + Flag(e.control, 16)
  }

  function Flag(on: bool, bit: nat): nat { if on then bit else 0 }

  /** The bits of a button code. */
  lemma CodeBits(low: nat, shift: bool, alt: bool, control: bool, high: nat, cb: nat)
    requires low < 4 && high < 8 && cb == low + Flag(shift, 4) + Flag(alt, 8) + Flag(control, 16) + 32 * high
    ensures cb % 4 == low && cb / 32 == high
    ensures cb / 4 % 2 == (if shift then 1 else 0)
    ensures cb / 8 % 2 == (if alt then 1 else 0)
    ensures cb / 16 % 2 == (if control then 1 else 0)
  {
    assert cb / 4 == Flag(shift, 1) + Flag(alt, 2) + Flag(control, 4) + 8 * high;
    assert cb / 8 == Flag(alt, 1) + Flag(control, 2) + 4 * high;
    assert cb / 16 == Flag(control, 1) + 2 * high;
  }

  /** A press for a release, which only the end of an SGR report tells apart. */
  function Pressed(k: MouseKind): MouseKind { if k.Released? then Down(k.button) else k }

  lemma KindRead(k: MouseKind, cb: byte)
    requires cb % 4 == KindCode(k) % 4 && cb / 32 == KindCode(k) / 32
    ensures MouseKindOf(cb) == Some(Pressed(k))
  {
    assert cb / 64 == cb / 32 / 2;
    match k
    case Down(b) =>
    case Released(b) =>
    case Drag(b) =>
    case _ =>
  }

  lemma CodeRead(e: MouseEvent, cb: nat)
    requires cb == Code(e)
    ensures cb < 96 && MouseAt(cb, e.column, e.row, e.kind.Released?) == Some(e)
    ensures MouseAt(cb, e.column, e.row, false) == Some(e.(kind := Pressed(e.kind)))
  {
    var kind := KindCode(e.kind);
    CodeBits(kind % 4, e.shift, e.alt, e.control, kind / 32, cb);
    KindRead(e.kind, cb);
  }

  /** SGR: the code, and the column and row counted from one; M, or m for a release. */
  function SgrReport(e: MouseEvent): Bytes {
    [ESC, 0x5b, 0x3c] + Triple(Code(e), e.column + 1, e.row + 1) + [if e.kind.Released? then 0x6d else 0x4d]
  }

  /** A mouse event read from an SGR report is the one that it was written for: the second number is the column and the
      third the row. */
  lemma SgrRead(e: MouseEvent)
    requires e.column < 0xffff && e.row < 0xffff
    ensures ParseSgrMouse(SgrReport(e)) == Some(e)
  {
    var s, t := SgrReport(e), Triple(Code(e), e.column + 1, e.row + 1);
    assert s[3..|s| - 1] == t;
    CodeRead(e, Code(e));
    TripleFields(Code(e), e.column + 1, e.row + 1);
    DecimalRead(Code(e), 0xff);
    DecimalRead(e.column + 1, 0xffff);
    DecimalRead(e.row + 1, 0xffff);
    SgrOf(s, Fields(t), Code(e), e.column + 1, e.row + 1);
  }

  lemma SgrOf(s: Bytes, fields: seq<Bytes>, cb: byte, column: nat, row: nat)
    requires Sgr(s) && |s| > 4 && MouseFinal(s[|s| - 1]) && fields == Fields(s[3..|s| - 1]) && |fields| == 3
    requires ParseUnsigned(fields[0], 0xff) == Some(cb)
    requires ParseUnsigned(fields[1], 0xffff) == Some(column) && ParseUnsigned(fields[2], 0xffff) == Some(row)
    requires column > 0 && row > 0
    ensures ParseSgrMouse(s) == MouseAt(cb, column - 1, row - 1, s[|s| - 1] == 0x6d)
  {
  }

  /** The default encoding: the same numbers as bytes, 32 higher. It does not say which button was released. */
  function DefaultReport(e: MouseEvent): Bytes
    requires e.column <= 222 && e.row <= 222
  {
    var code := Code(e) + if e.kind.Released? then 3 - ButtonCode(e.kind.button) else 0;
    [ESC, 0x5b, 0x4d, 32 + code, 33 + e.column, 33 + e.row]
  }

  /** So is one read from the default encoding, but a release is always of the left button. */
  lemma DefaultRead(e: MouseEvent)
    requires e.column <= 222 && e.row <= 222
    ensures ParseDefaultMouse(DefaultReport(e))
            == Some(if e.kind.Released? then e.(kind := Released(LeftButton)) else e)
  {
    if e.kind.Released? {
      CodeBits(3, e.shift, e.alt, e.control, 0, Code(e) + 3 - ButtonCode(e.kind.button));
    } else {
      CodeRead(e, Code(e));
    }
  }

  // --- Other reports ---

  function CellReport(width: nat, height: nat): Bytes {
    [ESC, 0x5b] + Triple(6, height, width) + [0x74]
  }

  lemma CellRead(width: nat, height: nat)
    requires 0 < width <= U32_MAX && 0 < height <= U32_MAX
    ensures ParseCellSize(CellReport(width, height)) == Some((width, height))
  {
    var s, t := CellReport(width, height), Triple(6, height, width);
    assert s[2..|s| - 1] == t;
    TripleFields(6, height, width);
    assert Decimal(6) == [0x36];
    DecimalRead(height, U32_MAX);
    DecimalRead(width, U32_MAX);
    TripleText(6, height, width);
    CellOf(s, Fields(t), width, height);
  }

  lemma TripleText(a: nat, b: nat, c: nat)
    ensures Utf8(Triple(a, b, c))
  {
    var t := Triple(a, b, c);
    TripleFields(a, b, c);
    forall i | 0 <= i < |t| ensures t[i] < 0x80 { assert Parameter(t[i]); }
    AsciiIsUtf8(t);
  }

  lemma CellOf(s: Bytes, fields: seq<Bytes>, width: nat, height: nat)
    requires |s| > 3 && Escaped(s, 0x5b) && s[|s| - 1] == 0x74 && Utf8(s[2..|s| - 1])
    requires fields == Fields(s[2..|s| - 1]) && |fields| == 3 && fields[0] == [0x36] && width > 0 && height > 0
    requires ParseUnsigned(fields[1], U32_MAX) == Some(height) && ParseUnsigned(fields[2], U32_MAX) == Some(width)
    ensures ParseCellSize(s) == Some((width, height))
  {
  }

  /** What a host terminal may write that is not a key. */
  datatype Report =
    | SgrMouse(mouse: MouseEvent)
    | DefaultMouse(mouse: MouseEvent)
    | Cell(width: nat, height: nat)
    | Focus(gained: bool)
    | Scheme(dark: bool)
    | PasteOf(content: Bytes)

  predicate Writable(r: Report) {
    match r
    case SgrMouse(e) => e.column < 0xffff && e.row < 0xffff
    case DefaultMouse(e) => e.column <= 222 && e.row <= 222
    case Cell(width, height) => 0 < width <= U32_MAX && 0 < height <= U32_MAX
    case Focus(_) => true
    case Scheme(_) => true
    case PasteOf(content) => Utf8(content) && Find(content, PASTE_END) == None
  }

  function Written(r: Report): Bytes
    requires Writable(r)
  {
    match r
    case SgrMouse(e) => SgrReport(e)
    case DefaultMouse(e) => DefaultReport(e)
    case Cell(width, height) => CellReport(width, height)
    case Focus(gained) => [ESC, 0x5b, if gained then 0x49 else 0x4f]
    case Scheme(dark) => if dark then DARK_REPORT else LIGHT_REPORT
    case PasteOf(content) => PASTE_START + content + PASTE_END
  }

  function EventFor(r: Report): Event {
    match r
    case SgrMouse(e) => Mouse(e)
    case DefaultMouse(e) => Mouse(if e.kind.Released? then e.(kind := Released(LeftButton)) else e)
    case Cell(width, height) => CellSize(width, height)
    case Focus(gained) => if gained then FocusGained else FocusLost
    case Scheme(dark) => ColorScheme(dark)
    case PasteOf(content) => Paste(content)
  }

  // --- Reading reports ---

  /** Replies to colour queries are OSC strings. */
  ghost predicate ColorsAreStrings(p: Parsers) {
    forall s :: p.defaultColor(s) || p.palette(s) ==> Escaped(s, 0x5d)
  }

  lemma SgrShape(s: Bytes, t: Bytes, last: byte)
    requires AllParameters(t) && t != [] && ReportFinal(last) && s == [ESC, 0x5b, 0x3c] + t + [last]
    ensures SgrSequence(s) && Utf8(s) && ParseCellSize(s) == None
  {
    forall i | 3 <= i < |s| - 1 ensures Parameter(s[i]) && !ReportFinal(s[i]) {
      assert s[i] == t[i - 3] && Parameter(t[i - 3]);
    }
    assert s[|s| - 1] == last;
    AsciiIsUtf8(s);
  }

  lemma SgrIsSequence(e: MouseEvent)
    ensures SgrSequence(SgrReport(e)) && Utf8(SgrReport(e)) && ParseCellSize(SgrReport(e)) == None
  {
    var t := Triple(Code(e), e.column + 1, e.row + 1);
    TripleFields(Code(e), e.column + 1, e.row + 1);
    SgrShape(SgrReport(e), t, if e.kind.Released? then 0x6d else 0x4d);
  }

  lemma CellIsSequence(width: nat, height: nat)
    ensures CsiSequence(CellReport(width, height)) && Utf8(CellReport(width, height))
    ensures CellReport(width, height)[2] == 0x36
  {
    var s, t := CellReport(width, height), Triple(6, height, width);
    TripleFields(6, height, width);
    forall i | 2 <= i < |s| - 1 ensures Parameter(s[i]) && s[i] == t[i - 2] { assert Parameter(t[i - 2]); }
    assert Decimal(6) == [0x36] && t[0] == 0x36;
    AsciiIsUtf8(s);
  }

  lemma FixedAreSequences(gained: bool, dark: bool)
    ensures CsiSequence([ESC, 0x5b, if gained then 0x49 else 0x4f]) && Utf8([ESC, 0x5b, if gained then 0x49 else 0x4f])
    ensures CsiSequence(if dark then DARK_REPORT else LIGHT_REPORT) && Utf8(if dark then DARK_REPORT else LIGHT_REPORT)
  {
    AsciiIsUtf8([ESC, 0x5b, if gained then 0x49 else 0x4f]);
    AsciiIsUtf8(DARK_REPORT);
    AsciiIsUtf8(LIGHT_REPORT);
  }

  lemma SgrEvent(p: Parsers, e: MouseEvent)
    requires e.column < 0xffff && e.row < 0xffff && ColorsAreStrings(p)
    ensures EscapeEvent(p, SgrReport(e)) == Some(Mouse(e))
  {
    var s := SgrReport(e);
    SgrIsSequence(e);
    SgrRead(e);
    NoColor(p, s);
    assert s[2] == 0x3c;
  }

  lemma NoColor(p: Parsers, s: Bytes)
    requires ColorsAreStrings(p) && Escaped(s, 0x5b)
    ensures !p.defaultColor(s) && !p.palette(s)
  {
  }

  lemma CellEvent(p: Parsers, width: nat, height: nat)
    requires 0 < width <= U32_MAX && 0 < height <= U32_MAX && ColorsAreStrings(p)
    ensures EscapeEvent(p, CellReport(width, height)) == Some(CellSize(width, height))
  {
    var s := CellReport(width, height);
    CellIsSequence(width, height);
    CellRead(width, height);
    NoColor(p, s);
  }

  lemma FixedEvents(p: Parsers, gained: bool, dark: bool)
    requires ColorsAreStrings(p)
    ensures EscapeEvent(p, [ESC, 0x5b, if gained then 0x49 else 0x4f])
            == Some(if gained then FocusGained else FocusLost)
    ensures EscapeEvent(p, if dark then DARK_REPORT else LIGHT_REPORT) == Some(ColorScheme(dark))
  {
    FixedAreSequences(gained, dark);
    NoColor(p, [ESC, 0x5b, if gained then 0x49 else 0x4f]);
    NoColor(p, if dark then DARK_REPORT else LIGHT_REPORT);
    assert DARK_REPORT[7] == 0x31 && LIGHT_REPORT[7] == 0x32;
  }

  lemma ReportIsSequence(p: Parsers, r: Report)
    requires Writable(r) && !r.PasteOf? && ColorsAreStrings(p)
    ensures var s := Written(r);
            Sequence(s) && s[2] != 0x32 && EscapeEvent(p, s) == Some(EventFor(r))
  {
    match r
    case SgrMouse(e) =>
      SgrIsSequence(e);
      SgrEvent(p, e);
    case DefaultMouse(e) => DefaultRead(e);
    case Cell(width, height) =>
      CellIsSequence(width, height);
      CellEvent(p, width, height);
    case Focus(gained) =>
      FixedAreSequences(gained, true);
      FixedEvents(p, gained, true);
    case Scheme(dark) =>
      FixedAreSequences(true, dark);
      FixedEvents(p, true, dark);
  }

  function PasteBytes(content: Bytes, rest: Bytes): Bytes { PASTE_START + content + PASTE_END + rest }

  /** The end mark stands at `j`. */
  predicate EndAt(b: Bytes, j: nat) {
    && j + 6 <= |b| && b[j] == 0x1b && b[j + 1] == 0x5b && b[j + 2] == 0x32
    && b[j + 3] == 0x30 && b[j + 4] == 0x31 && b[j + 5] == 0x7e
  }

  lemma EndAtIs(b: Bytes, j: nat)
    ensures RawInputGrammar.At(b, PASTE_END, j) <==> EndAt(b, j)
  {
    if j + 6 <= |b| {
      var t := b[j..];
      assert t[0] == b[j] && t[1] == b[j + 1] && t[2] == b[j + 2] && t[3] == b[j + 3] && t[4] == b[j + 4]
             && t[5] == b[j + 5];
      assert PASTE_END <= t <==> t[..6] == PASTE_END;
    }
  }

  /** The front of a paste, byte by byte. */
  predicate Laid(b: Bytes, content: Bytes) {
    && |b| >= 12 + |content|
    && b[0] == 0x1b && b[1] == 0x5b && b[2] == 0x32 && b[3] == 0x30 && b[4] == 0x30 && b[5] == 0x7e
    && (forall i :: 6 <= i < 6 + |content| ==> b[i] == content[i - 6])
    && EndAt(b, 6 + |content|)
  }

  lemma PasteLayout(content: Bytes, rest: Bytes)
    ensures var b := PasteBytes(content, rest);
            Laid(b, content) && b[6..6 + |content|] == content && PASTE_START <= b
  {
  }

  /** No end mark begins in front of it: it has one escape only, so that it would have to lie in the content. */
  lemma NoEndBefore(b: Bytes, content: Bytes, j: nat)
    requires Laid(b, content) && j < 6 + |content| && (j >= 6 ==> !EndAt(content, j - 6))
    ensures !EndAt(b, j)
  {
  }

  lemma PasteFound(b: Bytes, content: Bytes)
    requires Laid(b, content) && Find(content, PASTE_END) == None
    ensures Find(b, PASTE_END) == Some(6 + |content|)
  {
    var n := 6 + |content|;
    FindExactly(b, PASTE_END, n);
    EndAtIs(b, n);
    forall j: nat | j < n ensures !RawInputGrammar.At(b, PASTE_END, j) {
      if j >= 6 {
        NotFound(content, PASTE_END, j - 6);
        EndAtIs(content, j - 6);
      }
      NoEndBefore(b, content, j);
      EndAtIs(b, j);
    }
  }

  lemma PasteRead(p: Parsers, content: Bytes, rest: Bytes)
    requires Utf8(content) && Find(content, PASTE_END) == None
    ensures ExtractOne(p, PasteBytes(content, rest)) == Some((Paste(content), 12 + |content|))
  {
    PasteLayout(content, rest);
    PasteFound(PasteBytes(content, rest), content);
  }

  /** Every report is read back as its event, and no byte more is taken, whatever follows. */
  lemma ReadsBack(p: Parsers, r: Report, rest: Bytes)
    requires Writable(r) && ColorsAreStrings(p)
    ensures ExtractOne(p, Written(r) + rest) == Some((EventFor(r), |Written(r)|))
  {
    var s := Written(r);
    if r.PasteOf? {
      PasteRead(p, r.content, rest);
      assert s + rest == PasteBytes(r.content, rest);
    } else {
      var b, n := s + rest, |s|;
      ReportIsSequence(p, r);
      SequenceStarts(s);
      assert b[..n] == s && s[0..] == s && b[2] == s[2];
      assert Escapes(b[..n], 0);
      EventExactly(p, b, n);
    }
  }

  /** A framer that waits for nothing hands the report on as one chunk and goes on with what follows. */
  lemma ReportPushed(p: Parsers, f: Framer, r: Report, rest: Bytes)
    requires Writable(r) && ColorsAreStrings(p) && f.buffer == [] && f.discardUntil == None && !f.loneEscape
    ensures var next := f.(buffer := rest, replies := Noted(f.replies, EventFor(r)).(held := false));
            Push(p, f, Written(r) + rest) == (Drain(p, next).0, [Written(r)] + Drain(p, next).1)
    ensures EventOf(p, Written(r)) == Some(EventFor(r))
  {
    var s := Written(r);
    var g := Fed(f, s + rest);
    ReadsBack(p, r, rest);
    ReadsBack(p, r, []);
    assert s + [] == s && g.buffer == s + rest && (s + rest)[|s|..] == rest && (s + rest)[..|s|] == s;
    ReportBegins(p, r);
    TurnShrinks(p, g, OneTurn(p, g));
  }

  lemma ReportBegins(p: Parsers, r: Report)
    requires Writable(r) && ColorsAreStrings(p)
    ensures |Written(r)| >= 2 && Written(r)[0] == ESC && Written(r)[1] != ESC
  {
    if !r.PasteOf? {
      ReportIsSequence(p, r);
      SequenceStarts(Written(r));
    }
  }

  // --- Replies that are awaited ---

  /** How many of the chunks become an event of this kind. */
  function Count(p: Parsers, chunks: seq<Bytes>, kind: Event -> bool): nat {
    if chunks == [] then 0
    else (if EventOf(p, chunks[0]).Some? && kind(EventOf(p, chunks[0]).value) then 1 else 0) + Count(p, chunks[1..],
        kind)
  }

  predicate IsColor(e: Event) { e.DefaultColor? || e.PaletteColors? }

  predicate IsCellSize(e: Event) { e.CellSize? }

  predicate IsScheme(e: Event) { e.ColorScheme? }

  /** What is awaited after these chunks were emitted: one reply less for each that came. */
  predicate Awaits(p: Parsers, before: Replies, chunks: seq<Bytes>, after: Replies) {
    && after.color == SatSub(before.color, Count(p, chunks, IsColor))
    && after.cellSize == SatSub(before.cellSize, Count(p, chunks, IsCellSize))
    && (after.appearance <==> before.appearance && Count(p, chunks, IsScheme) == 0)
    && after.tracking == before.tracking && after.onFocus == before.onFocus
  }

  lemma {:induction false} CountConcat(p: Parsers, a: seq<Bytes>, b: seq<Bytes>, kind: Event -> bool)
    ensures Count(p, a + b, kind) == Count(p, a, kind) + Count(p, b, kind)
  {
    if a == [] {
      assert a + b == b;
    } else {
      CountConcat(p, a[1..], b, kind);
      assert (a + b)[1..] == a[1..] + b;
    }
  }

  lemma CountOne(p: Parsers, c: Bytes, kind: Event -> bool)
    ensures Count(p, [c], kind) == if EventOf(p, c).Some? && kind(EventOf(p, c).value) then 1 else 0
  {
    assert [c][1..] == [];
  }

  lemma EscapesMeanNothing(p: Parsers, s: Bytes)
    requires AllEscapes(s) && s != [] && ColorsAreStrings(p)
    ensures !IsColor(Meaning(p, s)) && !IsCellSize(Meaning(p, s)) && !IsScheme(Meaning(p, s))
  {
    assert |s| >= 2 ==> s[1] == ESC;
    assert DARK_REPORT[1] == 0x5b && LIGHT_REPORT[1] == 0x5b;
  }

  /** One turn takes one from what is awaited if its chunk is a reply. */
  lemma TurnAwaits(p: Parsers, f: Framer, turn: Turn)
    requires ColorsAreStrings(p) && !f.replies.tracking && !f.replies.onFocus
    requires turn == OneTurn(p, f) && turn.Again?
    ensures Awaits(p, f.replies, turn.chunks, turn.next.replies)
  {
    if turn.chunks != [] {
      var c := turn.chunks[0];
      assert turn.chunks == [c];
      CountOne(p, c, IsColor);
      CountOne(p, c, IsCellSize);
      CountOne(p, c, IsScheme);
      if f.split && Escaped(f.buffer, ESC) {
        assert EventOf(p, [ESC]) == Some(Key);
      } else {
        ChunkEvent(p, f.buffer, c);
      }
    }
  }

  predicate CountsAs(p: Parsers, c: Bytes, e: Event, kind: Event -> bool) {
    kind(e) <==> EventOf(p, c).Some? && kind(EventOf(p, c).value)
  }

  /** What a chunk is counted as is what the framer took it for. */
  lemma ChunkEvent(p: Parsers, b: Bytes, c: Bytes)
    requires ExtractOne(p, b).Some? && c == b[..ExtractOne(p, b).value.1] && ColorsAreStrings(p)
    ensures var e := ExtractOne(p, b).value.0;
            CountsAs(p, c, e, IsColor) && CountsAs(p, c, e, IsCellSize) && CountsAs(p, c, e, IsScheme)
  {
    ChunkReparses(p, b);
    if AllEscapes(c) {
      assert c[0] == b[0] == ESC;
      EscapesMeanNothing(p, c);
    }
  }

  /** Of the replies that are awaited, every drain takes off exactly those that it emits. */
  lemma {:induction false} RepliesCounted(p: Parsers, f: Framer)
    requires ColorsAreStrings(p) && !f.replies.tracking && !f.replies.onFocus
    ensures Awaits(p, f.replies, Drain(p, f).1, Drain(p, f).0.replies)
    decreases Left(f)
  {
    var turn := OneTurn(p, f);
    if turn.Again? {
      TurnShrinks(p, f, turn);
      TurnAwaits(p, f, turn);
      RepliesCounted(p, turn.next);
      var rest := Drain(p, turn.next).1;
      CountConcat(p, turn.chunks, rest, IsColor);
      CountConcat(p, turn.chunks, rest, IsCellSize);
      CountConcat(p, turn.chunks, rest, IsScheme);
    }
  }

  /** When the colours are followed, a change of the colour scheme asks for all of them again; a framer that asks for
      the appearance on focus awaits it from then on. */
  lemma ReportsAsk(p: Parsers, f: Framer, dark: bool)
    requires ColorsAreStrings(p) && f.buffer == [] && f.discardUntil == None && !f.loneEscape
    ensures var g := Push(p, f, Written(Scheme(dark))).0;
            !g.replies.appearance && (f.replies.tracking ==> g.replies.color == 258)
    ensures f.replies.onFocus ==> Push(p, f, Written(Focus(true))).0.replies.appearance
  {
    PushedAlone(p, f, Scheme(dark));
    PushedAlone(p, f, Focus(true));
  }

  lemma PushedAlone(p: Parsers, f: Framer, r: Report)
    requires Writable(r) && ColorsAreStrings(p) && f.buffer == [] && f.discardUntil == None && !f.loneEscape
    ensures Push(p, f, Written(r)).0 == f.(replies := Noted(f.replies, EventFor(r)).(held := false))
  {
    ReportPushed(p, f, r, []);
    assert Written(r) + [] == Written(r);
    var g := f.(buffer := [], replies := Noted(f.replies, EventFor(r)).(held := false));
    assert OneTurn(p, g) == Stop(g);
  }
}
