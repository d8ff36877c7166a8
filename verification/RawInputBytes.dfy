/**
 The recognisers of the raw input framer: how many bytes at the front of a buffer make one event, and which one.
 The key and colour parsers are left open: they are any functions of a complete sequence.
 */
module RawInputBytes {
  import opened Prelude

  type Bytes = seq<byte>

  const ESC: byte := 0x1b
  const BEL: byte := 0x07
  const SEMICOLON: byte := 0x3b

  const PASTE_START: Bytes := [0x1b, 0x5b, 0x32, 0x30, 0x30, 0x7e]
  const PASTE_END: Bytes := [0x1b, 0x5b, 0x32, 0x30, 0x31, 0x7e]
  const DARK_REPORT: Bytes := [0x1b, 0x5b, 0x3f, 0x39, 0x39, 0x37, 0x3b, 0x31, 0x6e]
  const LIGHT_REPORT: Bytes := [0x1b, 0x5b, 0x3f, 0x39, 0x39, 0x37, 0x3b, 0x32, 0x6e]
  const ST: Bytes := [0x1b, 0x5c]

  /** `b` begins with an escape and `c`. */
  predicate Escaped(b: Bytes, c: byte) {
    |b| >= 2 && b[0] == ESC && b[1] == c
  }

  /** `b` begins with a control sequence introducer and `c`. */
  predicate Csi(b: Bytes, c: byte) {
    |b| >= 3 && Escaped(b, 0x5b) && b[2] == c
  }

  /** The beginnings of mouse reports, in the SGR and in the default encoding. */
  predicate Sgr(b: Bytes) { Csi(b, 0x3c) }

  predicate X10(b: Bytes) { Csi(b, 0x4d) }

  predicate Digit(c: byte) { 0x30 <= c <= 0x39 }

  predicate Semicolon(c: byte) { c == SEMICOLON }

  predicate Bell(c: byte) { c == BEL }

  predicate MouseFinal(c: byte) { c == 0x4d || c == 0x6d }

  predicate CsiFinal(c: byte) { 0x40 <= c <= 0x7e }

  // --- Searching ---

  /** The first place where `needle` begins. */
  function Find(b: Bytes, needle: Bytes): (i: Option<nat>)
    requires needle != []
    ensures i.Some? ==> i.value + |needle| <= |b| && needle <= b[i.value..]
  {
    if |b| < |needle| then None
    else if needle <= b then Some(0)
    else
      var rest := Find(b[1..], needle);
      if rest.None? then None
      else
        assert b[1..][rest.value..] == b[rest.value + 1..];
        Some(rest.value + 1)
  }

  /** The first byte that `wanted` accepts. */
  function FindByte(b: Bytes, wanted: byte -> bool): (i: Option<nat>)
    ensures i.Some? ==> i.value < |b| && wanted(b[i.value])
  {
    if b == [] then None
    else if wanted(b[0]) then Some(0)
    else
      var rest := FindByte(b[1..], wanted);
      if rest.None? then None else Some(rest.value + 1)
  }

  function After(i: Option<nat>, n: nat): Option<nat> {
    if i.None? then None else Some(i.value + n)
  }

  // --- UTF-8 (RFC 3629, section 3) ---

  /** The width that a first byte announces by its leading bits, without checking more. */
  function CharWidth(first: byte): Option<nat> {
    if first < 0x80 then Some(1)
    else if 0xc0 <= first < 0xe0 then Some(2)
    else if 0xe0 <= first < 0xf0 then Some(3)
    else if 0xf0 <= first < 0xf8 then Some(4)
    else None
  }

  predicate Continuation(c: byte) { 0x80 <= c < 0xc0 }

  /** Second bytes: no overlong forms, no surrogates, nothing above U+10FFFF. */
  predicate SecondByte(first: byte, c: byte) {
    if first == 0xe0 then 0xa0 <= c < 0xc0
    else if first == 0xed then 0x80 <= c < 0xa0
    else if first == 0xf0 then 0x90 <= c < 0xc0
    else if first == 0xf4 then 0x80 <= c < 0x90
    else Continuation(c)
  }

  /** The width of a character that starts with `first`, when one can. */
  function WellFormedWidth(first: byte): (w: Option<nat>)
    ensures w.Some? ==> 1 <= w.value <= 4
  {
    if first < 0x80 then Some(1)
    else if 0xc2 <= first < 0xe0 then Some(2)
    else if 0xe0 <= first < 0xf0 then Some(3)
    else if 0xf0 <= first <= 0xf4 then Some(4)
    else None
  }

  /** Every byte after the first that is there, up to the width, is one that may be there. */
  predicate Follows(b: Bytes, w: nat)
    requires b != []
  {
    && (|b| > 1 && w > 1 ==> SecondByte(b[0], b[1]))
    && forall i :: 2 <= i < |b| && i < w ==> Continuation(b[i])
  }

  predicate Utf8(b: Bytes) {
    b == [] ||
    var w := WellFormedWidth(b[0]);
    w.Some? && w.value <= |b| && Follows(b, w.value) && Utf8(b[w.value..])
  }

  /** The beginning of a character, cut off before its end. */
  predicate PartialChar(b: Bytes) {
    && b != []
    && var w := WellFormedWidth(b[0]);
       w.Some? && |b| < w.value && Follows(b, w.value)
  }

  function FirstCharLen(b: Bytes): (n: Option<nat>)
    ensures n.Some? ==> 1 <= n.value <= |b|
  {
    if b == [] then None
    else
      var w := CharWidth(b[0]);
      if w.Some? && w.value <= |b| && Utf8(b[..w.value]) then w else None
  }

  // --- Numbers ---

  /** The fields between semicolons. */
  function Fields(b: Bytes): (fields: seq<Bytes>)
    ensures |fields| >= 1
  {
    var i := FindByte(b, Semicolon);
    if i.None? then [b] else [b[..i.value]] + Fields(b[i.value + 1..])
  }

  function DigitsValue(b: Bytes): (n: nat)
    requires forall i :: 0 <= i < |b| ==> Digit(b[i])
  {
    if b == [] then 0 else
      assert Digit(b[|b| - 1]);
      DigitsValue(b[..|b| - 1]) * 10 + (b[|b| - 1] - 0x30)
  }

  /** A decimal number up to `max`; one leading plus sign is accepted. */
  function ParseUnsigned(b: Bytes, max: nat): (n: Option<nat>)
    ensures n.Some? ==> n.value <= max
  {
    var digits := if |b| > 1 && b[0] == 0x2b then b[1..] else b;
    if digits == [] || !(forall i :: 0 <= i < |digits| ==> Digit(digits[i])) then None
    else if DigitsValue(digits) > max then None
    else Some(DigitsValue(digits))
  }

  // --- Mouse reports ---

  datatype Button = LeftButton | MiddleButton | RightButton

  datatype MouseKind =
    | Down(button: Button) | Released(button: Button) | Drag(button: Button)
    | Moved | ScrollUp | ScrollDown | ScrollLeft | ScrollRight

  datatype MouseEvent = MouseEvent(kind: MouseKind, column: nat, row: nat, shift: bool, alt: bool, control: bool)

  /** The kind of a report: the two lowest and the two highest bits of `cb` number the button. */
  function MouseKindOf(cb: byte): Option<MouseKind> {
    var button, dragging := cb % 4 + cb / 64 * 4, cb / 32 % 2 == 1;
    if dragging then
      match button
      case 0 => Some(Drag(LeftButton))
      case 1 => Some(Drag(MiddleButton))
      case 2 => Some(Drag(RightButton))
      case _ => if button in {3, 4, 5, 8, 9} then Some(Moved) else None
    else
      match button
      case 0 => Some(Down(LeftButton))
      case 1 => Some(Down(MiddleButton))
      case 2 => Some(Down(RightButton))
      case 3 => Some(Released(LeftButton))
      case 4 => Some(ScrollUp)
      case 5 => Some(ScrollDown)
      case 6 => Some(ScrollLeft)
      case 7 => Some(ScrollRight)
      case _ => None
  }

  function MouseAt(cb: byte, column: nat, row: nat, release: bool): Option<MouseEvent> {
    var kind := MouseKindOf(cb);
    if kind.None? then None
    else
      Some(MouseEvent(if release && kind.value.Down? then Released(kind.value.button) else kind.value, column, row,
                      cb / 4 % 2 == 1, cb / 8 % 2 == 1, cb / 16 % 2 == 1))
  }

  function ParseDefaultMouse(b: Bytes): Option<MouseEvent> {
    if |b| == 6 && X10(b) && b[3] >= 32 && b[4] >= 33 && b[5] >= 33
    then MouseAt(b[3] - 32, b[4] - 33, b[5] - 33, false)
    else None
  }

  /** Fields after the third are ignored. */
  function ParseSgrMouse(b: Bytes): Option<MouseEvent> {
    if !Sgr(b) || |b| == 3 || !MouseFinal(b[|b| - 1]) then None
    else
      var fields := Fields(b[3..|b| - 1]);
      if |fields| < 3 then None
      else
        var cb, column, row := ParseUnsigned(fields[0], 0xff), ParseUnsigned(fields[1], 0xffff),
            ParseUnsigned(fields[2], 0xffff);
        if cb.None? || column.None? || row.None? || column.value == 0 || row.value == 0 then None
        else MouseAt(cb.value, column.value - 1, row.value - 1, b[|b| - 1] == 0x6d)
  }

  // --- Replies of the host terminal ---

  /** `CSI 6 ; height ; width t`, as (width, height). */
  function ParseCellSize(b: Bytes): Option<(nat, nat)> {
    if |b| < 3 || !Escaped(b, 0x5b) || b[|b| - 1] != 0x74 || !Utf8(b[2..|b| - 1]) then None
    else
      var fields := Fields(b[2..|b| - 1]);
      if |fields| != 3 || fields[0] != [0x36] then None
      else
        var height, width := ParseUnsigned(fields[1], U32_MAX), ParseUnsigned(fields[2], U32_MAX);
        if height.None? || width.None? || height.value == 0 || width.value == 0 then None
        else Some((width.value, height.value))
  }

  predicate AllDigits(b: Bytes) { forall i :: 0 <= i < |b| ==> Digit(b[i]) }

  predicate IncompleteCellSize(b: Bytes) {
    && |b| > 2 && Escaped(b, 0x5b) && b[|b| - 1] != 0x74
    && var fields := Fields(b[2..]);
       && fields[0] == [0x36] && |fields| <= 3
       && (|fields| > 1 ==> AllDigits(fields[1]))
       && (|fields| > 2 ==> AllDigits(fields[2]) && fields[1] != [])
  }

  predicate IncompleteColorScheme(b: Bytes) {
    Csi(b, 0x3f) && (b <= DARK_REPORT || b <= LIGHT_REPORT) && |b| < |DARK_REPORT|
  }

  // --- Control strings (ECMA-48, section 5.6) ---

  datatype Family = Osc | StTerminated | HostReplyCsi | OrphanedSgrMouseTail

  function OscTerminator(b: Bytes): Option<nat> {
    var st, bel := After(Find(b, ST), 2), After(FindByte(b, Bell), 1);
    if st.Some? && bel.Some? then Some(Min(st.value, bel.value)) else if st.Some? then st else bel
  }

  function Terminator(b: Bytes, family: Family): Option<nat> {
    match family
    case Osc => OscTerminator(b)
    case StTerminated => After(Find(b, ST), 2)
    case HostReplyCsi => None
    case OrphanedSgrMouseTail => After(FindByte(b, MouseFinal), 1)
  }

  /** The family of the control string that `b` begins, if it begins one. */
  function ControlFamily(b: Bytes): Option<Family> {
    if Escaped(b, 0x5d) then Some(Osc)
    else if Escaped(b, 0x50) || Escaped(b, 0x5f) || Escaped(b, 0x5e) || Escaped(b, 0x58) then Some(StTerminated)
    else None
  }

  /** A control string without its terminator. */
  predicate IncompleteControl(b: Bytes) {
    ControlFamily(b).Some? && Terminator(b, ControlFamily(b).value).None?
  }

  predicate IncompleteDefaultColor(b: Bytes) {
    IncompleteControl(b) && ([0x1b, 0x5d, 0x31, 0x30, 0x3b] <= b || [0x1b, 0x5d, 0x31, 0x31, 0x3b] <= b)
  }

  // --- Escape sequences (ECMA-48, section 5.4) ---

  function CsiLen(b: Bytes, final: byte -> bool): Option<nat> {
    if |b| <= 2 then None else After(FindByte(b[2..], final), 3)
  }

  /** An escape before a mouse report is a key of its own. */
  predicate EscapeBeforeMouse(b: Bytes) {
    || (|b| >= 7 && Escaped(b, ESC) && X10(b[1..]) && ParseDefaultMouse(b[1..7]).Some?)
    || (Escaped(b, ESC) && Sgr(b[1..]) &&
        var n := CsiLen(b[1..], MouseFinal);
        n.Some? && ParseSgrMouse(b[1..1 + n.value]).Some?)
  }

  /** A report behind an escape that is not text cannot be told to be a mouse report, nor anything else. */
  predicate UnreadableMouse(b: Bytes) {
    Escaped(b, ESC) && Sgr(b[1..]) &&
    var n := CsiLen(b[1..], MouseFinal);
    n.Some? && !Utf8(b[1..1 + n.value])
  }

  /** The length of the complete escape sequence that `b` begins with. */
  function EscapeLen(b: Bytes): (n: Option<nat>)
    requires b != []
    ensures n.Some? ==> 1 <= n.value <= |b|
  {
    if |b| == 1 || UnreadableMouse(b) then None
    else if EscapeBeforeMouse(b) then Some(1)
    else if Escaped(b, ESC) then After(EscapeLen(b[1..]), 1)
    else if Escaped(b, 0x5b) then
      if Sgr(b) then CsiLen(b, MouseFinal)
      else if X10(b) then if |b| >= 6 then Some(6) else None
      else CsiLen(b, CsiFinal)
    else if ControlFamily(b).Some? then Terminator(b, ControlFamily(b).value)
    else if Escaped(b, 0x4f) then if |b| >= 3 then Some(3) else None
    else After(FirstCharLen(b[1..]), 1)
  }

  // --- Events ---

  datatype Parsers = Parsers(key: Bytes -> bool, defaultColor: Bytes -> bool, palette: Bytes -> bool)

  datatype Event =
    | Key | Paste(content: Bytes) | Mouse(mouse: MouseEvent) | FocusGained | FocusLost
    | DefaultColor | PaletteColors | ColorScheme(dark: bool) | CellSize(width: nat, height: nat) | Unsupported

  /** What a complete escape sequence means; the first reading that fits. */
  function Meaning(p: Parsers, s: Bytes): Event {
    var cell, mouse := ParseCellSize(s), ParseSgrMouse(s);
    if p.defaultColor(s) then DefaultColor
    else if p.palette(s) then PaletteColors
    else if s == [0x1b, 0x5b, 0x49] then FocusGained
    else if s == [0x1b, 0x5b, 0x4f] then FocusLost
    else if s == DARK_REPORT || s == LIGHT_REPORT then ColorScheme(s == DARK_REPORT)
    else if cell.Some? then CellSize(cell.value.0, cell.value.1)
    else if mouse.Some? then Mouse(mouse.value)
    else if p.key(s) then Key
    else Unsupported
  }

  function EscapeEvent(p: Parsers, s: Bytes): Option<Event> {
    if X10(s) then
      var mouse := ParseDefaultMouse(s);
      Some(if mouse.Some? then Mouse(mouse.value) else Unsupported)
    else if Utf8(s) then Some(Meaning(p, s))
    else None
  }

  lemma EndAfterStart(b: Bytes)
    requires PASTE_START <= b && Find(b, PASTE_END).Some?
    ensures Find(b, PASTE_END).value >= |PASTE_START|
  {
    var i := Find(b, PASTE_END).value;
    assert b[i] == b[i..][0] == ESC;
    assert b[i + 4] == b[i..][4] == 0x31;
    assert b[4] == PASTE_START[4];
  }

  /** The first event of a buffer and the bytes it takes; None when it is not complete, or never will be. */
  function ExtractOne(p: Parsers, b: Bytes): (r: Option<(Event, nat)>)
    ensures r.Some? ==> 1 <= r.value.1 <= |b|
  {
    if b == [] then None
    else if PASTE_START <= b then
      var end := Find(b, PASTE_END);
      if end.None? then None
      else
        EndAfterStart(b);
        var content := b[|PASTE_START|..end.value];
        if Utf8(content) then Some((Paste(content), end.value + |PASTE_END|)) else None
    else if b[0] == ESC then
      var n := EscapeLen(b);
      if n.None? then None
      else
        var event := EscapeEvent(p, b[..n.value]);
        if event.None? then None else Some((event.value, n.value))
    else
      var n := FirstCharLen(b);
      if n.Some? && Utf8(b[..n.value]) && p.key(b[..n.value]) then Some((Key, n.value)) else None
  }

  /** Whether the bytes are exactly one complete bracketed paste of text. */
  predicate IsCompletePaste(b: Bytes) {
    && PASTE_START <= b && Find(b, PASTE_END).Some?
    && Find(b, PASTE_END).value + |PASTE_END| == |b|
    && (EndAfterStart(b); Utf8(b[|PASTE_START|..Find(b, PASTE_END).value]))
  }
}
