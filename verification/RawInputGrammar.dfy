/**
 Where input is cut: the recognisers find exactly the sequences of a grammar, given by predicates on whole sequences
 (ECMA-48 sections 5.4 and 5.6, the mouse encodings of xterm, and the characters of RFC 3629 by their code points).
 */
module RawInputGrammar {
  import opened Prelude
  import opened RawInputBytes
  import opened RawInputStability

  // --- Characters ---

  /** The code points that are characters: all up to U+10FFFF but the surrogates. */
  predicate CodePoint(v: nat) { v < 0xd800 || 0xe000 <= v < 0x11_0000 }

  /** A six-bit part of a code point, as a byte that goes on. */
  function Six(v: nat): byte { 0x80 + v % 64 }

  /** UTF-8 (RFC 3629, section 3). */
  function EncodeChar(v: nat): Bytes
    requires CodePoint(v)
  {
    if v < 0x80 then [v]
    else if v < 0x800 then [0xc0 + v / 64, Six(v)]
    else if v < 0x1_0000 then [0xe0 + v / 4096, Six(v / 64), Six(v)]
    else [0xf0 + v / 26_2144, Six(v / 4096), Six(v / 64), Six(v)]
  }

  /** The bytes are one character. */
  ghost predicate OneChar(s: Bytes) {
    exists v :: CodePoint(v) && EncodeChar(v) == s
  }

  predicate WholeChar(s: Bytes) {
    s != [] && WellFormedWidth(s[0]) == Some(|s|) && Follows(s, |s|)
  }

  lemma Sixes(a: nat, b: nat)
    requires b < 64
    ensures (a * 64 + b) / 64 == a && (a * 64 + b) % 64 == b
  {
  }

  /** Well-formed bytes are the character of a code point. */
  lemma WholeCharIsOne(s: Bytes)
    requires WholeChar(s)
    ensures OneChar(s)
  {
    if |s| == 1 {
      assert EncodeChar(s[0]) == s;
    } else if |s| == 2 {
      TwoBytes(s, s[0] - 0xc0, s[1] - 0x80);
    } else if |s| == 3 {
      ThreeBytes(s, s[0] - 0xe0, s[1] - 0x80, s[2] - 0x80);
    } else {
      FourBytes(s, s[0] - 0xf0, s[1] - 0x80, s[2] - 0x80, s[3] - 0x80);
    }
  }

  lemma TwoBytes(s: Bytes, a: nat, b: nat)
    requires WholeChar(s) && |s| == 2 && s[0] == 0xc0 + a && s[1] == 0x80 + b
    ensures OneChar(s)
  {
    Sixes(a, b);
    var v: nat := a * 64 + b;
    assert CodePoint(v) && EncodeChar(v) == s;
  }

  lemma ThreeBytes(s: Bytes, a: nat, b: nat, c: nat)
    requires WholeChar(s) && |s| == 3 && s[0] == 0xe0 + a && s[1] == 0x80 + b && s[2] == 0x80 + c
    ensures OneChar(s)
  {
    var v: nat := (a * 64 + b) * 64 + c;
    Sixes(a, b);
    Sixes(a * 64 + b, c);
    assert v / 4096 == v / 64 / 64;
    assert CodePoint(v) && EncodeChar(v) == s;
  }

  lemma FourBytes(s: Bytes, a: nat, b: nat, c: nat, d: nat)
    requires WholeChar(s) && |s| == 4 && s[0] == 0xf0 + a && s[1] == 0x80 + b && s[2] == 0x80 + c && s[3] == 0x80 + d
    ensures OneChar(s)
  {
    var v: nat := ((a * 64 + b) * 64 + c) * 64 + d;
    Sixes(a, b);
    Sixes(a * 64 + b, c);
    Sixes((a * 64 + b) * 64 + c, d);
    assert v / 4096 == v / 64 / 64 && v / 26_2144 == v / 64 / 64 / 64;
    assert CodePoint(v) && EncodeChar(v) == s;
  }

  lemma EncodedIsWhole(v: nat)
    requires CodePoint(v)
    ensures WholeChar(EncodeChar(v))
  {
  }

  /** The first character that the framer takes is the first character. */
  lemma FirstCharExactly(b: Bytes, n: nat)
    ensures FirstCharLen(b) == Some(n) <==> n <= |b| && OneChar(b[..n])
  {
    if FirstCharLen(b) == Some(n) {
      FirstIsWhole(b, n);
      WholeCharIsOne(b[..n]);
    }
    if n <= |b| && OneChar(b[..n]) {
      var v :| CodePoint(v) && EncodeChar(v) == b[..n];
      EncodedIsWhole(v);
      WholeIsFirst(b, n);
    }
  }

  lemma FirstIsWhole(b: Bytes, n: nat)
    requires FirstCharLen(b) == Some(n)
    ensures WholeChar(b[..n])
  {
    var s := b[..n];
    assert s[0] == b[0];
    assert Utf8(s) && WellFormedWidth(s[0]).Some?;
  }

  lemma WholeIsFirst(b: Bytes, n: nat)
    requires n <= |b| && WholeChar(b[..n])
    ensures FirstCharLen(b) == Some(n)
  {
    var s := b[..n];
    assert s[0] == b[0] && s[n..] == [] && Utf8(s[n..]);
  }

  // --- Text ---

  function EncodeText(text: seq<nat>): Bytes
    requires CodePoints(text)
  {
    if text == [] then [] else EncodeChar(text[0]) + EncodeText(text[1..])
  }

  /** The bytes are a sequence of characters. */
  ghost predicate IsText(b: Bytes) {
    exists text: seq<nat> :: CodePoints(text) && EncodeText(text) == b
  }

  predicate CodePoints(text: seq<nat>) {
    forall i :: 0 <= i < |text| ==> CodePoint(text[i])
  }

  lemma CharInFront(c: Bytes, rest: Bytes)
    requires OneChar(c) && IsText(rest)
    ensures IsText(c + rest)
  {
    var v :| CodePoint(v) && EncodeChar(v) == c;
    var text: seq<nat> :| CodePoints(text) && EncodeText(text) == rest;
    assert ([v] + text)[1..] == text;
    assert CodePoints([v] + text) && EncodeText([v] + text) == c + rest;
  }

  lemma TextStarts(b: Bytes) returns (w: nat)
    requires Utf8(b) && b != []
    ensures 1 <= w <= |b| && OneChar(b[..w]) && Utf8(b[w..])
  {
    w := WellFormedWidth(b[0]).value;
    assert b[..w][0] == b[0];
    assert WholeChar(b[..w]);
    WholeCharIsOne(b[..w]);
  }

  lemma {:induction false} Utf8IsText(b: Bytes)
    requires Utf8(b)
    ensures IsText(b)
    decreases |b|
  {
    if b == [] {
      assert CodePoints([]) && EncodeText([]) == b;
    } else {
      var w := TextStarts(b);
      Utf8IsText(b[w..]);
      CharInFront(b[..w], b[w..]);
      assert b[..w] + b[w..] == b;
    }
  }

  /** The validity test accepts exactly the texts. */
  lemma TextExactly(b: Bytes)
    ensures Utf8(b) <==> IsText(b)
  {
    if Utf8(b) { Utf8IsText(b); }
    if text: seq<nat> :| CodePoints(text) && EncodeText(text) == b { EncodedText(text); }
  }

  lemma {:induction false} EncodedText(text: seq<nat>)
    requires CodePoints(text)
    ensures Utf8(EncodeText(text))
  {
    if text != [] {
      var c, rest := EncodeChar(text[0]), EncodeText(text[1..]);
      EncodedIsWhole(text[0]);
      EncodedText(text[1..]);
      assert (c + rest)[|c|..] == rest && (c + rest)[0] == c[0];
      assert Follows(c + rest, |c|);
    }
  }

  // --- Sequences ---

  /** The introducer, bytes that end nothing, and one final byte; neither kind of mouse report. */
  predicate CsiSequence(s: Bytes) {
    && |s| >= 3 && s[0] == ESC && s[1] == 0x5b && s[2] != 0x3c && s[2] != 0x4d
    && FinalByte(s[|s| - 1]) && forall i :: 2 <= i < |s| - 1 ==> !FinalByte(s[i])
  }

  /** The final bytes of control sequences, @ to ~. */
  predicate FinalByte(c: byte) { 0x40 <= c <= 0x7e }

  /** The final bytes of SGR mouse reports, M and m. */
  predicate ReportFinal(c: byte) { c == 0x4d || c == 0x6d }

  /** `CSI <`, and on to the first M or m. */
  predicate SgrSequence(s: Bytes) {
    && |s| >= 4 && s[0] == ESC && s[1] == 0x5b && s[2] == 0x3c
    && ReportFinal(s[|s| - 1]) && forall i :: 3 <= i < |s| - 1 ==> !ReportFinal(s[i])
  }

  /** `CSI M` and three more bytes. */
  predicate X10Sequence(s: Bytes) {
    |s| == 6 && s[0] == ESC && s[1] == 0x5b && s[2] == 0x4d
  }

  /** A single shift takes one byte. */
  predicate Ss3Sequence(s: Bytes) {
    |s| == 3 && s[0] == ESC && s[1] == 0x4f
  }

  /** A string terminator, or for OSC the bell, ends at `k`. */
  predicate EndsAt(s: Bytes, osc: bool, k: nat) {
    k <= |s| && ((k >= 2 && s[k - 2] == ESC && s[k - 1] == 0x5c) || (osc && k >= 1 && s[k - 1] == BEL))
  }

  predicate StringIntroducer(c: byte) { c in {0x5d, 0x50, 0x5f, 0x5e, 0x58} }

  /** No terminator ends in front of `k`. */
  predicate Open(s: Bytes, osc: bool, k: nat) {
    forall j {:trigger EndsAt(s, osc, j)} :: 0 <= j < k ==> !EndsAt(s, osc, j)
  }

  /** A control string runs to its first terminator. */
  predicate StringSequence(s: Bytes) {
    && |s| >= 2 && s[0] == ESC && StringIntroducer(s[1])
    && EndsAt(s, s[1] == 0x5d, |s|) && Open(s, s[1] == 0x5d, |s|)
  }

  /** Anything else that follows an escape is one character. */
  ghost predicate MetaSequence(s: Bytes) {
    && |s| >= 2 && s[0] == ESC && OneChar(s[1..])
    && s[1] != ESC && s[1] != 0x5b && s[1] != 0x4f && !StringIntroducer(s[1])
  }

  ghost predicate Sequence(s: Bytes) {
    CsiSequence(s) || SgrSequence(s) || X10Sequence(s) || Ss3Sequence(s) || StringSequence(s) || MetaSequence(s)
  }

  /** A mouse report that can be read, in either encoding. */
  predicate ReadableReport(s: Bytes) {
    || (X10Sequence(s) && ParseDefaultMouse(s).Some?)
    || (SgrSequence(s) && Utf8(s) && ParseSgrMouse(s).Some?)
  }

  /** A report that is not text. */
  predicate UnreadableReport(s: Bytes) { SgrSequence(s) && !Utf8(s) }

  /** Escapes in front of a sequence belong to it, unless it is a mouse report. */
  ghost predicate Escapes(s: Bytes, k: nat) {
    && k < |s| && AllEscapes(s[..k]) && Sequence(s[k..])
    && (k > 0 ==> !ReadableReport(s[k..]) && !UnreadableReport(s[k..]))
  }

  /** In front of a report that can be read they stand for themselves. */
  predicate EscapesAlone(b: Bytes, n: nat) {
    1 <= n <= |b| && AllEscapes(b[..n]) && ReportFollows(b[n..])
  }

  predicate ReportFollows(b: Bytes) {
    exists m :: 0 <= m <= |b| && ReadableReport(b[..m])
  }

  // --- What the searches find ---

  /** Nothing wanted in front of `i`. */
  predicate NoneBefore(b: Bytes, wanted: byte -> bool, from: nat, i: nat)
    requires i <= |b|
  {
    forall j :: from <= j < i ==> !wanted(b[j])
  }

  lemma {:induction false} FindByteExactly(b: Bytes, wanted: byte -> bool, i: nat)
    ensures FindByte(b, wanted) == Some(i) <==> i < |b| && wanted(b[i]) && NoneBefore(b, wanted, 0, i)
  {
    if b != [] && !wanted(b[0]) && i > 0 {
      FindByteExactly(b[1..], wanted, i - 1);
      if i < |b| { Shifted(b, 1, wanted, 1, i); }
    }
  }

  lemma Shifted(b: Bytes, k: nat, wanted: byte -> bool, from: nat, i: nat)
    requires k <= from <= i <= |b|
    ensures NoneBefore(b, wanted, from, i) <==> NoneBefore(b[k..], wanted, from - k, i - k)
  {
    forall j | from <= j < i ensures b[j] == b[k..][j - k] {}
    if NoneBefore(b, wanted, from, i) {
      forall j | from - k <= j < i - k ensures !wanted(b[k..][j]) { assert !wanted(b[j + k]); }
    }
  }

  lemma CsiExactly(b: Bytes, final: byte -> bool, n: nat)
    ensures CsiLen(b, final) == Some(n) <==> 3 <= n <= |b| && final(b[n - 1]) && NoneBefore(b, final, 2, n - 1)
  {
    if 3 <= n <= |b| {
      FindByteExactly(b[2..], final, n - 3);
      Shifted(b, 2, final, 2, n - 1);
    }
  }

  lemma {:induction false} FindExactly(b: Bytes, needle: Bytes, i: nat)
    requires needle != []
    ensures Find(b, needle) == Some(i) <==> At(b, needle, i) && NotBefore(b, needle, i)
  {
    FindSteps(b, needle);
    if |b| >= |needle| && !At(b, needle, 0) && i > 0 {
      FindExactly(b[1..], needle, i - 1);
      FoundLater(b, needle, i, Find(b, needle), b[1..], Find(b[1..], needle));
    } else {
      FoundFirst(b, needle, i, Find(b, needle));
    }
  }

  lemma FoundLater(b: Bytes, needle: Bytes, i: nat, found: Option<nat>, rest: Bytes, later: Option<nat>)
    requires b != [] && rest == b[1..] && !At(b, needle, 0) && i > 0 && found == After(later, 1)
    requires later == Some(i - 1) <==> At(rest, needle, i - 1) && NotBefore(rest, needle, i - 1)
    ensures found == Some(i) <==> At(b, needle, i) && NotBefore(b, needle, i)
  {
    AtShifted(b, needle, i);
    NotBeforeShifted(b, needle, i);
  }

  lemma FoundFirst(b: Bytes, needle: Bytes, i: nat, found: Option<nat>)
    requires needle != [] && (|b| < |needle| || At(b, needle, 0) || i == 0)
    requires |b| < |needle| ==> found == None
    requires |b| >= |needle| && At(b, needle, 0) ==> found == Some(0)
    requires |b| >= |needle| && !At(b, needle, 0) ==> found != Some(0)
    ensures found == Some(i) <==> At(b, needle, i) && NotBefore(b, needle, i)
  {
  }

  /** One step of the search. */
  lemma FindSteps(b: Bytes, needle: Bytes)
    requires needle != []
    ensures |b| < |needle| ==> Find(b, needle) == None
    ensures |b| >= |needle| && At(b, needle, 0) ==> Find(b, needle) == Some(0)
    ensures |b| >= |needle| && !At(b, needle, 0) ==> Find(b, needle) == After(Find(b[1..], needle), 1)
  {
    AtStart(b, needle);
  }

  lemma AtStart(b: Bytes, needle: Bytes)
    ensures At(b, needle, 0) <==> needle <= b
  {
    assert b[0..] == b;
  }

  lemma AtShifted(b: Bytes, needle: Bytes, i: nat)
    requires b != [] && i > 0
    ensures At(b, needle, i) <==> At(b[1..], needle, i - 1)
  {
    if i <= |b| { assert b[i..] == b[1..][i - 1..]; }
  }

  lemma NotBeforeShifted(b: Bytes, needle: Bytes, i: nat)
    requires b != [] && i > 0
    ensures NotBefore(b, needle, i) <==> !At(b, needle, 0) && NotBefore(b[1..], needle, i - 1)
  {
    forall j: nat | 0 < j < i ensures At(b, needle, j) <==> At(b[1..], needle, j - 1) {
      AtShifted(b, needle, j);
    }
    if NotBefore(b, needle, i) {
      forall j | 0 <= j < i - 1 ensures !At(b[1..], needle, j) { assert !At(b, needle, j + 1); }
    }
  }

  predicate At(b: Bytes, needle: Bytes, i: nat) { i + |needle| <= |b| && needle <= b[i..] }

  predicate NotBefore(b: Bytes, needle: Bytes, i: nat) {
    forall j :: 0 <= j < i ==> !At(b, needle, j)
  }

  lemma StringEnd(b: Bytes, i: nat)
    ensures At(b, ST, i) <==> EndsAt(b, false, i + 2)
  {
    if i + 2 <= |b| {
      var t := b[i..];
      assert t[0] == b[i] && t[1] == b[i + 1];
    }
  }

  lemma NoStringEnd(b: Bytes, n: nat)
    requires n >= 2
    ensures NotBefore(b, ST, n - 2) <==> Open(b, false, n)
  {
    forall i: nat ensures At(b, ST, i) <==> EndsAt(b, false, i + 2) { StringEnd(b, i); }
    if NotBefore(b, ST, n - 2) {
      forall j | 0 <= j < n ensures !EndsAt(b, false, j) {
        if j >= 2 { assert !At(b, ST, j - 2); }
      }
    }
    if Open(b, false, n) {
      forall j | 0 <= j < n - 2 ensures !At(b, ST, j) { assert !EndsAt(b, false, j + 2); }
    }
  }

  lemma StExactly(b: Bytes, n: nat)
    ensures After(Find(b, ST), 2) == Some(n) <==> EndsAt(b, false, n) && Open(b, false, n)
  {
    if n >= 2 {
      FindExactly(b, ST, n - 2);
      StringEnd(b, n - 2);
      NoStringEnd(b, n);
    }
  }

  /** The first bell ends at `n`. */
  predicate BellAt(b: Bytes, n: nat) { 1 <= n <= |b| && b[n - 1] == BEL }

  lemma BelExactly(b: Bytes, n: nat)
    ensures After(FindByte(b, Bell), 1) == Some(n) <==> BellAt(b, n) && forall j :: 0 <= j < n ==> !BellAt(b, j)
  {
    if n >= 1 { FindByteExactly(b, Bell, n - 1); }
    if BellAt(b, n) && NoneBefore(b, Bell, 0, n - 1) {
      forall j | 0 <= j < n ensures !BellAt(b, j) {}
    }
    if BellAt(b, n) && forall j :: 0 <= j < n ==> !BellAt(b, j) {
      forall j | 0 <= j < n - 1 ensures !Bell(b[j]) { assert !BellAt(b, j + 1); }
    }
  }

  /** Either terminator, and neither before. */
  lemma OscOpen(b: Bytes, n: nat)
    ensures Open(b, true, n) <==> Open(b, false, n) && forall j :: 0 <= j < n ==> !BellAt(b, j)
  {
    forall j: nat ensures EndsAt(b, true, j) <==> EndsAt(b, false, j) || BellAt(b, j) {}
    if Open(b, false, n) && forall j :: 0 <= j < n ==> !BellAt(b, j) {
      forall j | 0 <= j < n ensures !EndsAt(b, true, j) { assert !EndsAt(b, false, j) && !BellAt(b, j); }
    }
    if Open(b, true, n) {
      forall j | 0 <= j < n ensures !EndsAt(b, false, j) && !BellAt(b, j) { assert !EndsAt(b, true, j); }
    }
  }

  lemma {:induction false} NoByte(b: Bytes, wanted: byte -> bool)
    requires FindByte(b, wanted) == None
    ensures NoneBefore(b, wanted, 0, |b|)
  {
    if b != [] {
      NoByte(b[1..], wanted);
      Shifted(b, 1, wanted, 1, |b|);
    }
  }

  lemma {:induction false} NotFound(b: Bytes, needle: Bytes, i: nat)
    requires needle != [] && Find(b, needle) == None
    ensures !At(b, needle, i)
  {
    if |b| >= |needle| {
      if i == 0 {
        assert b[0..] == b;
      } else {
        NotFound(b[1..], needle, i - 1);
        AtShifted(b, needle, i);
      }
    }
  }

  /** Where the first string terminator or bell is found, or that there is none. */
  lemma FirstEnds(b: Bytes, n: nat)
    ensures var st, bel := After(Find(b, ST), 2), After(FindByte(b, Bell), 1);
            && (Open(b, false, n) <==> st.None? || st.value >= n)
            && ((forall j :: 0 <= j < n ==> !BellAt(b, j)) <==> bel.None? || bel.value >= n)
  {
    var st, bel := After(Find(b, ST), 2), After(FindByte(b, Bell), 1);
    if st.Some? {
      StExactly(b, st.value);
    } else {
      forall j: nat ensures !EndsAt(b, false, j) {
        if j >= 2 {
          NotFound(b, ST, j - 2);
          StringEnd(b, j - 2);
        }
      }
    }
    if bel.Some? {
      BelExactly(b, bel.value);
      assert BellAt(b, bel.value);
    } else {
      NoByte(b, Bell);
    }
  }

  lemma OscExactly(b: Bytes, n: nat)
    ensures OscTerminator(b) == Some(n) <==> EndsAt(b, true, n) && Open(b, true, n)
  {
    OscOpen(b, n);
    StExactly(b, n);
    BelExactly(b, n);
    FirstEnds(b, n);
    assert EndsAt(b, true, n) <==> EndsAt(b, false, n) || BellAt(b, n);
  }

  // --- Escape sequences ---

  lemma StringExactly(b: Bytes, n: nat)
    requires |b| >= 2 && b[0] == ESC && StringIntroducer(b[1])
    ensures EscapeLen(b) == Some(n) <==> n <= |b| && Sequence(b[..n])
  {
    var osc := b[1] == 0x5d;
    if osc { OscExactly(b, n); } else { StExactly(b, n); }
    if n < 2 { TerminatorLong(b, n); }
    if 2 <= n <= |b| {
      SameOpen(b, b[..n], osc, n);
      OnlyString(b[..n]);
    } else if n <= |b| {
      TooShort(b[..n]);
    }
  }

  lemma OnlyString(s: Bytes)
    requires |s| >= 2 && s[0] == ESC && StringIntroducer(s[1])
    ensures Sequence(s) <==> StringSequence(s)
  {
  }

  lemma TooShort(s: Bytes)
    requires |s| < 2
    ensures !Sequence(s)
  {
  }

  lemma TerminatorLong(b: Bytes, n: nat)
    requires |b| >= 2 && b[0] == ESC && StringIntroducer(b[1]) && n < 2
    ensures !EndsAt(b, true, n) && !EndsAt(b, false, n)
  {
  }

  lemma SameOpen(b: Bytes, s: Bytes, osc: bool, n: nat)
    requires n <= |b| && s == b[..n]
    ensures Open(s, osc, n) <==> Open(b, osc, n)
    ensures EndsAt(s, osc, n) <==> EndsAt(b, osc, n)
  {
    forall j: nat | j < n ensures EndsAt(s, osc, j) <==> EndsAt(b, osc, j) {}
    if Open(s, osc, n) {
      forall j | 0 <= j < n ensures !EndsAt(b, osc, j) { assert !EndsAt(s, osc, j); }
    }
    if Open(b, osc, n) {
      forall j | 0 <= j < n ensures !EndsAt(s, osc, j) { assert !EndsAt(b, osc, j); }
    }
  }

  lemma IntroducedExactly(b: Bytes, n: nat)
    requires |b| >= 2 && b[0] == ESC && b[1] == 0x5b
    ensures EscapeLen(b) == Some(n) <==> n <= |b| && Sequence(b[..n])
  {
    if 3 <= n <= |b| {
      var s := b[..n];
      assert s[0] == b[0] && s[1] == b[1] && s[2] == b[2] && s[n - 1] == b[n - 1];
      CsiExactly(b, MouseFinal, n);
      CsiExactly(b, CsiFinal, n);
      SameNone(b, s, MouseFinal, 2, n - 1);
      SameNone(b, s, CsiFinal, 2, n - 1);
      assert !MouseFinal(0x3c);
      assert Sequence(s) <==> CsiSequence(s) || SgrSequence(s) || X10Sequence(s);
      IntroducedForms(b, s, n);
    } else if n <= |b| {
      assert !Sequence(b[..n]);
      CsiExactly(b, MouseFinal, n);
      CsiExactly(b, CsiFinal, n);
    } else {
      CsiExactly(b, MouseFinal, n);
      CsiExactly(b, CsiFinal, n);
    }
  }

  lemma SameNone(b: Bytes, s: Bytes, wanted: byte -> bool, from: nat, i: nat)
    requires i <= |s| && s <= b
    ensures NoneBefore(s, wanted, from, i) <==> NoneBefore(b, wanted, from, i)
  {
  }

  lemma IntroducedForms(b: Bytes, s: Bytes, n: nat)
    requires |b| >= 2 && b[0] == ESC && b[1] == 0x5b && 3 <= n <= |b| && s == b[..n]
    requires s[0] == b[0] && s[1] == b[1] && s[2] == b[2] && s[n - 1] == b[n - 1]
    ensures Sgr(b) ==>
              (SgrSequence(s) <==> MouseFinal(s[n - 1]) && NoneBefore(s, MouseFinal, 2, n - 1)) && !CsiSequence(s)
              && !X10Sequence(s)
    ensures X10(b) ==> (X10Sequence(s) <==> n == 6) && !CsiSequence(s) && !SgrSequence(s)
    ensures !Sgr(b) && !X10(b) ==>
              (CsiSequence(s) <==> CsiFinal(s[n - 1]) && NoneBefore(s, CsiFinal, 2, n - 1)) && !SgrSequence(s)
              && !X10Sequence(s)
  {
  }

  /** One escape in front: what the recogniser takes is exactly the sequence. */
  lemma SimpleExactly(b: Bytes, n: nat)
    requires b != [] && b[0] == ESC && !Escaped(b, ESC)
    ensures EscapeLen(b) == Some(n) <==> n <= |b| && Sequence(b[..n])
  {
    if |b| >= 2 && b[1] == 0x5b {
      IntroducedExactly(b, n);
    } else if |b| >= 2 && StringIntroducer(b[1]) {
      StringExactly(b, n);
    } else if |b| >= 2 && b[1] != 0x4f {
      MetaExactly(b, n);
    }
  }

  lemma MetaExactly(b: Bytes, n: nat)
    requires |b| >= 2 && b[0] == ESC && b[1] != ESC && b[1] != 0x5b && b[1] != 0x4f && !StringIntroducer(b[1])
    ensures EscapeLen(b) == Some(n) <==> n <= |b| && Sequence(b[..n])
  {
    if n >= 1 {
      FirstCharExactly(b[1..], n - 1);
      if n <= |b| { assert b[1..][..n - 1] == b[..n][1..]; }
    }
    if 2 <= n <= |b| {
      assert b[..n][1] == b[1];
      assert Sequence(b[..n]) <==> MetaSequence(b[..n]);
    } else if n <= |b| {
      assert !Sequence(b[..n]);
      if n == 1 { NoEmptyChar(); }
    }
  }

  lemma NoEmptyChar()
    ensures !OneChar([])
  {
  }

  // --- Escapes in front ---

  lemma SequenceStarts(s: Bytes)
    requires Sequence(s)
    ensures |s| >= 2 && s[0] == ESC && s[1] != ESC
  {
    if MetaSequence(s) { assert s[1] != ESC; }
  }

  lemma SgrExactly(b: Bytes, m: nat)
    ensures m <= |b| && SgrSequence(b[..m]) <==> Sgr(b) && CsiLen(b, MouseFinal) == Some(m)
  {
    CsiExactly(b, MouseFinal, m);
    if 3 <= m <= |b| {
      var s := b[..m];
      SameNone(b, s, MouseFinal, 2, m - 1);
      assert !MouseFinal(0x3c);
      if Escaped(b, 0x5b) { IntroducedForms(b, s, m); }
    }
  }

  /** A report that can be read, or cannot, behind an escape is what the recogniser looks ahead for. */
  lemma ReportsBehind(b: Bytes)
    requires Escaped(b, ESC)
    ensures !UnreadableMouse(b) && EscapeBeforeMouse(b) <==> ReportFollows(b[1..])
    ensures UnreadableMouse(b) <==> exists m :: 0 <= m < |b| && UnreadableReport(b[1..][..m])
  {
    var c, n := b[1..], CsiLen(b[1..], MouseFinal);
    forall m: nat ensures m <= |c| && SgrSequence(c[..m]) <==> Sgr(c) && n == Some(m) { SgrExactly(c, m); }
    if n.Some? { assert b[1..1 + n.value] == c[..n.value]; }
    if |b| >= 7 { assert b[1..7] == c[..6]; }
    if X10(c) {
      assert !Sgr(c);
      if |c| >= 6 { assert X10Sequence(c[..6]); }
    }
    if m :| 0 <= m <= |c| && ReadableReport(c[..m]) {
      assert m >= 3 && c[..m][0] == c[0] && c[..m][1] == c[1] && c[..m][2] == c[2];
    }
  }

  /** What the grammar says of the front of a buffer. */
  ghost predicate Front(b: Bytes, n: nat) {
    n <= |b| && (EscapesAlone(b, n) || exists k: nat :: Escapes(b[..n], k))
  }

  lemma FollowStarts(b: Bytes)
    ensures ReportFollows(b) ==> |b| >= 2 && b[0] == ESC && b[1] == 0x5b
  {
    forall m | 0 <= m <= |b| && ReadableReport(b[..m]) ensures |b| >= 2 && b[0] == ESC && b[1] == 0x5b {
      assert b[..m][0] == b[0] && b[..m][1] == b[1];
    }
  }

  /** Escapes alone in front of a report, the bytes around them. */
  lemma AloneStarts(b: Bytes, n: nat)
    requires n <= |b|
    ensures EscapesAlone(b, n) ==> n < |b| && b[n] == ESC && (n >= 2 ==> b[1] == ESC) && (n >= 3 ==> b[2] == ESC)
  {
    FollowStarts(b[n..]);
    assert n >= 2 ==> b[..n][1] == b[1];
    assert n >= 3 ==> b[..n][2] == b[2];
  }

  /** Escapes in front of a sequence, the bytes around them. */
  lemma EscapesStarts(s: Bytes, k: nat)
    ensures Escapes(s, k) ==>
              k + 1 < |s| && s[k] == ESC && s[k + 1] != ESC && (k >= 2 ==> s[1] == ESC) && (k >= 3 ==> s[2] == ESC)
  {
    if Escapes(s, k) {
      SequenceStarts(s[k..]);
      assert s[k..][0] == s[k] && s[k..][1] == s[k + 1];
      assert k >= 2 ==> s[..k][1] == s[1];
      assert k >= 3 ==> s[..k][2] == s[2];
    }
  }

  lemma FrontSimple(b: Bytes, n: nat)
    requires b != [] && b[0] == ESC && !Escaped(b, ESC)
    ensures Front(b, n) <==> n <= |b| && Sequence(b[..n])
  {
    if n <= |b| {
      var s := b[..n];
      AloneStarts(b, n);
      forall k: nat ensures Escapes(s, k) ==> k == 0 { EscapesStarts(s, k); }
      assert s[0..] == s;
      if Sequence(s) {
        SequenceStarts(s);
        assert Escapes(s, 0);
      }
    }
  }

  /** In front of a report that the recogniser looks ahead for, only the escape itself can be next, and only if the
      report can be read. */
  lemma FrontReport(b: Bytes, n: nat, m: nat)
    requires Escaped(b, ESC) && 0 <= m < |b|
    requires ReadableReport(b[1..][..m]) || UnreadableReport(b[1..][..m])
    ensures Front(b, n) <==> n == 1 && ReportFollows(b[1..])
  {
    var c := b[1..];
    assert Sequence(c[..m]);
    SequenceStarts(c[..m]);
    assert c[0] == c[..m][0] && c[1] == c[..m][1] && b[2] == c[1];
    if n <= |b| {
      AloneStarts(b, n);
      forall k: nat ensures !Escapes(b[..n], k) { ReportInside(b, n, m, k); }
      assert n == 1 ==> AllEscapes(b[..n]);
    }
  }

  /** A sequence that begins where the report does is that report. */
  lemma ReportInside(b: Bytes, n: nat, m: nat, k: nat)
    requires Escaped(b, ESC) && 0 <= m < |b| && n <= |b| && b[2..] != [] && b[2] != ESC
    requires ReadableReport(b[1..][..m]) || UnreadableReport(b[1..][..m])
    ensures !Escapes(b[..n], k)
  {
    var c, s := b[1..], b[..n];
    EscapesStarts(s, k);
    if 1 < n {
      assert s[1..] == c[..n - 1];
      SimpleExactly(c, n - 1);
    }
    SimpleExactly(c, m);
  }

  /** Otherwise an escape in front belongs to what follows. */
  lemma FrontLonger(b: Bytes, n: nat)
    requires Escaped(b, ESC) && n > 0
    requires !ReportFollows(b[1..]) && forall m :: 0 <= m < |b| ==> !UnreadableReport(b[1..][..m])
    ensures Front(b, n) <==> Front(b[1..], n - 1)
  {
    var c := b[1..];
    if n <= |b| {
      var s, r := b[..n], c[..n - 1];
      assert s[0] == b[0] && s[1..] == r && b[n..] == c[n - 1..];
      if n >= 2 { AllEscapesTail(s); }
      if k: nat :| Escapes(s, k) {
        SequenceStarts(s[k..]);
        assert s[k..][0] == b[k] && s[k..][1] == b[k + 1];
        assert k > 0;
        AllEscapesTail(s[..k]);
        assert r[..k - 1] == s[..k][1..] && r[k - 1..] == s[k..];
        assert Escapes(r, k - 1);
      }
      if k: nat :| Escapes(r, k) {
        assert s[..k + 1][1..] == r[..k] && s[k + 1..] == r[k..];
        AllEscapesTail(s[..k + 1]);
        if k == 0 {
          assert r[0..] == r;
          assert !ReadableReport(c[..n - 1]) && !UnreadableReport(c[..n - 1]);
        }
        assert Escapes(s, k + 1);
      }
      if n == 1 { assert !EscapesAlone(b, 1) && !EscapesAlone(c, 0); }
    }
  }

  lemma AllEscapesTail(s: Bytes)
    requires s != []
    ensures AllEscapes(s) <==> s[0] == ESC && AllEscapes(s[1..])
  {
    if s[0] == ESC && AllEscapes(s[1..]) {
      forall i | 0 <= i < |s| ensures s[i] == ESC { if i > 0 { assert s[1..][i - 1] == ESC; } }
    }
  }

  /** The recogniser takes `n` bytes if and only if these are a sequence of the grammar, with escapes in front that
      belong to it, or escapes alone in front of a mouse report. */
  lemma {:induction false} EscapeLenExactly(b: Bytes, n: nat)
    requires b != [] && b[0] == ESC
    ensures EscapeLen(b) == Some(n) <==> Front(b, n)
    decreases |b|
  {
    if !Escaped(b, ESC) {
      SimpleExactly(b, n);
      FrontSimple(b, n);
    } else {
      ReportsBehind(b);
      if UnreadableMouse(b) {
        var m :| 0 <= m < |b| && UnreadableReport(b[1..][..m]);
        FrontReport(b, n, m);
      } else if EscapeBeforeMouse(b) {
        var m :| 0 <= m <= |b[1..]| && ReadableReport(b[1..][..m]);
        FrontReport(b, n, m);
      } else if n > 0 {
        FrontLonger(b, n);
        EscapeLenExactly(b[1..], n - 1);
      } else {
        NothingInFront(b);
      }
    }
  }

  lemma NothingInFront(b: Bytes)
    ensures !Front(b, 0)
  {
  }

  // --- Events ---

  /** An event that is no paste: what begins with an escape is a sequence of the grammar, anything else is one
      character, and its bytes can be read. */
  lemma EventExactly(p: Parsers, b: Bytes, n: nat)
    requires b != [] && !(PASTE_START <= b)
    ensures (ExtractOne(p, b).Some? && ExtractOne(p, b).value.1 == n) <==>
              if b[0] == ESC then Front(b, n) && EscapeEvent(p, b[..n]).Some?
              else n <= |b| && OneChar(b[..n]) && p.key(b[..n])
  {
    if b[0] == ESC {
      EscapeLenExactly(b, n);
    } else {
      FirstCharExactly(b, n);
      if FirstCharLen(b) == Some(n) { assert Utf8(b[..n]); }
    }
  }
}
