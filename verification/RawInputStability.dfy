/**
 What a recogniser decides about the front of a buffer stays decided: more input does not change it, and neither
 does cutting the buffer after the recognised bytes, with one exception that is characterised exactly.
 */
module RawInputStability {
  import opened Prelude
  import opened RawInputBytes

  // --- Searches depend on what they consumed only ---

  lemma {:induction false} FindDetermined(b: Bytes, needle: Bytes, c: Bytes)
    requires needle != [] && Find(b, needle).Some? && b[..Find(b, needle).value + |needle|] <= c
    ensures Find(c, needle) == Find(b, needle)
  {
    var n := Find(b, needle).value + |needle|;
    Agree(b, n, c);
    if !(needle <= b) {
      assert Find(b[1..], needle).value + |needle| == n - 1;
      TailAgrees(b, n, c);
      FindDetermined(b[1..], needle, c[1..]);
    }
  }

  lemma Agree(b: Bytes, n: nat, c: Bytes)
    requires n <= |b| && b[..n] <= c
    ensures |c| >= n && c[..n] == b[..n] && forall i :: 0 <= i < n ==> b[i] == c[i]
  {
    forall i | 0 <= i < n ensures b[i] == c[i] { assert b[..n][i] == c[i]; }
  }

  lemma TailAgrees(b: Bytes, n: nat, c: Bytes)
    requires 1 <= n <= |b| && b[..n] <= c
    ensures c != [] && b[1..][..n - 1] <= c[1..]
  {
    Agree(b, n, c);
    assert b[1..][..n - 1] == b[..n][1..];
  }

  lemma {:induction false} FindByteDetermined(b: Bytes, wanted: byte -> bool, c: Bytes)
    requires FindByte(b, wanted).Some? && b[..FindByte(b, wanted).value + 1] <= c
    ensures FindByte(c, wanted) == FindByte(b, wanted)
  {
    var n := FindByte(b, wanted).value + 1;
    Agree(b, n, c);
    if !wanted(b[0]) {
      TailAgrees(b, n, c);
      FindByteDetermined(b[1..], wanted, c[1..]);
    }
  }

  lemma CsiLenDetermined(b: Bytes, final: byte -> bool, c: Bytes)
    requires CsiLen(b, final).Some? && b[..CsiLen(b, final).value] <= c
    ensures CsiLen(c, final) == CsiLen(b, final) && CsiLen(b, final).value <= |b|
  {
    var n := CsiLen(b, final).value;
    Agree(b, n, c);
    assert b[2..][..n - 2] == b[..n][2..];
    assert b[..n][2..] <= c[2..];
    FindByteDetermined(b[2..], final, c[2..]);
  }

  lemma Shorter(b: Bytes, n: nat, c: Bytes, m: nat)
    requires m <= n <= |b| && b[..n] <= c
    ensures b[..m] <= c && m <= |c| && c[..m] <= b
  {
    Agree(b, n, c);
  }

  lemma FindInto(b: Bytes, needle: Bytes, c: Bytes, n: nat)
    requires needle != [] && n <= |b| && b[..n] <= c && Find(b, needle).Some? && Find(b, needle).value + |needle| <= n
    ensures Find(c, needle) == Find(b, needle)
  {
    Shorter(b, n, c, Find(b, needle).value + |needle|);
    FindDetermined(b, needle, c);
  }

  /** Two buffers that agree on `n` bytes find the same within these. */
  lemma FindWithin(b: Bytes, needle: Bytes, c: Bytes, n: nat)
    requires needle != [] && n <= |b| && b[..n] <= c
    ensures var f, g := Find(b, needle), Find(c, needle);
            (f.Some? && f.value + |needle| <= n) || (g.Some? && g.value + |needle| <= n) ==> f == g
  {
    Shorter(b, n, c, n);
    var f, g := Find(b, needle), Find(c, needle);
    if f.Some? && f.value + |needle| <= n {
      FindInto(b, needle, c, n);
    } else if g.Some? && g.value + |needle| <= n {
      FindInto(c, needle, b, n);
    }
  }

  lemma FindByteWithin(b: Bytes, wanted: byte -> bool, c: Bytes, n: nat)
    requires n <= |b| && b[..n] <= c
    ensures var f, g := After(FindByte(b, wanted), 1), After(FindByte(c, wanted), 1);
            (f.Some? && f.value <= n) || (g.Some? && g.value <= n) ==> f == g
  {
    var f, g := After(FindByte(b, wanted), 1), After(FindByte(c, wanted), 1);
    if f.Some? && f.value <= n {
      Shorter(b, n, c, f.value);
      FindByteDetermined(b, wanted, c);
    } else if g.Some? && g.value <= n {
      Shorter(b, n, c, g.value);
      FindByteDetermined(c, wanted, b);
    }
  }

  lemma OscDetermined(b: Bytes, c: Bytes)
    requires OscTerminator(b).Some? && OscTerminator(b).value <= |b| && b[..OscTerminator(b).value] <= c
    ensures OscTerminator(c) == OscTerminator(b)
  {
    FindWithin(b, ST, c, OscTerminator(b).value);
    FindByteWithin(b, Bell, c, OscTerminator(b).value);
  }

  lemma TerminatorDetermined(b: Bytes, family: Family, c: Bytes)
    requires Terminator(b, family).Some?
    ensures 1 <= Terminator(b, family).value <= |b|
    ensures b[..Terminator(b, family).value] <= c ==> Terminator(c, family) == Terminator(b, family)
  {
    if b[..Terminator(b, family).value] <= c {
      match family
      case Osc => OscDetermined(b, c);
      case StTerminated => FindDetermined(b, ST, c);
      case HostReplyCsi =>
      case OrphanedSgrMouseTail => FindByteDetermined(b, MouseFinal, c);
    }
  }

  lemma FirstCharDetermined(b: Bytes, c: Bytes)
    requires FirstCharLen(b).Some? && b[..FirstCharLen(b).value] <= c
    ensures FirstCharLen(c) == FirstCharLen(b)
  {
    Agree(b, FirstCharLen(b).value, c);
  }

  // --- Escape sequences ---

  predicate AllEscapes(b: Bytes) { forall i :: 0 <= i < |b| ==> b[i] == ESC }

  /** `c` goes on as `b` does for `n` bytes, and beyond them when these are escapes only. */
  predicate Continues(b: Bytes, n: nat, c: Bytes)
    requires n <= |b|
  {
    b[..n] <= c && (AllEscapes(b[..n]) ==> b <= c)
  }

  lemma NoReportBefore(b: Bytes, c: Bytes)
    requires Escaped(b, ESC) && !UnreadableMouse(b) && !EscapeBeforeMouse(b)
    requires EscapeLen(b[1..]).Some? && Continues(b, EscapeLen(b[1..]).value + 1, c)
    ensures Escaped(c, ESC) && !UnreadableMouse(c) && !EscapeBeforeMouse(c)
  {
    var n := EscapeLen(b[1..]).value + 1;
    Agree(b, n, c);
    assert b[..n][0] == ESC && b[..n][1] == ESC;
    if Sgr(c[1..]) {
      assert c[2] == 0x5b && c[3] == 0x3c;
      SecondIsIntroducer(b, n, c);
      assert b[1..][..n - 1] == b[..n][1..];
      CsiLenDetermined(b[1..], MouseFinal, c[1..]);
      assert c[1..n] == c[..n][1..] == b[1..n];
    } else if X10(c[1..]) {
      assert c[2] == 0x5b && c[3] == 0x4d;
      SecondIsIntroducer(b, n, c);
      assert c[1..7] == c[..7][1..] == b[1..7];
    }
  }

  /** When one buffer shows a control sequence behind an escape, so does the other, whole. */
  lemma SecondIsIntroducer(b: Bytes, n: nat, c: Bytes)
    requires Escaped(b, ESC) && EscapeLen(b[1..]) == Some(n - 1) && n >= 2 && Continues(b, n, c)
    requires |c| >= 4 && c[2] == 0x5b
    ensures n >= 4 && b[2] == c[2] && b[3] == c[3]
  {
    Agree(b, n, c);
    if n < 3 {
      assert AllEscapes(b[..n]);
    } else {
      assert Escaped(b[1..], 0x5b);
    }
  }

  lemma {:induction false} EscapeLenDetermined(b: Bytes, c: Bytes)
    requires b != [] && b[0] == ESC && EscapeLen(b).Some? && Continues(b, EscapeLen(b).value, c)
    ensures c != [] && EscapeLen(c) == EscapeLen(b)
  {
    var n := EscapeLen(b).value;
    Agree(b, n, c);
    if EscapeBeforeMouse(b) {
      assert AllEscapes(b[..1]);
      BeforeMouseStays(b, c);
    } else if Escaped(b, ESC) {
      NoReportBefore(b, c);
      TailAgrees(b, n, c);
      if AllEscapes(b[1..][..n - 1]) {
        assert AllEscapes(b[..n]) by {
          forall i | 0 <= i < n ensures b[..n][i] == ESC { if i > 0 { assert b[1..][..n - 1][i - 1] == ESC; } }
        }
        assert b[1..] <= c[1..];
      }
      EscapeLenDetermined(b[1..], c[1..]);
    } else {
      SimpleEscapeDetermined(b, c);
    }
  }

  lemma BeforeMouseStays(b: Bytes, c: Bytes)
    requires EscapeBeforeMouse(b) && !UnreadableMouse(b) && b <= c
    ensures EscapeBeforeMouse(c) && !UnreadableMouse(c)
  {
    assert forall i :: 0 <= i < |b| ==> b[i] == c[i];
    if Escaped(b, ESC) && Sgr(b[1..]) {
      var n := CsiLen(b[1..], MouseFinal).value;
      assert b[1..][..n] <= c[1..];
      CsiLenDetermined(b[1..], MouseFinal, c[1..]);
      assert c[1..1 + n] == b[1..1 + n];
    } else {
      assert c[1..7] == b[1..7];
    }
  }

  lemma SimpleEscapeDetermined(b: Bytes, c: Bytes)
    requires b != [] && b[0] == ESC && EscapeLen(b).Some? && b[..EscapeLen(b).value] <= c
    requires !EscapeBeforeMouse(b) && !(Escaped(b, ESC))
    ensures c != [] && EscapeLen(c) == EscapeLen(b)
  {
    var n := EscapeLen(b).value;
    Agree(b, n, c);
    if Escaped(b, 0x5b) {
      if Sgr(b) {
        CsiLenDetermined(b, MouseFinal, c);
      } else if !(X10(b)) {
        CsiLenDetermined(b, CsiFinal, c);
      }
    } else if ControlFamily(b).Some? {
      TerminatorDetermined(b, ControlFamily(b).value, c);
      TerminatorLong(b, ControlFamily(b).value);
    } else if !(Escaped(b, 0x4f)) {
      TailAgrees(b, n, c);
      FirstCharDetermined(b[1..], c[1..]);
    }
  }

  /** A control string ends behind its introducer. */
  lemma TerminatorLong(b: Bytes, family: Family)
    requires ControlFamily(b) == Some(family) && Terminator(b, family).Some?
    ensures Terminator(b, family).value >= 2
  {
    assert b[0] == ESC;
  }

  // --- Events ---

  lemma ExtractContinues(p: Parsers, b: Bytes, c: Bytes)
    requires ExtractOne(p, b).Some? && Continues(b, ExtractOne(p, b).value.1, c)
    ensures ExtractOne(p, c) == ExtractOne(p, b)
  {
    var n := ExtractOne(p, b).value.1;
    Agree(b, n, c);
    if PASTE_START <= b {
      PasteContinues(b, c);
    } else if b[0] == ESC {
      EscapeLenDetermined(b, c);
      if PASTE_START <= c { PasteFromStart(b, n, c); }
    } else {
      FirstCharDetermined(b, c);
    }
  }

  lemma PasteContinues(b: Bytes, c: Bytes)
    requires PASTE_START <= b && Find(b, PASTE_END).Some? && b[..Find(b, PASTE_END).value + 6] <= c
    ensures PASTE_START <= c && Find(c, PASTE_END) == Find(b, PASTE_END) && Find(b, PASTE_END).value >= 6
    ensures c[6..Find(b, PASTE_END).value] == b[6..Find(b, PASTE_END).value]
  {
    var i := Find(b, PASTE_END).value;
    EndAfterStart(b);
    FindDetermined(b, PASTE_END, c);
    PrefixKept(PASTE_START, b, i + 6, c);
    SliceKept(b, i + 6, c, 6, i);
  }

  lemma PrefixKept(prefix: Bytes, b: Bytes, n: nat, c: Bytes)
    requires prefix <= b && |prefix| <= n <= |b| && b[..n] <= c
    ensures prefix <= c
  {
    Agree(b, n, c);
  }

  lemma SliceKept(b: Bytes, n: nat, c: Bytes, lo: nat, hi: nat)
    requires lo <= hi <= n <= |b| && b[..n] <= c
    ensures hi <= |c| && c[lo..hi] == b[lo..hi]
  {
    Agree(b, n, c);
  }

  /** A complete sequence begins a paste when what goes on from it does. */
  lemma PasteFromStart(b: Bytes, n: nat, c: Bytes)
    requires b != [] && b[0] == ESC && EscapeLen(b) == Some(n) && Continues(b, n, c) && PASTE_START <= c
    ensures PASTE_START <= b
  {
    Agree(b, n, c);
    assert forall i :: 0 <= i < 6 ==> c[i] == PASTE_START[i];
    assert |b| >= 2 && b <= c ==> b[1] == c[1];
    if n == 1 { SingleEscape(b); }
    IntroducedFinal(b, n);
    PasteBytes(b, n, c);
  }

  lemma SingleEscape(b: Bytes)
    requires b != [] && b[0] == ESC && EscapeLen(b) == Some(1)
    ensures |b| >= 2 && b[1] == ESC && AllEscapes(b[..1])
  {
  }

  lemma PasteBytes(b: Bytes, n: nat, c: Bytes)
    requires n <= |b| && n <= |c| && forall i :: 0 <= i < n ==> b[i] == c[i]
    requires |c| >= 6 && forall i :: 0 <= i < 6 ==> c[i] == PASTE_START[i]
    requires n >= 6 || (n >= 3 && CsiFinal(b[n - 1]))
    ensures PASTE_START <= b
  {
  }

  lemma IntroducedFinal(b: Bytes, n: nat)
    requires |b| >= 2 && b[0] == ESC && b[1] == 0x5b && EscapeLen(b) == Some(n)
    ensures n >= 3 && (n >= 6 || CsiFinal(b[n - 1]))
  {
  }

  /** More input changes nothing about an event that is complete. */
  lemma PrefixStable(p: Parsers, b: Bytes, x: Bytes)
    requires ExtractOne(p, b).Some?
    ensures ExtractOne(p, b + x) == ExtractOne(p, b)
  {
    var n := ExtractOne(p, b).value.1;
    assert b <= b + x && b[..n] <= b + x;
    ExtractContinues(p, b, b + x);
  }

  /** The bytes of an event, read again on their own, are that event, except when they are escapes only: then they
      are not an event of their own. */
  lemma ChunkReparses(p: Parsers, b: Bytes)
    requires ExtractOne(p, b).Some?
    ensures var n := ExtractOne(p, b).value.1;
            if AllEscapes(b[..n]) then ExtractOne(p, b[..n]) == None else ExtractOne(p, b[..n]) == ExtractOne(p, b)
  {
    var n := ExtractOne(p, b).value.1;
    if AllEscapes(b[..n]) {
      assert b[..n][0] == ESC;
      EscapesIncomplete(b[..n]);
    } else {
      ExtractContinues(p, b, b[..n]);
    }
  }

  lemma {:induction false} EscapesIncomplete(b: Bytes)
    requires b != [] && AllEscapes(b)
    ensures EscapeLen(b) == None && !(PASTE_START <= b)
  {
    if |b| > 1 {
      EscapesIncomplete(b[1..]);
      assert b[1] == ESC;
      if |b| > 2 { assert b[2] == ESC; }
    }
  }

  /** Exactly the complete bracketed pastes of text are taken as one paste from end to end. */
  lemma CompletePasteIsOneEvent(p: Parsers, b: Bytes)
    ensures IsCompletePaste(b)
            <==> (ExtractOne(p, b).Some? && ExtractOne(p, b).value.0.Paste? && ExtractOne(p, b).value.1 == |b|)
  {
    if PASTE_START <= b && Find(b, PASTE_END).Some? { EndAfterStart(b); }
  }
}
