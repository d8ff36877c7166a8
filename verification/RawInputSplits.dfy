/** What the framer emits does not depend on how its input is cut into reads, but for two states left by a timeout. */
module RawInputSplits {
  import opened Prelude
  import opened RawInputBytes
  import opened RawInputStability
  import opened RawInputFramer

  // --- When a cut shows ---

  /** A lone escape is only noted when nothing is being thrown away. */
  predicate Good(f: Framer) { f.loneEscape ==> f.discardUntil == None }

  /** The buffer is too short to be told to be the rest of a mouse report, cannot be one of digits only, and is
      one once `x` has arrived. */
  predicate LateOrphan(b: Bytes, x: Bytes) {
    !IncompleteOrphan(b) && CompleteOrphan(b) == None && CompleteOrphan(b + x).Some?
  }

  /** More parameters than may be thrown away. */
  predicate Overflows(b: Bytes, room: nat) { |b| > room && AllParameters(b[..room]) }

  /** The cut between what the buffer holds and `x` shows: the rest of a mouse report, behind an escape that was
      flushed on its own, is recognised too late; or a tail outgrows its bound, and takes the bytes read with it. */
  predicate CutShows(f: Framer, x: Bytes) {
    || (f.loneEscape && LateOrphan(f.buffer, x))
    || (f.discardUntil == Some(OrphanedSgrMouseTail) && x != []
        && Overflows(f.buffer, SatSub(MAX_DISCARDED, f.discarded)))
  }

  // --- Tails ---

  lemma {:induction false} CsiTailSplits(b: Bytes, room: nat, x: Bytes)
    ensures var r := CsiTail(b, room);
            if r.1 then CsiTail(b + x, room) == r
            else |b| <= room && CsiTail(b + x, room) == (|b| + CsiTail(x, room - |b|).0, CsiTail(x, room - |b|).1)
  {
    if b == [] {
      assert b + x == x;
    } else if room > 0 && 0x20 <= b[0] <= 0x3f {
      CsiTailSplits(b[1..], room - 1, x);
      assert (b + x)[1..] == b[1..] + x;
    }
  }

  lemma {:induction false} OrphanTailSplits(b: Bytes, room: nat, x: Bytes)
    ensures var r := OrphanTail(b, room);
            if !r.1 then |b| <= room && OrphanTail(b + x, room)
                == (|b| + OrphanTail(x, room - |b|).0, OrphanTail(x, room - |b|).1)
            else if Overflows(b, room) then r == (|b|, true) && OrphanTail(b + x, room) == (|b| + |x|, true)
            else OrphanTail(b + x, room) == r
  {
    if b == [] {
      assert b + x == x;
    } else if room > 0 && Parameter(b[0]) {
      OrphanTailSplits(b[1..], room - 1, x);
      assert (b + x)[1..] == b[1..] + x;
      if |b| > room {
        assert b[..room] == [b[0]] + b[1..][..room - 1];
        assert Overflows(b, room) <==> Overflows(b[1..], room - 1);
      }
    } else if room > 0 && |b| > room {
      assert b[..room][0] == b[0];
    }
  }

  lemma FedTook(f: Framer, n: nat, x: Bytes)
    requires n <= |f.buffer|
    ensures Took(Fed(f, x), n) == Fed(Took(f, n), x) && Fed(f, x).buffer[..n] == f.buffer[..n]
  {
    assert (f.buffer + x)[n..] == f.buffer[n..] + x;
    assert (f.buffer + x)[..n] == f.buffer[..n];
  }

  lemma OrphanStable(b: Bytes, x: Bytes)
    requires CompleteOrphan(b).Some?
    ensures CompleteOrphan(b + x) == CompleteOrphan(b) && !IncompleteOrphan(b + x)
  {
    var n := CompleteOrphan(b).value;
    assert b <= b + x && b[..n] <= b + x;
    FindByteDetermined(b, MouseFinal, b + x);
    var report := [ESC] + b[..n];
    assert (b + x)[..n] == b[..n];
    assert report[1] == b[0] && report[2] == b[1] && n >= 3;
    assert (b + x)[2..][n - 3] == b[n - 1];
    assert !Parameter((b + x)[2..][n - 3]);
  }

  lemma StaysIncomplete(b: Bytes, x: Bytes)
    requires IncompleteOrphan(b + x)
    ensures IncompleteOrphan(b)
  {
    if |b| > 2 { assert AllParameters(b[2..]) by {
      forall i | 0 <= i < |b[2..]| ensures Parameter(b[2..][i]) { assert (b + x)[2..][i] == b[2..][i]; }
    } }
  }

  // --- One turn ---

  lemma DiscardTurnSplits(f: Framer, x: Bytes, turn: Turn)
    requires f.discardUntil.Some? && turn == DiscardTurn(f) && !CutShows(f, x)
    ensures DiscardTurn(Fed(f, x)) == if turn.Again? then Again(Fed(turn.next, x), [])
            else DiscardTurn(Fed(turn.next, x))
    ensures turn.Stop? ==> turn.next.discardUntil == f.discardUntil && turn.next.loneEscape == f.loneEscape
    ensures turn.Again? ==> turn.chunks == []
  {
    var family, room := f.discardUntil.value, SatSub(MAX_DISCARDED, f.discarded);
    if family == HostReplyCsi || family == OrphanedSgrMouseTail {
      TailTurnSplits(f, x, turn);
    } else if Terminator(f.buffer, family).Some? {
      var n := Terminator(f.buffer, family).value;
      TerminatorInside(f.buffer, family);
      assert f.buffer[..n] <= f.buffer + x;
      TerminatorDetermined(f.buffer, family, f.buffer + x);
      FedTook(f, n, x);
    }
  }

  lemma TailSplits(family: Family, b: Bytes, room: nat, x: Bytes, r: (nat, bool), s: (nat, bool))
    requires r == Tail(family, b, room) && s == Tail(family, b + x, room)
    requires family == HostReplyCsi || x == [] || !Overflows(b, room)
    ensures if r.1 then s == r
            else |b| <= room && s == (|b| + Tail(family, x, room - |b|).0, Tail(family, x, room - |b|).1)
  {
    if family == HostReplyCsi {
      CsiTailSplits(b, room, x);
    } else {
      OrphanTailSplits(b, room, x);
      if x == [] { assert b + x == b; }
    }
  }

  lemma TailTurnSplits(f: Framer, x: Bytes, turn: Turn)
    requires f.discardUntil == Some(HostReplyCsi) || f.discardUntil == Some(OrphanedSgrMouseTail)
    requires turn == DiscardTurn(f) && !CutShows(f, x)
    ensures DiscardTurn(Fed(f, x)) == if turn.Again? then Again(Fed(turn.next, x), [])
            else DiscardTurn(Fed(turn.next, x))
  {
    var family, room := f.discardUntil.value, SatSub(MAX_DISCARDED, f.discarded);
    var r, s := Tail(family, f.buffer, room), Tail(family, f.buffer + x, room);
    TailSplits(family, f.buffer, room, x, r, s);
    if r.1 {
      FedTook(f, r.0, x);
    } else {
      StoppedTail(f, x, turn.next, s, Tail(family, x, room - |f.buffer|));
    }
  }

  lemma StoppedTail(f: Framer, x: Bytes, g: Framer, s: (nat, bool), t: (nat, bool))
    requires f.discardUntil == Some(HostReplyCsi) || f.discardUntil == Some(OrphanedSgrMouseTail)
    requires g == f.(buffer := [], discarded := f.discarded + |f.buffer|)
             && |f.buffer| <= SatSub(MAX_DISCARDED, f.discarded)
    requires s == Tail(f.discardUntil.value, f.buffer + x, SatSub(MAX_DISCARDED, f.discarded))
    requires t == Tail(f.discardUntil.value, x, SatSub(MAX_DISCARDED, f.discarded) - |f.buffer|)
    requires s == (|f.buffer| + t.0, t.1)
    ensures DiscardTurn(Fed(f, x)) == DiscardTurn(Fed(g, x))
  {
    assert [] + x == x;
    assert (f.buffer + x)[s.0..] == x[t.0..];
  }

  lemma PlainTurnSplits(p: Parsers, f: Framer, x: Bytes, turn: Turn)
    requires turn == PlainTurn(p, f) && !CutShows(f, x)
    ensures PlainTurn(p, Fed(f, x)) == if turn.Again? then Again(Fed(turn.next, x), turn.chunks)
            else PlainTurn(p, Fed(turn.next, x))
    ensures turn.Stop? ==> turn.next.loneEscape == f.loneEscape
  {
    if f.discardUntil.Some? {
      DiscardTurnSplits(f, x, turn);
    } else if f.split && Escaped(f.buffer, ESC) {
      FedTook(f, 1, x);
    } else if ExtractOne(p, f.buffer).Some? {
      EventTurnSplits(p, f, x, ExtractOne(p, f.buffer).value.0, ExtractOne(p, f.buffer).value.1);
    }
  }

  lemma EventTurnSplits(p: Parsers, f: Framer, x: Bytes, e: Event, n: nat)
    requires f.discardUntil == None && !(f.split && Escaped(f.buffer, ESC)) && ExtractOne(p, f.buffer) == Some((e, n))
    ensures PlainTurn(p, Fed(f, x)) == Again(Fed(Took(f, n).(replies := Noted(f.replies, e).(held := false)), x),
                                             [f.buffer[..n]])
  {
    PrefixStable(p, f.buffer, x);
    FedTook(f, n, x);
    if Escaped(f.buffer + x, ESC) && |f.buffer| == 1 { LoneEscapeIncomplete(p, f.buffer); }
  }

  lemma LoneEscapeIncomplete(p: Parsers, b: Bytes)
    requires |b| == 1 && b[0] == ESC
    ensures ExtractOne(p, b) == None
  {
  }

  /** A turn with more input: the same turn when it goes on, and when it stops the drain goes on from there. */
  lemma TurnSplits(p: Parsers, f: Framer, x: Bytes, turn: Turn)
    requires Good(f) && turn == OneTurn(p, f) && !CutShows(f, x)
    ensures turn.Again? ==> OneTurn(p, Fed(f, x)) == Again(Fed(turn.next, x), turn.chunks)
    ensures turn.Stop? ==> OneTurn(p, Fed(f, x)) == OneTurn(p, Fed(turn.next, x))
  {
    if !f.loneEscape {
      PlainTurnSplits(p, f, x, turn);
    } else if !IncompleteOrphan(f.buffer) {
      if CompleteOrphan(f.buffer).Some? {
        OrphanStable(f.buffer, x);
        FedTook(f.(loneEscape := false), CompleteOrphan(f.buffer).value, x);
      } else {
        if IncompleteOrphan(f.buffer + x) { StaysIncomplete(f.buffer, x); }
        PlainTurnSplits(p, f.(loneEscape := false), x, turn);
      }
    }
  }

  /** Pushing two pieces one after the other. */
  function PushBoth(p: Parsers, f: Framer, a: Bytes, b: Bytes): (Framer, seq<Bytes>) {
    var first := Push(p, f, a);
    var second := Push(p, first.0, b);
    (second.0, first.1 + second.1)
  }

  lemma {:induction false} DrainSplits(p: Parsers, f: Framer, x: Bytes)
    requires Good(f) && !CutShows(f, x)
    ensures var first := Drain(p, f);
            var second := Drain(p, Fed(first.0, x));
            Drain(p, Fed(f, x)) == (second.0, first.1 + second.1)
    decreases Left(f)
  {
    var turn := OneTurn(p, f);
    TurnSplits(p, f, x, turn);
    if turn.Again? {
      TurnShrinks(p, f, turn);
      TurnCalms(p, f, turn);
      DrainSplits(p, turn.next, x);
      Associate(turn.chunks, Drain(p, turn.next).1, Drain(p, Fed(Drain(p, turn.next).0, x)).1);
    } else {
      SameTurnSameDrain(p, Fed(f, x), Fed(turn.next, x));
      Associate([], [], Drain(p, Fed(turn.next, x)).1);
      assert [] + Drain(p, Fed(turn.next, x)).1 == Drain(p, Fed(turn.next, x)).1;
    }
  }

  lemma SameTurnSameDrain(p: Parsers, f: Framer, g: Framer)
    requires OneTurn(p, f) == OneTurn(p, g)
    ensures Drain(p, f) == Drain(p, g)
  {
  }

  /** A turn that goes on ends both kinds of state in which a cut can show. */
  lemma TurnCalms(p: Parsers, f: Framer, turn: Turn)
    requires Good(f) && turn == OneTurn(p, f) && turn.Again?
    ensures turn.next.discardUntil == None && !turn.next.loneEscape
  {
    if !f.loneEscape {
      PlainShrinks(p, f, turn);
    } else if CompleteOrphan(f.buffer).None? {
      PlainShrinks(p, f.(loneEscape := false), turn);
    }
  }
}
