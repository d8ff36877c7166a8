/** The framer over whole runs: no byte is invented or reordered, and nothing is held for long. */
module RawInputRuns {
  import opened Prelude
  import opened RawInputBytes
  import opened RawInputStability
  import opened RawInputFramer
  import opened RawInputSplits

  // --- Subsequences ---

  function Flat(chunks: seq<Bytes>): Bytes {
    if chunks == [] then [] else chunks[0] + Flat(chunks[1..])
  }

  lemma {:induction false} FlatConcat(a: seq<Bytes>, b: seq<Bytes>)
    ensures Flat(a + b) == Flat(a) + Flat(b)
  {
    if a == [] {
      assert a + b == b;
    } else {
      FlatConcat(a[1..], b);
      assert (a + b)[1..] == a[1..] + b;
      RegroupBytes(a[0], Flat(a[1..]), Flat(b));
    }
  }

  lemma RegroupBytes(a: Bytes, b: Bytes, c: Bytes)
    ensures a + (b + c) == (a + b) + c
  {
  }

  lemma FlatOne(c: Bytes)
    ensures Flat([c]) == c && Flat([]) == []
  {
    assert [c][1..] == [];
  }

  /** `a` is what is left of `b` when some bytes are taken out. */
  predicate Subseq(a: Bytes, b: Bytes) {
    a == [] || (b != [] && ((a[0] == b[0] && Subseq(a[1..], b[1..])) || Subseq(a, b[1..])))
  }

  lemma {:induction false} SubseqReflexive(b: Bytes)
    ensures Subseq(b, b)
  {
    if b != [] { SubseqReflexive(b[1..]); }
  }

  lemma {:induction false} SubseqTransitive(a: Bytes, b: Bytes, c: Bytes)
    requires Subseq(a, b) && Subseq(b, c)
    ensures Subseq(a, c)
    decreases |b| + |c|
  {
    if a != [] {
      if b[0] == c[0] && Subseq(b[1..], c[1..]) {
        if a[0] == b[0] && Subseq(a[1..], b[1..]) {
          SubseqTransitive(a[1..], b[1..], c[1..]);
        } else {
          SubseqTransitive(a, b[1..], c[1..]);
        }
      } else {
        SubseqTransitive(a, b, c[1..]);
      }
    }
  }

  lemma {:induction false} SubseqConcat(a: Bytes, b: Bytes, c: Bytes, d: Bytes)
    requires Subseq(a, b) && Subseq(c, d)
    ensures Subseq(a + c, b + d)
  {
    if b == [] {
      assert a + c == c && b + d == d;
    } else {
      assert (b + d)[1..] == b[1..] + d;
      if a == [] || Subseq(a, b[1..]) {
        SubseqConcat(a, b[1..], c, d);
        if a + c != [] { assert Subseq(a + c, (b + d)[1..]); }
      } else {
        SubseqConcat(a[1..], b[1..], c, d);
        assert (a + c)[1..] == a[1..] + c;
      }
    }
  }

  lemma {:induction false} SuffixSubseq(b: Bytes, n: nat)
    requires n <= |b|
    ensures Subseq(b[n..], b)
  {
    if n == 0 {
      assert b[0..] == b;
      SubseqReflexive(b);
    } else {
      SuffixSubseq(b[1..], n - 1);
      assert b[1..][n - 1..] == b[n..];
    }
  }

  // --- What a drain does with the bytes ---

  /** Nothing is being thrown away. */
  predicate Calm(f: Framer) { !f.loneEscape && f.discardUntil == None }

  lemma TurnConserves(p: Parsers, f: Framer, turn: Turn)
    requires Calm(f) && turn == OneTurn(p, f)
    ensures Calm(turn.next)
    ensures turn.Again? ==> Flat(turn.chunks) + turn.next.buffer == f.buffer
    ensures turn.Stop? ==> turn.next == f
  {
    if turn.Again? {
      var n := if f.split && Escaped(f.buffer, ESC) then 1 else ExtractOne(p, f.buffer).value.1;
      FlatOne(f.buffer[..n]);
      assert f.buffer[..1] == [f.buffer[0]];
    }
  }

  /** The bytes that a result accounts for: emitted, and still held. */
  function Out(r: (Framer, seq<Bytes>)): Bytes { Flat(r.1) + r.0.buffer }

  lemma OutAssociates(a: Bytes, b: Bytes, c: Bytes)
    ensures a + (b + c) == (a + b) + c
  {
  }

  lemma DrainOut(p: Parsers, f: Framer, turn: Turn, rest: (Framer, seq<Bytes>))
    requires turn == OneTurn(p, f) && turn.Again? && rest == Drain(p, turn.next)
    ensures Drain(p, f) == (rest.0, turn.chunks + rest.1) && Out(Drain(p, f)) == Flat(turn.chunks) + Out(rest)
    ensures Left(turn.next) < Left(f)
  {
    TurnShrinks(p, f, turn);
    FlatConcat(turn.chunks, rest.1);
    OutAssociates(Flat(turn.chunks), Flat(rest.1), rest.0.buffer);
  }

  lemma StopOut(p: Parsers, f: Framer, next: Framer)
    requires OneTurn(p, f) == Stop(next)
    ensures Drain(p, f) == (next, []) && Out(Drain(p, f)) == next.buffer
  {
    assert [] + next.buffer == next.buffer;
  }

  /** Unless something is being thrown away a drain loses no byte. */
  lemma {:induction false} DrainConserves(p: Parsers, f: Framer)
    requires Calm(f)
    ensures Calm(Drain(p, f).0) && Out(Drain(p, f)) == f.buffer
    decreases Left(f)
  {
    var turn := OneTurn(p, f);
    TurnConserves(p, f, turn);
    if turn.Again? {
      DrainOut(p, f, turn, Drain(p, turn.next));
      DrainConserves(p, turn.next);
    } else {
      StopOut(p, f, turn.next);
    }
  }

  /** A turn that emits nothing drops bytes at the front at most. */
  lemma TurnSubseq(p: Parsers, f: Framer, turn: Turn)
    requires Good(f) && turn == OneTurn(p, f)
    ensures turn.Again? ==> Subseq(Flat(turn.chunks) + turn.next.buffer, f.buffer)
    ensures turn.Stop? ==> Subseq(turn.next.buffer, f.buffer)
    ensures Good(turn.next)
  {
    SubseqReflexive(f.buffer);
    if f.discardUntil.Some? {
      DiscardTurnDrops(f, DiscardTurn(f));
    } else if !f.loneEscape || IncompleteOrphan(f.buffer) {
      if !f.loneEscape { TurnConserves(p, f, turn); }
    } else if CompleteOrphan(f.buffer).Some? {
      var n := CompleteOrphan(f.buffer).value;
      SuffixSubseq(f.buffer, n);
      assert [] + f.buffer[n..] == f.buffer[n..];
    } else {
      var g := f.(loneEscape := false);
      assert OneTurn(p, g) == turn;
      TurnConserves(p, g, turn);
    }
  }

  lemma DiscardSuffix(f: Framer, turn: Turn, n: int)
    requires f.discardUntil.Some? && turn == DiscardTurn(f) && turn.Again?
    requires n == |f.buffer| - |turn.next.buffer|
    ensures turn.chunks == [] && 0 <= n <= |f.buffer| && turn.next.buffer == f.buffer[n..]
  {
    DiscardShrinks(f);
  }

  lemma DropsFront(b: Bytes, n: nat, rest: Bytes)
    requires n <= |b| && rest == b[n..]
    ensures Subseq([] + rest, b)
  {
    SuffixSubseq(b, n);
    assert [] + rest == rest;
  }

  lemma DiscardTurnDrops(f: Framer, turn: Turn)
    requires f.discardUntil.Some? && turn == DiscardTurn(f)
    ensures if turn.Again? then turn.chunks == [] && Subseq([] + turn.next.buffer, f.buffer)
            else Subseq(turn.next.buffer, f.buffer)
    ensures turn.next.loneEscape == f.loneEscape
  {
    if turn.Again? {
      var n := |f.buffer| - |turn.next.buffer|;
      DiscardSuffix(f, turn, n);
      DropsFront(f.buffer, n, turn.next.buffer);
    } else {
      SubseqReflexive(f.buffer);
    }
  }

  lemma {:induction false} DrainSubseq(p: Parsers, f: Framer)
    requires Good(f)
    ensures Good(Drain(p, f).0) && Subseq(Out(Drain(p, f)), f.buffer)
    decreases Left(f)
  {
    var turn := OneTurn(p, f);
    TurnSubseq(p, f, turn);
    if turn.Again? {
      DrainOut(p, f, turn, Drain(p, turn.next));
      DrainSubseq(p, turn.next);
      Later(Flat(turn.chunks), Out(Drain(p, turn.next)), turn.next.buffer, f.buffer);
    } else {
      StopOut(p, f, turn.next);
    }
  }

  lemma Later(out: Bytes, a: Bytes, b: Bytes, c: Bytes)
    requires Subseq(a, b) && Subseq(out + b, c)
    ensures Subseq(out + a, c)
  {
    SubseqReflexive(out);
    SubseqConcat(out, out, a, b);
    SubseqTransitive(out + a, out + b, c);
  }

  // --- Where a drain stops ---

  /** Draining again changes nothing. */
  predicate Settled(p: Parsers, f: Framer) { OneTurn(p, f) == Stop(f) }

  lemma {:induction false} CsiTailOpen(b: Bytes, room: nat)
    requires !CsiTail(b, room).1
    ensures |b| < room
  {
    if b != [] { CsiTailOpen(b[1..], room - 1); }
  }

  lemma {:induction false} DrainSettles(p: Parsers, f: Framer)
    ensures Settled(p, Drain(p, f).0)
    decreases Left(f)
  {
    var turn := OneTurn(p, f);
    if turn.Again? {
      TurnShrinks(p, f, turn);
      DrainSettles(p, turn.next);
    } else {
      StopSettles(p, f, turn);
    }
  }

  lemma StopSettles(p: Parsers, f: Framer, turn: Turn)
    requires turn == OneTurn(p, f) && turn.Stop?
    ensures Settled(p, turn.next)
  {
    if f.discardUntil == Some(HostReplyCsi) && !CsiTail(f.buffer, SatSub(MAX_DISCARDED, f.discarded)).1 {
      CsiTailOpen(f.buffer, SatSub(MAX_DISCARDED, f.discarded));
    }
  }

  lemma SettledDrain(p: Parsers, f: Framer)
    requires Settled(p, f)
    ensures Drain(p, f) == (f, [])
  {
  }

  // --- Cuts that show ---

  /** The exact effect of cutting the input: two reads emit what one read of both would, and leave the same state,
      in every state but those in which the cut shows. */
  lemma ChunkSplit(p: Parsers, f: Framer, a: Bytes, b: Bytes)
    requires Good(f)
    ensures PushBoth(p, f, a, b) == Push(p, f, a + b) <==> !CutShows(Fed(f, a), b)
  {
    assert f.buffer + (a + b) == (f.buffer + a) + b;
    if !CutShows(Fed(f, a), b) {
      DrainSplits(p, Fed(f, a), b);
    } else if f.loneEscape {
      LateOrphanShows(p, Fed(f, a), b);
    } else {
      OverflowShows(p, Fed(f, a), b);
    }
  }

  /** How many bytes a result accounts for. */
  function Size(r: (Framer, seq<Bytes>)): nat { |Flat(r.1)| + |r.0.buffer| }

  lemma DrainSize(p: Parsers, f: Framer)
    requires Calm(f)
    ensures Size(Drain(p, f)) == |f.buffer| && Calm(Drain(p, f).0)
  {
    DrainConserves(p, f);
  }

  lemma LateOrphanShows(p: Parsers, f: Framer, x: Bytes)
    requires Good(f) && f.loneEscape && LateOrphan(f.buffer, x)
    ensures Size(Drain(p, Fed(f, x))) < |f.buffer| + |x|
    ensures var first := Drain(p, f); var second := Drain(p, Fed(first.0, x));
            Size((second.0, first.1 + second.1)) == |f.buffer| + |x|
  {
    var calm := f.(loneEscape := false);
    SameTurnSameDrain(p, f, calm);
    var first := Drain(p, f);
    DrainSize(p, calm);
    DrainSize(p, Fed(first.0, x));
    FlatConcat(first.1, Drain(p, Fed(first.0, x)).1);
    if IncompleteOrphan(f.buffer + x) { StaysIncomplete(f.buffer, x); }
    var turn := OneTurn(p, Fed(f, x));
    TurnShrinks(p, Fed(f, x), turn);
    DrainSize(p, turn.next);
    FlatConcat(turn.chunks, Drain(p, turn.next).1);
  }

  lemma OverflowShows(p: Parsers, f: Framer, x: Bytes)
    requires !f.loneEscape && f.discardUntil == Some(OrphanedSgrMouseTail) && x != []
    requires Overflows(f.buffer, SatSub(MAX_DISCARDED, f.discarded))
    ensures Size(Drain(p, Fed(f, x))) == 0
    ensures var first := Drain(p, f); var second := Drain(p, Fed(first.0, x));
            Size((second.0, first.1 + second.1)) == |x|
  {
    OrphanTailSplits(f.buffer, SatSub(MAX_DISCARDED, f.discarded), x);
    Emptied(p, f, OneTurn(p, f));
    Emptied(p, Fed(f, x), OneTurn(p, Fed(f, x)));
    var first := Drain(p, f);
    DrainSize(p, Fed(first.0, x));
    FlatConcat(first.1, Drain(p, Fed(first.0, x)).1);
  }

  lemma Emptied(p: Parsers, f: Framer, turn: Turn)
    requires turn == OneTurn(p, f) && turn.Again? && turn.chunks == [] && turn.next.buffer == [] && Calm(turn.next)
    ensures Size(Drain(p, f)) == 0 && Calm(Drain(p, f).0) && Drain(p, f).0.buffer == [] && Flat(Drain(p, f).1) == []
  {
    TurnShrinks(p, f, turn);
    DrainConserves(p, turn.next);
    assert [] + Drain(p, turn.next).1 == Drain(p, turn.next).1;
  }

  const PLUS_START: Bytes := [0x5b, 0x3c, 0x2b]
  const PLUS_REST: Bytes := [0x30, 0x3b, 0x31, 0x3b, 0x31, 0x4d]

  /** `[<+` and then `0;1;1M`. The number parser accepts the plus sign, the test for an incomplete report does not. */
  lemma PlusIsLate()
    ensures LateOrphan(PLUS_START, PLUS_REST)
  {
    var b, x := PLUS_START, PLUS_REST;
    assert !Parameter(b[2..][0]);
    NoFinal(b);
    FinalAt(b + x, 8);
    assert [ESC] + (b + x)[..9] == PLUS_REPORT;
    AsciiIsUtf8(PLUS_REPORT);
    PlusReport();
  }

  const PLUS_REPORT: Bytes := [0x1b, 0x5b, 0x3c, 0x2b, 0x30, 0x3b, 0x31, 0x3b, 0x31, 0x4d]

  lemma PlusReport()
    ensures ParseSgrMouse(PLUS_REPORT).Some?
  {
    assert PLUS_REPORT[3..|PLUS_REPORT| - 1] == [0x2b, 0x30, 0x3b, 0x31, 0x3b, 0x31];
    PlusFields();
    assert [0x2b, 0x30][1..] == [0x30];
    DigitValue(0x30);
    DigitValue(0x31);
  }

  lemma PlusFields()
    ensures Fields([0x2b, 0x30, 0x3b, 0x31, 0x3b, 0x31]) == [[0x2b, 0x30], [0x31], [0x31]]
  {
    var payload: Bytes := [0x2b, 0x30, 0x3b, 0x31, 0x3b, 0x31];
    SemicolonAt(payload, 2);
    assert payload[..2] == [0x2b, 0x30] && payload[3..] == [0x31, 0x3b, 0x31];
    SemicolonAt(payload[3..], 1);
    assert payload[3..][..1] == [0x31] && payload[3..][2..] == [0x31];
    SemicolonAt([0x31], 1);
    assert Fields(payload[3..]) == [[0x31]] + Fields([0x31]) == [[0x31], [0x31]];
  }

  lemma DigitValue(c: byte)
    requires Digit(c)
    ensures DigitsValue([c]) == c - 0x30
  {
    assert [c][..0] == [];
  }

  lemma {:induction false} NoFinal(b: Bytes)
    requires forall i :: 0 <= i < |b| ==> !MouseFinal(b[i])
    ensures FindByte(b, MouseFinal) == None
  {
    if b != [] { NoFinal(b[1..]); }
  }

  lemma {:induction false} FinalAt(b: Bytes, n: nat)
    requires n < |b| && MouseFinal(b[n]) && forall i :: 0 <= i < n ==> !MouseFinal(b[i])
    ensures FindByte(b, MouseFinal) == Some(n)
  {
    if n > 0 { FinalAt(b[1..], n - 1); }
  }

  lemma {:induction false} SemicolonAt(b: Bytes, n: nat)
    requires n <= |b| && (n < |b| ==> Semicolon(b[n])) && forall i :: 0 <= i < n ==> !Semicolon(b[i])
    ensures FindByte(b, Semicolon) == if n < |b| then Some(n) else None
  {
    if n > 0 { SemicolonAt(b[1..], n - 1); }
  }

  lemma {:induction false} AsciiIsUtf8(b: Bytes)
    requires forall i :: 0 <= i < |b| ==> b[i] < 0x80
    ensures Utf8(b)
  {
    if b != [] { AsciiIsUtf8(b[1..]); }
  }

  // --- Any number of cuts ---

  /** A state in which no cut can show: no escape was flushed on its own, and no mouse report is thrown away. */
  predicate CutFree(f: Framer) { !f.loneEscape && f.discardUntil != Some(OrphanedSgrMouseTail) }

  function PushAll(p: Parsers, f: Framer, pieces: seq<Bytes>): (Framer, seq<Bytes>)
    decreases |pieces|
  {
    if pieces == [] then (f, [])
    else
      var first := Push(p, f, pieces[0]);
      var rest := PushAll(p, first.0, pieces[1..]);
      (rest.0, first.1 + rest.1)
  }

  lemma {:induction false} DrainCutFree(p: Parsers, f: Framer)
    requires CutFree(f)
    ensures CutFree(Drain(p, f).0)
    decreases Left(f)
  {
    var turn := OneTurn(p, f);
    if turn.Again? {
      TurnShrinks(p, f, turn);
      TurnCalms(p, f, turn);
      DrainCutFree(p, turn.next);
    } else if f.discardUntil.None? {
      TurnConserves(p, f, turn);
    }
  }

  /** However the input is cut, the framer emits the same chunks and ends in the same state. */
  lemma {:induction false} CutsDoNotShow(p: Parsers, f: Framer, pieces: seq<Bytes>)
    requires CutFree(f) && pieces != []
    ensures PushAll(p, f, pieces) == Push(p, f, Flat(pieces))
    decreases |pieces|
  {
    var first := Push(p, f, pieces[0]);
    if |pieces| == 1 {
      assert pieces[0] + Flat(pieces[1..]) == pieces[0];
      assert first.1 + [] == first.1;
    } else {
      DrainCutFree(p, Fed(f, pieces[0]));
      CutsDoNotShow(p, first.0, pieces[1..]);
      ChunkSplit(p, f, pieces[0], Flat(pieces[1..]));
    }
  }

  // --- Timeouts ---

  /** A timeout emits all of what is held, keeps all of it, drops it from the front, or keeps one last escape. */
  predicate Idled(b: Bytes, r: (Framer, seq<Bytes>)) {
    || (r.0.buffer == [] && r.1 == [b])
    || (r.1 == [] && |r.0.buffer| <= |b| && r.0.buffer == b[|b| - |r.0.buffer|..])
  }

  lemma IdledDrops(b: Bytes, r: (Framer, seq<Bytes>))
    requires Idled(b, r)
    ensures Subseq(Out(r), b)
  {
    if r.1 == [] {
      SuffixSubseq(b, |b| - |r.0.buffer|);
      assert [] + r.0.buffer == r.0.buffer;
    } else {
      FlatOne(b);
      SubseqReflexive(b);
      assert b + [] == b;
    }
  }

  lemma IdleDrops(p: Parsers, f: Framer)
    ensures Idled(f.buffer, FlushIdle(p, f))
  {
    assert f.buffer[0..] == f.buffer && f.buffer[|f.buffer|..] == [];
    if f.discardUntil.Some? {
      DiscardKeepsLast(f);
    } else if f.buffer != [] {
      IntroducedIdles(p, f);
    }
  }

  lemma DiscardKeepsLast(f: Framer)
    requires f.discardUntil.Some?
    ensures Idled(f.buffer, (FlushDiscarding(f), []))
  {
    assert f.buffer[0..] == f.buffer && f.buffer[|f.buffer|..] == [];
    if EndsWithEscape(f.buffer) { assert f.buffer[|f.buffer| - 1..] == [ESC]; }
  }

  lemma IntroducedIdles(p: Parsers, f: Framer)
    requires f.buffer != []
    ensures Idled(f.buffer, FlushIntroduced(p, f))
  {
    assert f.buffer[0..] == f.buffer && f.buffer[|f.buffer|..] == [];
  }

  lemma FlushSubseq(p: Parsers, f: Framer)
    requires Good(f)
    ensures Subseq(Out(Flush(p, f)), f.buffer)
  {
    var drained := Drain(p, f);
    var flushed := FlushIdle(p, drained.0);
    DrainSubseq(p, f);
    IdleDrops(p, drained.0);
    IdledDrops(drained.0.buffer, flushed);
    FlatConcat(drained.1, flushed.1);
    OutAssociates(Flat(drained.1), Flat(flushed.1), flushed.0.buffer);
    Later(Flat(drained.1), Out(flushed), drained.0.buffer, f.buffer);
  }

  /** A lone escape is still only noted when nothing is being thrown away. */
  lemma FlushGood(p: Parsers, f: Framer)
    requires Good(f)
    ensures Good(Flush(p, f).0)
  {
    DrainSubseq(p, f);
    DrainSettles(p, f);
    IdleGood(p, Drain(p, f).0);
  }

  lemma IdleGood(p: Parsers, f: Framer)
    requires Good(f) && Settled(p, f)
    ensures Good(FlushIdle(p, f).0)
  {
    if f.loneEscape {
      assert IncompleteOrphan(f.buffer);
      if f.buffer == [0x5b] { BracketIdles(p, f); }
    } else if f.discardUntil == None && f.buffer != [] {
      IntroducedGood(p, f);
    }
  }

  lemma BracketIdles(p: Parsers, f: Framer)
    requires f.buffer == [0x5b] && f.discardUntil == None
    ensures FlushIdle(p, f) == FlushText(p, f) && FlushText(p, f).0.discardUntil == None
  {
  }

  lemma IntroducedGood(p: Parsers, f: Framer)
    requires f.buffer != [] && !f.loneEscape && f.discardUntil == None
    ensures Good(FlushIntroduced(p, f).0)
  {
  }

  // --- Runs ---

  datatype Op = Read(data: Bytes) | Timeout | ColorQuery | CellSizeQuery | Enabling(track: bool, focus: bool)

  function Step(p: Parsers, f: Framer, op: Op): (Framer, seq<Bytes>) {
    match op
    case Read(data) => Push(p, f, data)
    case Timeout => Flush(p, f)
    case ColorQuery => (f.(replies := ColorQuerySent(f.replies)), [])
    case CellSizeQuery => (f.(replies := CellSizeQuerySent(f.replies)), [])
    case Enabling(track, focus) =>
      (f.(replies := f.replies.(tracking := f.replies.tracking || track, onFocus := f.replies.onFocus || focus)), [])
  }

  function Run(p: Parsers, f: Framer, ops: seq<Op>): (Framer, seq<Bytes>)
    decreases |ops|
  {
    if ops == [] then (f, [])
    else
      var first := Step(p, f, ops[0]);
      var rest := Run(p, first.0, ops[1..]);
      (rest.0, first.1 + rest.1)
  }

  function ReadBy(op: Op): Bytes { if op.Read? then op.data else [] }

  function AllRead(ops: seq<Op>): Bytes {
    if ops == [] then [] else ReadBy(ops[0]) + AllRead(ops[1..])
  }

  lemma StepSubseq(p: Parsers, f: Framer, op: Op)
    requires Good(f)
    ensures Good(Step(p, f, op).0) && Subseq(Out(Step(p, f, op)), f.buffer + ReadBy(op))
    ensures Calm(f) && !op.Timeout? ==> Calm(Step(p, f, op).0) && Out(Step(p, f, op)) == f.buffer + ReadBy(op)
  {
    assert f.buffer + [] == f.buffer == [] + f.buffer;
    SubseqReflexive(f.buffer);
    if op.Read? {
      DrainSubseq(p, Fed(f, op.data));
      if Calm(f) { DrainConserves(p, Fed(f, op.data)); }
    } else if op.Timeout? {
      FlushSubseq(p, f);
      FlushGood(p, f);
    }
  }

  lemma RunOut(p: Parsers, f: Framer, ops: seq<Op>, first: (Framer, seq<Bytes>), rest: (Framer, seq<Bytes>))
    requires ops != [] && first == Step(p, f, ops[0]) && rest == Run(p, first.0, ops[1..])
    ensures Run(p, f, ops).0 == rest.0 && Out(Run(p, f, ops)) == Flat(first.1) + Out(rest)
  {
    FlatConcat(first.1, rest.1);
    OutAssociates(Flat(first.1), Flat(rest.1), rest.0.buffer);
  }

  /** Over every run, what was emitted, in order, and what is still held are the bytes that were read less some
      that were dropped: none is invented, repeated or reordered. Without a timeout none is dropped. */
  lemma {:induction false} EveryRun(p: Parsers, f: Framer, ops: seq<Op>)
    requires Good(f)
    ensures Good(Run(p, f, ops).0) && Subseq(Out(Run(p, f, ops)), f.buffer + AllRead(ops))
    ensures Calm(f) && Timeout !in ops ==> Calm(Run(p, f, ops).0) && Out(Run(p, f, ops)) == f.buffer + AllRead(ops)
    decreases |ops|
  {
    if ops == [] {
      SubseqReflexive(f.buffer);
      assert [] + f.buffer == f.buffer == f.buffer + [];
    } else {
      var first := Step(p, f, ops[0]);
      var rest := Run(p, first.0, ops[1..]);
      StepSubseq(p, f, ops[0]);
      EveryRun(p, first.0, ops[1..]);
      RunOut(p, f, ops, first, rest);
      SubseqReflexive(AllRead(ops[1..]));
      SubseqConcat(Out(first), f.buffer + ReadBy(ops[0]), AllRead(ops[1..]), AllRead(ops[1..]));
      OutAssociates(f.buffer, ReadBy(ops[0]), AllRead(ops[1..]));
      OutAssociates(Flat(first.1), first.0.buffer, AllRead(ops[1..]));
      Later(Flat(first.1), Out(rest), first.0.buffer + AllRead(ops[1..]), f.buffer + AllRead(ops));
    }
  }
}
