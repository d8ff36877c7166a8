/**
 A reader of the rendered bytes, written from the key table of the kitty terminal graphics protocol ("Control data
 reference"): it splits the stream into cursor moves and packets, the control text into keys and values, joins the
 chunks of a transfer, and gives back the commands. What the encoder renders is read as exactly the commands that it was
 made from.
 */
module KittyReader {
  import opened Prelude
  import opened KittyProtocol
  import opened KittyWire
  import opened GraphicsSpec
  import opened GraphicsMirror
  import opened GraphicsBudget
  import Clipping

  // --- Numbers ---

  function DigitOf(c: char): Option<nat> {
    if '0' <= c <= '9' then Some(c as int - '0' as int) else None
  }

  function ReadNat(s: string): Option<nat> {
    if s == "" then None
    else
      var n := |s| - 1;
      var last := DigitOf(s[n]);
      if last.None? then None
      else if n == 0 then last
      else
        var front := ReadNat(s[..n]);
        if front.None? then None else Some(10 * front.value + last.value)
  }

  lemma DigitRead(d: nat)
    requires d < 10
    ensures DigitOf(Digit(d)) == Some(d)
  {
  }

  lemma NextDigit(front: string, v: nat, d: nat)
    requires front != "" && ReadNat(front) == Some(v) && d < 10
    ensures ReadNat(front + [Digit(d)]) == Some(10 * v + d)
  {
    var s := front + [Digit(d)];
    DigitRead(d);
    assert s[..|s| - 1] == front;
  }

  lemma {:induction false} NatRead(n: nat)
    ensures ReadNat(Decimal(n)) == Some(n)
  {
    if n < 10 {
      DigitRead(n);
    } else {
      NatRead(n / 10);
      NextDigit(Decimal(n / 10), n / 10, n % 10);
    }
  }

  predicate Digits(s: string) { forall c :: c in s ==> '0' <= c <= '9' }

  lemma {:induction false} DecimalDigits(n: nat)
    ensures Digits(Decimal(n))
  {
    DigitRead(n % 10);
    if n >= 10 { DecimalDigits(n / 10); }
  }

  function ReadInt(s: string): Option<int> {
    if s != "" && s[0] == '-' then
      var n := ReadNat(s[1..]);
      if n.None? then None else Some(0 - n.value)
    else
      var n := ReadNat(s);
      if n.None? then None else Some(n.value)
  }

  lemma IntRead(z: int)
    ensures ReadInt(Signed(z)) == Some(z)
  {
    NatRead(if z < 0 then -z else z);
    DecimalDigits(if z < 0 then -z else z);
    if z < 0 {
      assert Signed(z)[1..] == Decimal(-z);
    } else {
      assert Decimal(z)[0] in Decimal(z);
    }
  }

  // --- Control text ---

  /** A key and its value. */
  type Pair = (char, string)

  /** The pairs of a control text, between commas. */
  function ReadPairs(s: string): Option<seq<Pair>>
    decreases |s|
  {
    var comma := IndexOf(s, ',');
    var field := s[..comma];
    if |field| < 2 || field[1] != '=' then None
    else if comma == |s| then Some([(field[0], field[2..])])
    else
      var rest := ReadPairs(s[comma + 1..]);
      if rest.None? then None else Some([(field[0], field[2..])] + rest.value)
  }

  function PairText(p: Pair): string { [p.0] + "=" + p.1 }

  function CommaText(p: Pair): string { "," + PairText(p) }

  /** Each pair behind a comma. */
  function PairTail(ps: seq<Pair>): string { Chain(CommaText, ps) }

  function PairsText(ps: seq<Pair>): string
    requires ps != []
  {
    PairText(ps[0]) + PairTail(ps[1..])
  }

  predicate NoComma(ps: seq<Pair>) {
    forall p :: p in ps ==> p.0 != ',' && ',' !in p.1
  }

  lemma FieldRead(p: Pair)
    ensures |PairText(p)| >= 2 && PairText(p)[1] == '=' && PairText(p)[0] == p.0 && PairText(p)[2..] == p.1
    ensures p.0 != ',' && ',' !in p.1 ==> ',' !in PairText(p)
  {
  }

  /** One field in front of a comma, or alone. */
  lemma FirstField(p: Pair, field: string, rest: string, s: string)
    requires ',' !in field && |field| >= 2 && field[1] == '=' && field[0] == p.0 && field[2..] == p.1
    ensures s == field ==> ReadPairs(s) == Some([p])
    ensures s == field + [','] + rest && ReadPairs(rest).Some? ==> ReadPairs(s) == Some([p] + ReadPairs(rest).value)
  {
    if s == field {
      NoIndex(field, ',');
      assert s[..|s|] == s;
    } else if s == field + [','] + rest {
      CutAt(field, ',', rest, s);
    }
  }

  lemma {:induction false} PairsRead(ps: seq<Pair>)
    requires ps != [] && NoComma(ps)
    ensures ReadPairs(PairsText(ps)) == Some(ps)
    decreases |ps|
  {
    assert ps[0] in ps;
    FieldRead(ps[0]);
    if |ps| == 1 {
      LastPair(ps);
    } else {
      PairsRead(ps[1..]);
      NextPair(ps);
      OneMore(ps, PairText(ps[0]), PairsText(ps[1..]), PairsText(ps));
    }
  }

  lemma LastPair(ps: seq<Pair>)
    requires |ps| == 1 && ',' !in PairText(ps[0])
    ensures ReadPairs(PairsText(ps)) == Some(ps)
  {
    FieldRead(ps[0]);
    FirstField(ps[0], PairText(ps[0]), "", PairText(ps[0]));
    assert ps == [ps[0]] && PairTail(ps[1..]) == "";
    assert PairsText(ps) == PairText(ps[0]);
  }

  lemma OneMore(ps: seq<Pair>, field: string, rest: string, s: string)
    requires |ps| > 1 && ',' !in field && |field| >= 2 && field[1] == '=' && field[0] == ps[0].0
             && field[2..] == ps[0].1
    requires s == field + [','] + rest && ReadPairs(rest) == Some(ps[1..])
    ensures ReadPairs(s) == Some(ps)
  {
    FirstField(ps[0], field, rest, s);
    assert [ps[0]] + ps[1..] == ps;
  }

  lemma NextPair(ps: seq<Pair>)
    requires |ps| > 1
    ensures PairsText(ps) == PairText(ps[0]) + [','] + PairsText(ps[1..])
  {
    var next := ps[1..];
    assert PairTail(next) == CommaText(next[0]) + PairTail(next[1..]);
    Regroup([','], PairText(next[0]), PairTail(next[1..]));
    Regroup(PairText(ps[0]), [','], PairsText(next));
  }

  lemma {:induction false} NoIndex(s: string, c: char)
    requires c !in s
    ensures IndexOf(s, c) == |s|
  {
    if s != "" { NoIndex(s[1..], c); }
  }

  /** The value of a key, if the text has it. */
  function Get(ps: seq<Pair>, key: char): Option<string> {
    if ps == [] then None else if ps[0].0 == key then Some(ps[0].1) else Get(ps[1..], key)
  }

  lemma {:induction false} GetConcat(a: seq<Pair>, b: seq<Pair>, key: char)
    ensures Get(a + b, key) == if Get(a, key).Some? then Get(a, key) else Get(b, key)
  {
    if a == [] {
      assert a + b == b;
    } else {
      GetConcat(a[1..], b, key);
      assert (a + b)[1..] == a[1..] + b;
    }
  }

  function Number(ps: seq<Pair>, key: char): Option<u32> {
    var text := Get(ps, key);
    if text.None? then None
    else
      var n := ReadNat(text.value);
      if n.None? || n.value > U32_MAX then None else Some(n.value)
  }

  /** Keys that may be left out count as zero. */
  function NumberOrZero(ps: seq<Pair>, key: char): Option<u32> {
    if Get(ps, key).None? then Some(0) else Number(ps, key)
  }

  function Depth(ps: seq<Pair>): Option<i32> {
    var text := Get(ps, 'z');
    if text.None? then Some(0)
    else
      var n := ReadInt(text.value);
      if n.None? || !(-0x8000_0000 <= n.value < 0x8000_0000) then None else Some(n.value)
  }

  // --- Tokens ---

  /** The stream is made of cursor moves and packets. */
  datatype Token = Move(row: nat, column: nat) | Apc(packet: Packet)

  function TokenText(t: Token): string {
    match t
    case Move(row, column) => [ESC] + "[" + Decimal(row) + ";" + Decimal(column) + "H"
    case Apc(p) => Frame(p)
  }

  function TokensText(ts: seq<Token>): string { Chain(TokenText, ts) }

  /** `row ; column H`, and what follows it. */
  function ReadPosition(body: string): (r: Option<(Token, string)>)
    ensures r.Some? ==> |r.value.1| < |body|
  {
    var semi := IndexOf(body, ';');
    if semi == |body| then None
    else
      var tail := body[semi + 1..];
      var end := IndexOf(tail, 'H');
      if end == |tail| then None
      else
        var row, column := ReadNat(body[..semi]), ReadNat(tail[..end]);
        if row.None? || column.None? then None else Some((Move(row.value, column.value), tail[end + 1..]))
  }

  function ReadToken(s: string): (r: Option<(Token, string)>)
    ensures r.Some? ==> |r.value.1| < |s|
  {
    if |s| >= 2 && s[..2] == [ESC] + "[" then ReadPosition(s[2..])
    else
      var first := SplitOne(s);
      if first.None? then None else Some((Apc(first.value.0), first.value.1))
  }

  function ReadTokens(s: string): Option<seq<Token>>
    decreases |s|
  {
    if s == "" then Some([])
    else
      var first := ReadToken(s);
      if first.None? then None
      else
        var rest := ReadTokens(first.value.1);
        if rest.None? then None else Some([first.value.0] + rest.value)
  }

  predicate PlainToken(t: Token) { t.Apc? ==> PlainPacket(t.packet) }

  lemma MoveRead(row: nat, column: nat, rest: string)
    ensures ReadToken(TokenText(Move(row, column)) + rest) == Some((Move(row, column), rest))
  {
    DecimalDigits(row);
    DecimalDigits(column);
    NatRead(row);
    NatRead(column);
    var tail := Decimal(column) + ['H'] + rest;
    var body := Decimal(row) + [';'] + tail;
    var s := TokenText(Move(row, column)) + rest;
    assert s == [ESC] + "[" + body;
    assert s[..2] == [ESC] + "[" && s[2..] == body;
    PositionRead(row, column, Decimal(row), Decimal(column), tail, body, rest);
  }

  lemma PositionRead(row: nat, column: nat, r: string, c: string, tail: string, body: string, rest: string)
    requires Digits(r) && Digits(c) && ReadNat(r) == Some(row) && ReadNat(c) == Some(column)
    requires tail == c + ['H'] + rest && body == r + [';'] + tail
    ensures ReadPosition(body) == Some((Move(row, column), rest))
  {
    CutAt(r, ';', tail, body);
    CutAt(c, 'H', rest, tail);
  }

  lemma PacketRead(p: Packet, rest: string)
    requires PlainPacket(p)
    ensures ReadToken(Frame(p) + rest) == Some((Apc(p), rest))
  {
    SplitOneFrame(p, rest);
    assert (Frame(p) + rest)[..2][1] == '_';
  }

  lemma FirstToken(t: Token, rest: string)
    requires PlainToken(t)
    ensures ReadToken(TokenText(t) + rest) == Some((t, rest))
  {
    match t
    case Move(row, column) => MoveRead(row, column, rest);
    case Apc(p) => PacketRead(p, rest);
  }

  lemma {:induction false} TokensRead(ts: seq<Token>)
    requires forall t :: t in ts ==> PlainToken(t)
    ensures ReadTokens(TokensText(ts)) == Some(ts)
  {
    if ts != [] {
      assert ts[0] in ts;
      FirstToken(ts[0], TokensText(ts[1..]));
      TokensRead(ts[1..]);
      assert [ts[0]] + ts[1..] == ts;
    }
  }

  // --- Reading commands ---

  /** The cursor, counted from zero, when it is known. */
  type CursorCell = Option<(u16, u16)>

  function ReadCursor(row: nat, column: nat): CursorCell {
    if 1 <= row <= 0x1_0000 && 1 <= column <= 0x1_0000 then Some((column - 1, row - 1)) else None
  }

  /** What a placement shows: keys c and r for cells, x, y, w and h for the part of the image, X and Y for the offset in
      the first cell, z for the depth. C=1 leaves the cursor where it is. */
  function ReadShown(ps: seq<Pair>, cursor: CursorCell): Option<Shown> {
    var c, r, z := Number(ps, 'c'), Number(ps, 'r'), Depth(ps);
    var x, y, w, h := NumberOrZero(ps, 'x'), NumberOrZero(ps, 'y'), NumberOrZero(ps, 'w'), NumberOrZero(ps, 'h');
    var X, Y := NumberOrZero(ps, 'X'), NumberOrZero(ps, 'Y');
    if cursor.None? || c.None? || r.None? || z.None? || x.None? || y.None? || w.None? || h.None? || X.None? || Y.None?
       || Get(ps, 'C') != Some("1")
    then None
    else
      Some(Shown(cursor.value.0, cursor.value.1, c.value, r.value, x.value, y.value, w.value, h.value, X.value, Y.value,
                 z.value))
  }

  /** a=d: d=I deletes an image with its data, d=i with a placement id that placement. */
  function ReadDelete(ps: seq<Pair>): Option<Command> {
    var what, i, p := Get(ps, 'd'), Number(ps, 'i'), Number(ps, 'p');
    if i.None? then None
    else if what == Some("I") && Get(ps, 'p').None? then Some(DeleteImage(i.value))
    else if what == Some("i") && p.Some? then Some(DeletePlacement(i.value, p.value))
    else None
  }

  /** a=p puts a placement of an image at the cursor. */
  function ReadDisplay(ps: seq<Pair>, cursor: CursorCell): Option<Command> {
    var i, p, s := Number(ps, 'i'), Number(ps, 'p'), ReadShown(ps, cursor);
    if i.None? || p.None? || s.None? then None else Some(Display(i.value, p.value, s.value))
  }

  /** a=t transmits an image, a=T displays it too: f is the format, s and v are width and height, t=d says that the
      payload is the data. */
  function ReadTransmit(ps: seq<Pair>, data: seq<byte>, cursor: CursorCell): Option<Command> {
    var f, s, v, i := Number(ps, 'f'), Number(ps, 's'), Number(ps, 'v'), Number(ps, 'i');
    if f.None? || s.None? || v.None? || i.None? || Get(ps, 't') != Some("d") then None
    else
      var image := Image(f.value, s.value, v.value, data);
      if Get(ps, 'a') == Some("t") then Some(Upload(i.value, image))
      else
        var p, shown := Number(ps, 'p'), ReadShown(ps, cursor);
        if p.None? || shown.None? then None else Some(TransmitAndDisplay(i.value, image, p.value, shown.value))
  }

  /** The payloads of the packets that go on with a transfer: each carries m alone, 1 while more follow. */
  function Gather(ts: seq<Token>): (r: Option<(string, seq<Token>)>)
    ensures r.Some? ==> |r.value.1| < |ts|
    decreases |ts|
  {
    if ts == [] || !ts[0].Apc? then None
    else
      var p := ts[0].packet;
      if ReadPairs(p.control) == Some([('m', "0")]) then Some((p.payload, ts[1..]))
      else if ReadPairs(p.control) == Some([('m', "1")]) then
        var rest := Gather(ts[1..]);
        if rest.None? then None else Some((p.payload + rest.value.0, rest.value.1))
      else None
  }

  /** The data of a transfer that begins with this packet, and the tokens behind it. */
  function ReadData(ps: seq<Pair>, payload: string, ts: seq<Token>): (r: Option<(seq<byte>, seq<Token>)>)
    ensures r.Some? ==> |r.value.1| <= |ts|
  {
    var whole :=
      if Get(ps, 'm') == Some("0") then Some((payload, ts))
      else if Get(ps, 'm') == Some("1") then
        var rest := Gather(ts);
        if rest.None? then None else Some((payload + rest.value.0, rest.value.1))
      else None;
    if whole.None? then None
    else
      var data := Unbase64(whole.value.0);
      if data.None? then None else Some((data.value, whole.value.1))
  }

  /** The command that begins with a packet, and the tokens behind it. q=2 asks for no answer. */
  function ReadCommand(p: Packet, ts: seq<Token>, cursor: CursorCell): (r: Option<(Command, seq<Token>)>)
    ensures r.Some? ==> |r.value.1| <= |ts|
  {
    var ps := ReadPairs(p.control);
    if ps.None? || Get(ps.value, 'q') != Some("2") then None
    else
      var a := Get(ps.value, 'a');
      if a == Some("t") || a == Some("T") then
        var data := ReadData(ps.value, p.payload, ts);
        if data.None? then None
        else
          var c := ReadTransmit(ps.value, data.value.0, cursor);
          if c.None? then None else Some((c.value, data.value.1))
      else
        var c := if a == Some("d") then ReadDelete(ps.value)
                 else if a == Some("p") then ReadDisplay(ps.value, cursor) else None;
        if c.None? then None else Some((c.value, ts))
  }

  function ReadCommands(ts: seq<Token>, cursor: CursorCell): Option<seq<Command>>
    decreases |ts|
  {
    if ts == [] then Some([])
    else
      match ts[0]
      case Move(row, column) => ReadCommands(ts[1..], ReadCursor(row, column))
      case Apc(p) =>
        var first := ReadCommand(p, ts[1..], cursor);
        if first.None? then None
        else
          var rest := ReadCommands(first.value.1, cursor);
          if rest.None? then None else Some([first.value.0] + rest.value)
  }

  /** Read a whole stream. */
  function ReadAll(s: string): Option<seq<Command>> {
    var ts := ReadTokens(s);
    if ts.None? then None else ReadCommands(ts.value, None)
  }

  // --- Rendered commands as tokens ---

  function NumberPair(key: char, n: nat): Pair { (key, Decimal(n)) }

  function MaybePair(key: char, n: nat): seq<Pair> {
    if n > 0 then [NumberPair(key, n)] else []
  }

  function PartPairs(s: Shown): seq<Pair> {
    MaybePair('x', s.sourceX) + MaybePair('y', s.sourceY) + MaybePair('w', s.sourceWidth)
    + MaybePair('h', s.sourceHeight) + MaybePair('X', s.xOffset) + MaybePair('Y', s.yOffset)
  }

  function ImagePairs(image: Image, id: u32): seq<Pair> {
    [('t', "d"), NumberPair('f', image.format), NumberPair('s', image.width), NumberPair('v', image.height),
     NumberPair('i', id)]
  }

  function ShownPairs(placement: u32, s: Shown): seq<Pair> {
    [NumberPair('p', placement), NumberPair('c', s.cols), NumberPair('r', s.rows), ('z', Signed(s.z)), ('C', "1"),
     ('q', "2")]
  }

  /** The control text of a command, as pairs, without the flag of its first chunk. */
  function Pairs(c: Command): seq<Pair> {
    match c
    case DeleteImage(id) => [('a', "d"), ('d', "I"), NumberPair('i', id), ('q', "2")]
    case DeletePlacement(id, placement) =>
      [('a', "d"), ('d', "i"), NumberPair('i', id), NumberPair('p', placement), ('q', "2")]
    case Upload(id, image) => [('a', "t")] + ImagePairs(image, id) + [('q', "2")]
    case TransmitAndDisplay(id, image, placement, s) =>
      [('a', "T")] + ImagePairs(image, id) + ShownPairs(placement, s) + PartPairs(s)
    case Display(id, placement, s) =>
      [('a', "p"), NumberPair('i', id)] + ShownPairs(placement, s) + PartPairs(s)
  }

  function Apcs(packets: seq<Packet>): seq<Token> {
    if packets == [] then [] else [Apc(packets[0])] + Apcs(packets[1..])
  }

  function Lead(s: Shown): seq<Token> { [Move(s.y + 1, s.x + 1)] }

  function Tokens(c: Command): seq<Token> {
    match c
    case DeleteImage(_) => [Apc(Packet(PairsText(Pairs(c)), ""))]
    case DeletePlacement(_, _) => [Apc(Packet(PairsText(Pairs(c)), ""))]
    case Upload(_, image) => Apcs(Transfer(PairsText(Pairs(c)), image.data))
    case TransmitAndDisplay(_, image, _, s) => Lead(s) + Apcs(Transfer(PairsText(Pairs(c)), image.data))
    case Display(_, _, s) => Lead(s) + [Apc(Packet(PairsText(Pairs(c)), ""))]
  }

  /** What the encoders emit: pixels are never empty, and nothing is displayed past the last cursor position. */
  predicate Readable(c: Command) {
    && CarriesPixels(c)
    && (c.Display? || c.TransmitAndDisplay? ==> c.shown.x < 0xffff && c.shown.y < 0xffff)
  }

  lemma FieldIsTail(key: char, n: u32)
    ensures Field([key], n) == CommaText(NumberPair(key, n))
    ensures Optional([key], n) == PairTail(MaybePair(key, n))
  {
    ChainOne(CommaText, NumberPair(key, n));
  }

  lemma TwoTails(a: Pair, b: Pair)
    ensures PairTail([a, b]) == CommaText(a) + CommaText(b)
  {
    ChainOne(CommaText, b);
    assert [a, b][1..] == [b];
  }

  lemma ThreeTails(a: Pair, b: Pair, c: Pair)
    ensures PairTail([a, b, c]) == CommaText(a) + CommaText(b) + CommaText(c)
  {
    TwoTails(b, c);
    assert [a, b, c][1..] == [b, c];
    Regroup(CommaText(a), CommaText(b), CommaText(c));
  }

  lemma TailConcat(a: seq<Pair>, b: seq<Pair>)
    ensures PairTail(a + b) == PairTail(a) + PairTail(b)
  {
    ChainConcat(CommaText, a, b);
  }

  lemma PartsText(s: Shown)
    ensures PlacementControls(s) == PairTail(PartPairs(s))
  {
    var x, y, w := MaybePair('x', s.sourceX), MaybePair('y', s.sourceY), MaybePair('w', s.sourceWidth);
    var h, X, Y := MaybePair('h', s.sourceHeight), MaybePair('X', s.xOffset), MaybePair('Y', s.yOffset);
    FieldIsTail('x', s.sourceX);
    FieldIsTail('y', s.sourceY);
    FieldIsTail('w', s.sourceWidth);
    FieldIsTail('h', s.sourceHeight);
    FieldIsTail('X', s.xOffset);
    FieldIsTail('Y', s.yOffset);
    TailConcat(x, y);
    TailConcat(x + y, w);
    TailConcat(x + y + w, h);
    TailConcat(x + y + w + h, X);
    TailConcat(x + y + w + h + X, Y);
  }

  lemma ImageText(image: Image, id: u32)
    ensures ImageControl(image, id) == PairTail(ImagePairs(image, id))
  {
    var ps := ImagePairs(image, id);
    FieldIsTail('f', image.format);
    FieldIsTail('s', image.width);
    FieldIsTail('v', image.height);
    FieldIsTail('i', id);
    TwoTails(ps[0], ps[1]);
    ThreeTails(ps[2], ps[3], ps[4]);
    TailConcat([ps[0], ps[1]], [ps[2], ps[3], ps[4]]);
    assert ps == [ps[0], ps[1]] + [ps[2], ps[3], ps[4]];
    assert CommaText(ps[0]) == ",t=d";
  }

  lemma AssociateShown(p: string, c: string, r: string, z: string, x: string)
    ensures p + c + r + ",z=" + z + ",C=1,q=2" + x == (p + c + r) + ((",z=" + z) + ",C=1,q=2") + x
  {
  }

  lemma DepthText(text: string)
    ensures CommaText(('z', text)) == ",z=" + text
  {
  }

  lemma ShownTail(placement: u32, s: Shown)
    ensures PairTail(ShownPairs(placement, s))
            == (Field("p", placement) + Field("c", s.cols) + Field("r", s.rows))
               + ((",z=" + Signed(s.z)) + ",C=1,q=2")
  {
    var ps := ShownPairs(placement, s);
    FieldIsTail('p', placement);
    FieldIsTail('c', s.cols);
    FieldIsTail('r', s.rows);
    DepthText(Signed(s.z));
    ThreeTails(ps[0], ps[1], ps[2]);
    ShownEnd(Signed(s.z));
    TailConcat([ps[0], ps[1], ps[2]], [ps[3], ps[4], ps[5]]);
    assert ps == [ps[0], ps[1], ps[2]] + [ps[3], ps[4], ps[5]];
  }

  lemma ShownEnd(z: string)
    ensures PairTail([('z', z), ('C', "1"), ('q', "2")]) == (",z=" + z) + ",C=1,q=2"
  {
    ThreeTails(('z', z), ('C', "1"), ('q', "2"));
    DepthText(z);
    Regroup(",z=" + z, ",C=1", ",q=2");
    assert ",C=1" + ",q=2" == ",C=1,q=2";
    assert CommaText(('C', "1")) == ",C=1" && CommaText(('q', "2")) == ",q=2";
  }

  lemma ShownText(placement: u32, s: Shown)
    ensures ShownControl(placement, s) == PairTail(ShownPairs(placement, s)) + PairTail(PartPairs(s))
  {
    PartsText(s);
    ShownTail(placement, s);
    AssociateShown(Field("p", placement), Field("c", s.cols), Field("r", s.rows), Signed(s.z), PlacementControls(s));
  }

  // --- The control texts are those of the pairs ---

  lemma PairsJoin(head: string, first: Pair, image: string, i: seq<Pair>, shown: string, p: seq<Pair>, q: seq<Pair>)
    requires head == PairText(first) && image == PairTail(i) && shown == PairTail(p) + PairTail(q)
    ensures head + image + shown == PairsText([first] + i + p + q)
  {
    TailConcat(p, q);
    TailConcat(i, p + q);
    var all := [first] + i + p + q;
    assert all[0] == first && all[1..] == i + (p + q);
    Regroup(head, image, shown);
  }

  lemma UploadText(id: u32, image: Image)
    ensures "a=t" + ImageControl(image, id) + ",q=2" == PairsText(Pairs(Upload(id, image)))
  {
    var ps := ImagePairs(image, id);
    ImageText(image, id);
    ChainOne(CommaText, ('q', "2"));
    assert PairTail([]) == "" && PairTail([('q', "2")]) + "" == ",q=2";
    PairsJoin("a=t", ('a', "t"), ImageControl(image, id), ps, ",q=2", [('q', "2")], []);
    assert [('a', "t")] + ps + [('q', "2")] + [] == [('a', "t")] + ps + [('q', "2")];
  }

  lemma TransmitText(id: u32, image: Image, placement: u32, s: Shown)
    ensures "a=T" + ImageControl(image, id) + ShownControl(placement, s)
            == PairsText(Pairs(TransmitAndDisplay(id, image, placement, s)))
  {
    ImageText(image, id);
    ShownText(placement, s);
    PairsJoin("a=T", ('a', "T"), ImageControl(image, id), ImagePairs(image, id), ShownControl(placement, s),
              ShownPairs(placement, s), PartPairs(s));
  }

  lemma DisplayText(id: u32, placement: u32, s: Shown)
    ensures "a=p" + Field("i", id) + ShownControl(placement, s) == PairsText(Pairs(Display(id, placement, s)))
  {
    FieldIsTail('i', id);
    ChainOne(CommaText, NumberPair('i', id));
    ShownText(placement, s);
    PairsJoin("a=p", ('a', "p"), Field("i", id), [NumberPair('i', id)], ShownControl(placement, s),
              ShownPairs(placement, s), PartPairs(s));
    assert [('a', "p")] + [NumberPair('i', id)] == [('a', "p"), NumberPair('i', id)];
  }

  lemma DeleteImageText(id: u32)
    ensures "a=d,d=I" + Field("i", id) + ",q=2" == PairsText(Pairs(DeleteImage(id)))
  {
    FieldIsTail('i', id);
    DeleteTail("I", NumberPair('i', id));
    assert Pairs(DeleteImage(id))[1..] == [('d', "I"), NumberPair('i', id), ('q', "2")];
    DeleteJoin("I", Field("i", id), "");
  }

  lemma DeleteTail(what: string, p: Pair)
    ensures PairTail([('d', what), p, ('q', "2")]) == ",d=" + what + CommaText(p) + ",q=2"
  {
    ThreeTails(('d', what), p, ('q', "2"));
    assert CommaText(('d', what)) == ",d=" + what && CommaText(('q', "2")) == ",q=2";
  }

  lemma DeleteJoin(what: string, i: string, p: string)
    requires |what| == 1
    ensures "a=d" + (",d=" + what + i + p + ",q=2") == "a=d,d=" + what + i + p + ",q=2"
    ensures p == "" ==> ",d=" + what + i + p + ",q=2" == ",d=" + what + i + ",q=2"
    ensures "a=d,d=" + "I" == "a=d,d=I" && "a=d,d=" + "i" == "a=d,d=i"
    ensures "a=d,d=" + what + i + p + ",q=2" == ("a=d,d=" + what) + i + p + ",q=2"
  {
  }

  lemma DeletePlacementText(id: u32, placement: u32)
    ensures "a=d,d=i" + Field("i", id) + Field("p", placement) + ",q=2"
            == PairsText(Pairs(DeletePlacement(id, placement)))
  {
    var i, p := NumberPair('i', id), NumberPair('p', placement);
    FieldIsTail('i', id);
    FieldIsTail('p', placement);
    DeleteTails(i, p);
    assert Pairs(DeletePlacement(id, placement))[1..] == [('d', "i"), i, p, ('q', "2")];
    DeleteJoin("i", Field("i", id), Field("p", placement));
  }

  lemma DeleteTails(i: Pair, p: Pair)
    ensures PairTail([('d', "i"), i, p, ('q', "2")]) == ",d=" + "i" + CommaText(i) + CommaText(p) + ",q=2"
  {
    ThreeTails(i, p, ('q', "2"));
    assert [('d', "i"), i, p, ('q', "2")][1..] == [i, p, ('q', "2")];
    assert CommaText(('d', "i")) == ",d=" + "i" && CommaText(('q', "2")) == ",q=2";
    Regroup(",d=" + "i", CommaText(i) + CommaText(p), ",q=2");
    Regroup(",d=" + "i", CommaText(i), CommaText(p));
  }

  lemma {:induction false} PacketsText(packets: seq<Packet>)
    ensures TokensText(Apcs(packets)) == Stream(packets)
  {
    if packets != [] {
      PacketsText(packets[1..]);
      assert Apcs(packets)[1..] == Apcs(packets[1..]);
    }
  }

  lemma LeadText(s: Shown, ts: seq<Token>)
    requires s.x < 0xffff && s.y < 0xffff
    ensures TokensText(Lead(s) + ts) == MoveCursor(s) + TokensText(ts)
  {
    ChainConcat(TokenText, Lead(s), ts);
    ChainOne(TokenText, Lead(s)[0]);
  }

  /** The rendered command is the text of its tokens. */
  lemma RenderIsTokens(c: Command)
    requires Readable(c)
    ensures Render(c) == TokensText(Tokens(c))
  {
    match c
    case DeleteImage(id) =>
      DeleteImageText(id);
      ChainOne(TokenText, Tokens(c)[0]);
    case DeletePlacement(id, placement) =>
      DeletePlacementText(id, placement);
      ChainOne(TokenText, Tokens(c)[0]);
    case Upload(id, image) =>
      UploadText(id, image);
      PacketsText(Transfer(PairsText(Pairs(c)), image.data));
    case TransmitAndDisplay(id, image, placement, s) =>
      TransmitText(id, image, placement, s);
      PacketsText(Transfer(PairsText(Pairs(c)), image.data));
      LeadText(s, Apcs(Transfer(PairsText(Pairs(c)), image.data)));
    case Display(id, placement, s) =>
      var packet := Apc(Packet(PairsText(Pairs(c)), ""));
      DisplayText(id, placement, s);
      ChainOne(TokenText, packet);
      LeadText(s, [packet]);
  }

  // --- Pairs are read ---

  predicate PlainPair(p: Pair) {
    p.0 != ',' && p.0 != ';' && p.0 != ESC && forall c :: c in p.1 ==> c != ',' && c != ';' && c != ESC
  }

  predicate PlainPairs(ps: seq<Pair>) { forall p :: p in ps ==> PlainPair(p) }

  lemma NumberIsPlain(key: char, n: nat)
    requires key != ',' && key != ';' && key != ESC
    ensures PlainPair(NumberPair(key, n)) && PlainPairs(MaybePair(key, n))
  {
    DecimalDigits(n);
  }

  lemma DepthIsPlain(z: int)
    ensures PlainPair(('z', Signed(z)))
  {
    DecimalDigits(if z < 0 then -z else z);
  }

  lemma PartsArePlain(s: Shown)
    ensures PlainPairs(PartPairs(s))
  {
    NumberIsPlain('x', s.sourceX);
    NumberIsPlain('y', s.sourceY);
    NumberIsPlain('w', s.sourceWidth);
    NumberIsPlain('h', s.sourceHeight);
    NumberIsPlain('X', s.xOffset);
    NumberIsPlain('Y', s.yOffset);
  }

  lemma ImageIsPlain(image: Image, id: u32)
    ensures PlainPairs(ImagePairs(image, id))
  {
    NumberIsPlain('f', image.format);
    NumberIsPlain('s', image.width);
    NumberIsPlain('v', image.height);
    NumberIsPlain('i', id);
  }

  lemma ShownIsPlain(placement: u32, s: Shown)
    ensures PlainPairs(ShownPairs(placement, s))
  {
    NumberIsPlain('p', placement);
    NumberIsPlain('c', s.cols);
    NumberIsPlain('r', s.rows);
    DepthIsPlain(s.z);
  }

  lemma PairsArePlain(c: Command)
    ensures PlainPairs(Pairs(c))
  {
    match c
    case DeleteImage(id) => NumberIsPlain('i', id);
    case DeletePlacement(id, placement) =>
      NumberIsPlain('i', id);
      NumberIsPlain('p', placement);
    case Upload(id, image) => ImageIsPlain(image, id);
    case TransmitAndDisplay(id, image, placement, s) =>
      ImageIsPlain(image, id);
      ShownIsPlain(placement, s);
      PartsArePlain(s);
    case Display(id, placement, s) =>
      NumberIsPlain('i', id);
      ShownIsPlain(placement, s);
      PartsArePlain(s);
  }

  lemma {:induction false} PlainTail(ps: seq<Pair>)
    requires PlainPairs(ps)
    ensures Plain(PairTail(ps))
  {
    if ps != [] {
      assert PlainPair(ps[0]);
      PlainTail(ps[1..]);
    }
  }

  lemma PlainText(ps: seq<Pair>)
    requires PlainPairs(ps) && ps != []
    ensures Plain(PairsText(ps)) && ReadPairs(PairsText(ps)) == Some(ps)
  {
    assert PlainPair(ps[0]);
    PlainTail(ps[1..]);
    forall p | p in ps ensures p.0 != ',' && ',' !in p.1 { assert PlainPair(p); }
    PairsRead(ps);
  }

  // --- Values are found ---

  predicate DistinctKeys(ps: seq<Pair>) {
    forall i, j :: 0 <= i < j < |ps| ==> ps[i].0 != ps[j].0
  }

  predicate HasKey(ps: seq<Pair>, key: char) { exists i :: 0 <= i < |ps| && ps[i].0 == key }

  lemma {:induction false} GetAt(ps: seq<Pair>, i: nat)
    requires DistinctKeys(ps) && i < |ps|
    ensures Get(ps, ps[i].0) == Some(ps[i].1)
  {
    if i > 0 { GetAt(ps[1..], i - 1); }
  }

  lemma {:induction false} GetNone(ps: seq<Pair>, key: char)
    requires !HasKey(ps, key)
    ensures Get(ps, key) == None
  {
    if ps != [] {
      assert ps[0].0 != key;
      forall i | 0 <= i < |ps[1..]| ensures ps[1..][i].0 != key { assert ps[i + 1].0 != key; }
      GetNone(ps[1..], key);
    }
  }

  function Part(s: Shown, key: char): nat {
    match key
    case 'x' => s.sourceX
    case 'y' => s.sourceY
    case 'w' => s.sourceWidth
    case 'h' => s.sourceHeight
    case 'X' => s.xOffset
    case 'Y' => s.yOffset
    case _ => 0
  }

  function PartText(s: Shown, key: char): Option<string> {
    if Part(s, key) > 0 then Some(Decimal(Part(s, key))) else None
  }

  lemma GetMaybe(key: char, n: nat, other: char)
    ensures Get(MaybePair(key, n), other) == if key == other && n > 0 then Some(Decimal(n)) else None
  {
  }

  lemma GetPart(s: Shown, key: char)
    ensures Get(PartPairs(s), key) == PartText(s, key)
  {
    var x, y, w := MaybePair('x', s.sourceX), MaybePair('y', s.sourceY), MaybePair('w', s.sourceWidth);
    var h, X, Y := MaybePair('h', s.sourceHeight), MaybePair('X', s.xOffset), MaybePair('Y', s.yOffset);
    GetConcat(x, y, key);
    GetConcat(x + y, w, key);
    GetConcat(x + y + w, h, key);
    GetConcat(x + y + w + h, X, key);
    GetConcat(x + y + w + h + X, Y, key);
    GetMaybe('x', s.sourceX, key);
    GetMaybe('y', s.sourceY, key);
    GetMaybe('w', s.sourceWidth, key);
    GetMaybe('h', s.sourceHeight, key);
    GetMaybe('X', s.xOffset, key);
    GetMaybe('Y', s.yOffset, key);
  }

  lemma NumberRead(ps: seq<Pair>, key: char, n: u32)
    requires Get(ps, key) == Some(Decimal(n))
    ensures Number(ps, key) == Some(n) && NumberOrZero(ps, key) == Some(n)
  {
    NatRead(n);
  }

  predicate PartKey(key: char) { key == 'x' || key == 'y' || key == 'w' || key == 'h' || key == 'X' || key == 'Y' }

  predicate ImageKey(key: char) { key == 't' || key == 'f' || key == 's' || key == 'v' || key == 'i' }

  predicate ShownKey(key: char) { key == 'p' || key == 'c' || key == 'r' || key == 'z' || key == 'C' || key == 'q' }

  /** The text has the pairs of a placement, and no others under their keys. */
  predicate HasShown(ps: seq<Pair>, placement: u32, s: Shown) {
    && Get(ps, 'p') == Some(Decimal(placement)) && Get(ps, 'c') == Some(Decimal(s.cols))
    && Get(ps, 'r') == Some(Decimal(s.rows)) && Get(ps, 'z') == Some(Signed(s.z)) && Get(ps, 'C') == Some("1")
    && Get(ps, 'q') == Some("2")
    && forall key :: PartKey(key) ==> Get(ps, key) == PartText(s, key)
  }

  predicate HasImage(ps: seq<Pair>, image: Image, id: u32) {
    && Get(ps, 't') == Some("d") && Get(ps, 'f') == Some(Decimal(image.format))
    && Get(ps, 's') == Some(Decimal(image.width)) && Get(ps, 'v') == Some(Decimal(image.height))
    && Get(ps, 'i') == Some(Decimal(id))
  }

  lemma PartNumber(ps: seq<Pair>, s: Shown, key: char)
    requires Get(ps, key) == PartText(s, key)
    ensures NumberOrZero(ps, key) == Some(Part(s, key))
  {
    NatRead(Part(s, key));
    PartIsU32(s, key);
  }

  lemma PartIsU32(s: Shown, key: char)
    ensures Part(s, key) <= U32_MAX
  {
  }

  lemma ShownRead(ps: seq<Pair>, placement: u32, s: Shown)
    requires HasShown(ps, placement, s)
    ensures ReadShown(ps, Some((s.x, s.y))) == Some(s) && Number(ps, 'p') == Some(placement)
  {
    NumberRead(ps, 'p', placement);
    NumberRead(ps, 'c', s.cols);
    NumberRead(ps, 'r', s.rows);
    IntRead(s.z);
    PartNumber(ps, s, 'x');
    PartNumber(ps, s, 'y');
    PartNumber(ps, s, 'w');
    PartNumber(ps, s, 'h');
    PartNumber(ps, s, 'X');
    PartNumber(ps, s, 'Y');
  }

  lemma ImageRead(ps: seq<Pair>, image: Image, id: u32)
    requires HasImage(ps, image, id)
    ensures Number(ps, 'f') == Some(image.format) && Number(ps, 's') == Some(image.width)
    ensures Number(ps, 'v') == Some(image.height) && Number(ps, 'i') == Some(id)
  {
    NumberRead(ps, 'f', image.format);
    NumberRead(ps, 's', image.width);
    NumberRead(ps, 'v', image.height);
    NumberRead(ps, 'i', id);
  }

  lemma ImageGets(image: Image, id: u32)
    ensures HasImage(ImagePairs(image, id), image, id)
    ensures forall key :: !ImageKey(key) ==> Get(ImagePairs(image, id), key) == None
  {
    var ps := ImagePairs(image, id);
    GetAt(ps, 0);
    GetAt(ps, 1);
    GetAt(ps, 2);
    GetAt(ps, 3);
    GetAt(ps, 4);
    forall key | !ImageKey(key) ensures Get(ps, key) == None { GetNone(ps, key); }
  }

  predicate ShownValues(ps: seq<Pair>, placement: u32, s: Shown) {
    && Get(ps, 'p') == Some(Decimal(placement)) && Get(ps, 'c') == Some(Decimal(s.cols))
    && Get(ps, 'r') == Some(Decimal(s.rows)) && Get(ps, 'z') == Some(Signed(s.z)) && Get(ps, 'C') == Some("1")
    && Get(ps, 'q') == Some("2")
  }

  lemma ShownGets(placement: u32, s: Shown)
    ensures ShownValues(ShownPairs(placement, s), placement, s)
    ensures forall key :: !ShownKey(key) ==> Get(ShownPairs(placement, s), key) == None
  {
    var ps := ShownPairs(placement, s);
    GetAt(ps, 0);
    GetAt(ps, 1);
    GetAt(ps, 2);
    GetAt(ps, 3);
    GetAt(ps, 4);
    GetAt(ps, 5);
    forall key | !ShownKey(key) ensures Get(ps, key) == None { GetNone(ps, key); }
  }

  lemma PartGets(s: Shown)
    ensures forall key :: Get(PartPairs(s), key) == PartText(s, key)
  {
    forall key ensures Get(PartPairs(s), key) == PartText(s, key) { GetPart(s, key); }
  }

  /** At most the flag of a chunk. */
  predicate Flagged(extra: seq<Pair>) {
    extra == [] || (|extra| == 1 && extra[0].0 == 'm')
  }

  lemma FlagGets(ps: seq<Pair>, extra: seq<Pair>, key: char)
    requires Flagged(extra)
    ensures key != 'm' ==> Get(ps + extra, key) == Get(ps, key)
    ensures Get(ps, 'm') == None ==> Get(ps + extra, 'm') == if extra == [] then None else Some(extra[0].1)
  {
    GetConcat(ps, extra, key);
    GetConcat(ps, extra, 'm');
    assert extra != [] ==> extra == [extra[0]] && Get([extra[0]], 'm') == Some(extra[0].1);
    assert key != 'm' ==> Get(extra, key) == None;
  }

  /** The pairs of a placement behind others with other keys. */
  lemma ShownJoined(front: seq<Pair>, p: seq<Pair>, q: seq<Pair>, placement: u32, s: Shown)
    requires ShownValues(p, placement, s) && (forall key :: !ShownKey(key) ==> Get(p, key) == None)
    requires forall key :: Get(q, key) == PartText(s, key)
    requires forall key :: ShownKey(key) || PartKey(key) || key == 'm' ==> Get(front, key) == None
    ensures HasShown(front + p + q, placement, s) && Get(front + p + q, 'm') == None
    ensures forall key :: Get(front, key).Some? ==> Get(front + p + q, key) == Get(front, key)
  {
    forall key ensures Get(front + p + q, key)
                       == if Get(front, key).Some? then Get(front, key)
                          else if Get(p, key).Some? then Get(p, key) else PartText(s, key)
    {
      GetConcat(front + p, q, key);
      GetConcat(front, p, key);
    }
  }

  lemma FrontGets(image: Image, id: u32)
    ensures var front := [('a', "T")] + ImagePairs(image, id);
            && HasImage(front, image, id) && Get(front, 'a') == Some("T")
            && forall key :: key != 'a' && !ImageKey(key) ==> Get(front, key) == None
  {
    var i := ImagePairs(image, id);
    ImageGets(image, id);
    forall key ensures Get([('a', "T")] + i, key) == if key == 'a' then Some("T") else Get(i, key) {
      GetConcat([('a', "T")], i, key);
    }
  }

  lemma TransmitGets(id: u32, image: Image, placement: u32, s: Shown)
    ensures var ps := Pairs(TransmitAndDisplay(id, image, placement, s));
            HasImage(ps, image, id) && HasShown(ps, placement, s) && Get(ps, 'a') == Some("T") && Get(ps, 'm') == None
  {
    FrontGets(image, id);
    ShownGets(placement, s);
    PartGets(s);
    ShownJoined([('a', "T")] + ImagePairs(image, id), ShownPairs(placement, s), PartPairs(s), placement, s);
  }

  lemma DisplayGets(id: u32, placement: u32, s: Shown)
    ensures var ps := Pairs(Display(id, placement, s));
            Get(ps, 'i') == Some(Decimal(id)) && HasShown(ps, placement, s) && Get(ps, 'a') == Some("p")
  {
    var front := [('a', "p"), NumberPair('i', id)];
    GetAt(front, 0);
    GetAt(front, 1);
    forall key | key != 'a' && key != 'i' ensures Get(front, key) == None { GetNone(front, key); }
    ShownGets(placement, s);
    PartGets(s);
    ShownJoined(front, ShownPairs(placement, s), PartPairs(s), placement, s);
  }

  lemma UploadGets(id: u32, image: Image)
    ensures var ps := Pairs(Upload(id, image));
            HasImage(ps, image, id) && Get(ps, 'a') == Some("t") && Get(ps, 'q') == Some("2") && Get(ps, 'm') == None
  {
    var a, i, q := [('a', "t")], ImagePairs(image, id), [('q', "2")];
    ImageGets(image, id);
    forall key ensures Get(a + i + q, key) ==
                         if key == 'a' then Some("t") else if Get(i, key).Some? then Get(i, key)
                         else if key == 'q' then Some("2") else None
    {
      GetConcat(a + i, q, key);
      GetConcat(a, i, key);
      assert key != 'a' ==> Get(a, key) == None;
      assert key != 'q' ==> Get(q, key) == None;
    }
  }

  lemma DeleteRead(id: u32, placement: u32)
    ensures var ps := Pairs(DeleteImage(id));
            Get(ps, 'a') == Some("d") && Get(ps, 'q') == Some("2") && ReadDelete(ps) == Some(DeleteImage(id))
    ensures var ps := Pairs(DeletePlacement(id, placement));
            Get(ps, 'a') == Some("d") && Get(ps, 'q') == Some("2")
            && ReadDelete(ps) == Some(DeletePlacement(id, placement))
  {
    var all, one := Pairs(DeleteImage(id)), Pairs(DeletePlacement(id, placement));
    GetAt(all, 0);
    GetAt(all, 1);
    GetAt(all, 2);
    GetAt(all, 3);
    GetNone(all, 'p');
    GetAt(one, 0);
    GetAt(one, 1);
    GetAt(one, 2);
    GetAt(one, 3);
    GetAt(one, 4);
    NumberRead(all, 'i', id);
    NumberRead(one, 'i', id);
    NumberRead(one, 'p', placement);
  }

  // --- Chunks are joined ---

  function FlagPair(data: seq<byte>): Pair { ('m', if |data| > CHUNK then "1" else "0") }

  lemma FlagRead(data: seq<byte>)
    ensures ReadPairs(More(data)) == Some([FlagPair(data)]) && Plain(More(data))
  {
    var p := FlagPair(data);
    assert PairsText([p]) == More(data);
    PairsRead([p]);
  }

  lemma {:induction false} GatherRead(data: seq<byte>, rest: seq<Token>)
    requires data != []
    ensures Gather(Apcs(Continuation(data)) + rest) == Some((Base64(data), rest))
    decreases |data|
  {
    var n := Min(CHUNK, |data|);
    var first, more := Packet(More(data), Base64(data[..n])), Continuation(data[n..]);
    var ts := Apcs(Continuation(data)) + rest;
    assert Continuation(data) == [first] + more && ([first] + more)[1..] == more;
    assert ts[0] == Apc(first) && ts[1..] == Apcs(more) + rest;
    FlagRead(data);
    ChunkJoins(data, n);
    if |data| > CHUNK {
      GatherRead(data[n..], rest);
    } else {
      assert data[n..] == [] && Apcs([]) + rest == rest && data[..n] == data;
    }
  }

  /** The payloads of all chunks together are the data. */
  lemma DataRead(full: seq<Pair>, data: seq<byte>, n: nat, rest: seq<Token>)
    requires data != [] && n == Min(CHUNK, |data|) && Get(full, 'm') == Some(FlagPair(data).1)
    ensures ReadData(full, Base64(data[..n]), Apcs(Continuation(data[n..])) + rest) == Some((data, rest))
  {
    ChunkJoins(data, n);
    Base64RoundTrip(data);
    if |data| > CHUNK {
      GatherRead(data[n..], rest);
    } else {
      assert data[n..] == [] && Apcs([]) + rest == rest && data[..n] == data;
    }
  }

  lemma TransferTokens(control: string, data: seq<byte>, n: nat)
    requires data != [] && n == Min(CHUNK, |data|)
    ensures Apcs(Transfer(control, data))
            == [Apc(Packet(control + "," + More(data), Base64(data[..n])))] + Apcs(Continuation(data[n..]))
  {
    var first, more := Packet(control + "," + More(data), Base64(data[..n])), Continuation(data[n..]);
    assert Transfer(control, data) == [first] + more && ([first] + more)[1..] == more;
  }

  /** The control text of the first chunk. */
  lemma FullRead(ps: seq<Pair>, data: seq<byte>, full: seq<Pair>)
    requires PlainPairs(ps) && ps != [] && full == ps + [FlagPair(data)]
    ensures PairsText(full) == PairsText(ps) + "," + More(data) && ReadPairs(PairsText(full)) == Some(full)
  {
    FullText(ps, data);
    assert PlainPair(FlagPair(data));
    PlainText(full);
  }

  lemma FullText(ps: seq<Pair>, data: seq<byte>)
    requires ps != []
    ensures PairsText(ps + [FlagPair(data)]) == PairsText(ps) + "," + More(data)
  {
    var p := FlagPair(data);
    assert (ps + [p])[1..] == ps[1..] + [p];
    ChainConcat(CommaText, ps[1..], [p]);
    ChainOne(CommaText, p);
    assert CommaText(p) == "," + More(data);
    Regroup(PairText(ps[0]), PairTail(ps[1..]), "," + More(data));
    Regroup(PairsText(ps), ",", More(data));
  }

  // --- Commands are read ---

  /** The cursor after the tokens of a command. */
  function Cursored(c: Command, cursor: CursorCell): CursorCell
    requires Readable(c)
  {
    if c.Display? || c.TransmitAndDisplay? then Some((c.shown.x, c.shown.y)) else cursor
  }

  /** What is read when a command comes first. */
  predicate ReadsFirst(c: Command, rest: seq<Token>, cursor: CursorCell)
    requires Readable(c)
  {
    var more := ReadCommands(rest, Cursored(c, cursor));
    ReadCommands(Tokens(c) + rest, cursor) == if more.None? then None else Some([c] + more.value)
  }

  lemma PacketFirst(p: Packet, ts: seq<Token>, rest: seq<Token>, c: Command, cursor: CursorCell)
    requires ReadCommand(p, ts, cursor) == Some((c, rest))
    ensures var more := ReadCommands(rest, cursor);
            ReadCommands([Apc(p)] + ts, cursor) == if more.None? then None else Some([c] + more.value)
  {
    assert ([Apc(p)] + ts)[1..] == ts;
  }

  lemma LeadFirst(s: Shown, ts: seq<Token>, cursor: CursorCell)
    requires s.x < 0xffff && s.y < 0xffff
    ensures ReadCommands(Lead(s) + ts, cursor) == ReadCommands(ts, Some((s.x, s.y)))
  {
    assert (Lead(s) + ts)[1..] == ts;
  }

  /** The first chunk of a transfer begins the command that its pairs and the data make. */
  lemma ChunkReads(full: seq<Pair>, control: string, payload: string, ts: seq<Token>, rest: seq<Token>,
                   data: seq<byte>, c: Command, cursor: CursorCell)
    requires ReadPairs(control) == Some(full) && Get(full, 'q') == Some("2")
    requires Get(full, 'a') == Some("t") || Get(full, 'a') == Some("T")
    requires ReadData(full, payload, ts) == Some((data, rest)) && ReadTransmit(full, data, cursor) == Some(c)
    ensures ReadCommand(Packet(control, payload), ts, cursor) == Some((c, rest))
  {
  }

  lemma PacketThrough(p: Packet, more: seq<Token>, rest: seq<Token>, c: Command, cursor: CursorCell)
    requires ReadCommand(p, more + rest, cursor) == Some((c, rest))
    ensures var after := ReadCommands(rest, cursor);
            ReadCommands([Apc(p)] + more + rest, cursor) == if after.None? then None else Some([c] + after.value)
  {
    PacketFirst(p, more + rest, rest, c, cursor);
    RegroupTokens([Apc(p)], more, rest);
  }

  lemma RegroupTokens(a: seq<Token>, b: seq<Token>, c: seq<Token>)
    ensures a + (b + c) == a + b + c
  {
  }

  /** A transfer that comes first, with the command that its pairs and data make. */
  lemma TransferFirst(ps: seq<Pair>, data: seq<byte>, rest: seq<Token>, c: Command, cursor: CursorCell)
    requires data != [] && PlainPairs(ps) && ps != [] && Get(ps, 'm') == None && Get(ps, 'q') == Some("2")
    requires Get(ps, 'a') == Some("t") || Get(ps, 'a') == Some("T")
    requires ReadTransmit(ps + [FlagPair(data)], data, cursor) == Some(c)
    ensures var more := ReadCommands(rest, cursor);
            ReadCommands(Apcs(Transfer(PairsText(ps), data)) + rest, cursor)
            == if more.None? then None else Some([c] + more.value)
  {
    var n, full := Min(CHUNK, |data|), ps + [FlagPair(data)];
    FullRead(ps, data, full);
    FlaggedGets(ps, FlagPair(data));
    DataRead(full, data, n, rest);
    TransferTokens(PairsText(ps), data, n);
    var control, payload, more := PairsText(ps) + "," + More(data), Base64(data[..n]), Apcs(Continuation(data[n..]));
    ChunkReads(full, control, payload, more + rest, rest, data, c, cursor);
    PacketThrough(Packet(control, payload), more, rest, c, cursor);
  }

  lemma FlaggedGets(ps: seq<Pair>, flag: Pair)
    requires flag.0 == 'm' && Get(ps, 'm') == None
    ensures Get(ps + [flag], 'm') == Some(flag.1)
    ensures Get(ps + [flag], 'q') == Get(ps, 'q') && Get(ps + [flag], 'a') == Get(ps, 'a')
  {
    FlagGets(ps, [flag], 'q');
    FlagGets(ps, [flag], 'a');
  }

  lemma UploadFirst(id: u32, image: Image, rest: seq<Token>, cursor: CursorCell)
    requires image.data != []
    ensures ReadsFirst(Upload(id, image), rest, cursor)
  {
    var ps, flag := Pairs(Upload(id, image)), FlagPair(image.data);
    PairsArePlain(Upload(id, image));
    UploadGets(id, image);
    FlagsKept(ps, flag);
    ImageRead(ps + [flag], image, id);
    TransferFirst(ps, image.data, rest, Upload(id, image), cursor);
  }

  /** The flag hides nothing. */
  lemma FlagsKept(ps: seq<Pair>, flag: Pair)
    requires flag.0 == 'm'
    ensures forall key :: key != 'm' ==> Get(ps + [flag], key) == Get(ps, key)
  {
    forall key | key != 'm' ensures Get(ps + [flag], key) == Get(ps, key) { FlagGets(ps, [flag], key); }
  }

  lemma TransmitFirst(id: u32, image: Image, placement: u32, s: Shown, rest: seq<Token>, cursor: CursorCell)
    requires image.data != [] && s.x < 0xffff && s.y < 0xffff
    ensures ReadsFirst(TransmitAndDisplay(id, image, placement, s), rest, cursor)
  {
    var c := TransmitAndDisplay(id, image, placement, s);
    var ps, flag := Pairs(c), FlagPair(image.data);
    PairsArePlain(c);
    TransmitGets(id, image, placement, s);
    TransmitReads(ps, flag, c);
    TransferFirst(ps, image.data, rest, c, Some((s.x, s.y)));
    LeadThrough(s, Apcs(Transfer(PairsText(ps), image.data)), rest, cursor);
  }

  lemma LeadThrough(s: Shown, ts: seq<Token>, rest: seq<Token>, cursor: CursorCell)
    requires s.x < 0xffff && s.y < 0xffff
    ensures ReadCommands(Lead(s) + ts + rest, cursor) == ReadCommands(ts + rest, Some((s.x, s.y)))
  {
    LeadFirst(s, ts + rest, cursor);
    RegroupTokens(Lead(s), ts, rest);
  }

  lemma TransmitReads(ps: seq<Pair>, flag: Pair, c: Command)
    requires c.TransmitAndDisplay? && flag.0 == 'm'
    requires HasImage(ps, c.image, c.id) && HasShown(ps, c.placement, c.shown) && Get(ps, 'a') == Some("T")
    ensures ReadTransmit(ps + [flag], c.image.data, Some((c.shown.x, c.shown.y))) == Some(c)
  {
    FlagsKept(ps, flag);
    ImageRead(ps + [flag], c.image, c.id);
    ShownRead(ps + [flag], c.placement, c.shown);
  }

  lemma DisplayFirst(id: u32, placement: u32, s: Shown, rest: seq<Token>, cursor: CursorCell)
    requires s.x < 0xffff && s.y < 0xffff
    ensures ReadsFirst(Display(id, placement, s), rest, cursor)
  {
    var c := Display(id, placement, s);
    var packet := Packet(PairsText(Pairs(c)), "");
    PairsArePlain(c);
    DisplayGets(id, placement, s);
    DisplayReads(Pairs(c), packet, rest, c);
    PacketFirst(packet, rest, rest, c, Some((s.x, s.y)));
    LeadThrough(s, [Apc(packet)], rest, cursor);
  }

  lemma DisplayReads(ps: seq<Pair>, packet: Packet, rest: seq<Token>, c: Command)
    requires c.Display? && PlainPairs(ps) && ps != [] && packet == Packet(PairsText(ps), "")
    requires Get(ps, 'i') == Some(Decimal(c.id)) && HasShown(ps, c.placement, c.shown) && Get(ps, 'a') == Some("p")
    ensures ReadCommand(packet, rest, Some((c.shown.x, c.shown.y))) == Some((c, rest))
  {
    PlainText(ps);
    NumberRead(ps, 'i', c.id);
    ShownRead(ps, c.placement, c.shown);
  }

  lemma DeleteFirst(c: Command, rest: seq<Token>, cursor: CursorCell)
    requires c.DeleteImage? || c.DeletePlacement?
    ensures ReadsFirst(c, rest, cursor)
  {
    var ps := Pairs(c);
    PairsArePlain(c);
    PlainText(ps);
    DeleteRead(c.id, if c.DeletePlacement? then c.placement else 0);
    DeleteReads(ps, PairsText(ps), rest, c, cursor);
    PacketFirst(Packet(PairsText(ps), ""), rest, rest, c, cursor);
  }

  lemma DeleteReads(ps: seq<Pair>, control: string, rest: seq<Token>, c: Command, cursor: CursorCell)
    requires ReadPairs(control) == Some(ps) && Get(ps, 'q') == Some("2") && Get(ps, 'a') == Some("d")
    requires ReadDelete(ps) == Some(c)
    ensures ReadCommand(Packet(control, ""), rest, cursor) == Some((c, rest))
  {
  }

  lemma CommandFirst(c: Command, rest: seq<Token>, cursor: CursorCell)
    requires Readable(c)
    ensures ReadsFirst(c, rest, cursor)
  {
    match c
    case Upload(id, image) => UploadFirst(id, image, rest, cursor);
    case TransmitAndDisplay(id, image, placement, s) => TransmitFirst(id, image, placement, s, rest, cursor);
    case Display(id, placement, s) => DisplayFirst(id, placement, s, rest, cursor);
    case _ => DeleteFirst(c, rest, cursor);
  }

  // --- The stream ---

  function AllTokens(commands: seq<Command>): seq<Token> {
    if commands == [] then [] else Tokens(commands[0]) + AllTokens(commands[1..])
  }

  lemma {:induction false} AllRead(commands: seq<Command>, cursor: CursorCell)
    requires forall c :: c in commands ==> Readable(c)
    ensures ReadCommands(AllTokens(commands), cursor) == Some(commands)
    decreases |commands|
  {
    if commands != [] {
      var c := commands[0];
      CommandFirst(c, AllTokens(commands[1..]), cursor);
      AllRead(commands[1..], Cursored(c, cursor));
      assert [c] + commands[1..] == commands;
    }
  }

  lemma {:induction false} AllText(commands: seq<Command>)
    requires forall c :: c in commands ==> Readable(c)
    ensures RenderAll(commands) == TokensText(AllTokens(commands))
  {
    if commands != [] {
      RenderIsTokens(commands[0]);
      AllText(commands[1..]);
      ChainConcat(TokenText, Tokens(commands[0]), AllTokens(commands[1..]));
    }
  }

  lemma {:induction false} PacketsArePlain(packets: seq<Packet>)
    requires forall p :: p in packets ==> PlainPacket(p)
    ensures forall t :: t in Apcs(packets) ==> PlainToken(t)
  {
    if packets != [] { PacketsArePlain(packets[1..]); }
  }

  lemma TokensArePlain(c: Command)
    requires Readable(c)
    ensures forall t :: t in Tokens(c) ==> PlainToken(t)
  {
    PairsArePlain(c);
    PlainText(Pairs(c));
    if c.Upload? || c.TransmitAndDisplay? {
      var packets := Transfer(PairsText(Pairs(c)), c.image.data);
      TransferPackets(PairsText(Pairs(c)), c.image.data, packets);
      PacketsArePlain(packets);
    }
  }

  lemma {:induction false} AllArePlain(commands: seq<Command>)
    requires forall c :: c in commands ==> Readable(c)
    ensures forall t :: t in AllTokens(commands) ==> PlainToken(t)
  {
    if commands != [] {
      TokensArePlain(commands[0]);
      AllArePlain(commands[1..]);
    }
  }

  /** The bytes that the encoders write are read as exactly the commands that they mean. */
  lemma ReadsRendered(commands: seq<Command>)
    requires forall c :: c in commands ==> Readable(c)
    ensures ReadAll(RenderAll(commands)) == Some(commands)
  {
    AllText(commands);
    AllArePlain(commands);
    TokensRead(AllTokens(commands));
    AllRead(commands, None);
  }
}
