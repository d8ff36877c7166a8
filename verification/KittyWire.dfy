/**
 The bytes of the graphics commands: control text, base64 (RFC 4648 section 4) in chunks of 3072 bytes,
 and the framing of the kitty terminal graphics protocol; with a receiver that undoes them.
 */
module KittyWire {
  import opened Prelude
  import opened KittyProtocol

  const ESC: char := 27 as char
  const CHUNK: nat := 3072

  // --- Texts one after another ---

  function Chain<T>(text: T -> string, items: seq<T>): string {
    if items == [] then "" else text(items[0]) + Chain(text, items[1..])
  }

  lemma Regroup(a: string, b: string, c: string)
    ensures a + (b + c) == (a + b) + c
  {
  }

  lemma {:induction false} ChainConcat<T>(text: T -> string, a: seq<T>, b: seq<T>)
    ensures Chain(text, a + b) == Chain(text, a) + Chain(text, b)
  {
    if a == [] {
      assert a + b == b;
    } else {
      ChainConcat(text, a[1..], b);
      assert (a + b)[1..] == a[1..] + b;
      Regroup(text(a[0]), Chain(text, a[1..]), Chain(text, b));
    }
  }

  lemma ChainOne<T>(text: T -> string, item: T)
    ensures Chain(text, [item]) == text(item)
  {
    assert [item][1..] == [];
  }

  // --- Numbers ---

  function Digit(d: nat): char
    requires d < 10
  {
    "0123456789"[d]
  }

  function Decimal(n: nat): (s: string)
    ensures |s| > 0
  {
    if n < 10 then [Digit(n)] else Decimal(n / 10) + [Digit(n % 10)]
  }

  function Signed(n: int): string {
    if n < 0 then "-" + Decimal(-n) else Decimal(n)
  }

  function Pow10(k: nat): nat {
    if k == 0 then 1 else 10 * Pow10(k - 1)
  }

  lemma {:induction false} DecimalLength(n: nat, k: nat)
    requires k > 0 && n < Pow10(k)
    ensures |Decimal(n)| <= k
  {
    if n >= 10 {
      assert k > 1;
      DecimalLength(n / 10, k - 1);
    }
  }

  lemma Lengths(n: u32, z: i32)
    ensures |Decimal(n)| <= 10 && |Signed(z)| <= 11
  {
    assert Pow10(10) == 10_000_000_000 by {
      assert Pow10(2) == 100 && Pow10(4) == 10_000 && Pow10(6) == 1_000_000 && Pow10(8) == 100_000_000;
    }
    DecimalLength(n, 10);
    DecimalLength(if z < 0 then -(z as int) else z, 10);
  }

  // --- Base64 ---

  /** The letter of a six-bit value: A-Z, a-z, 0-9, +, /. */
  function Letter(v: nat): char
    requires v < 64
  {
    if v < 26 then (65 + v) as char
    else if v < 52 then (71 + v) as char
    else if v < 62 then (v - 4) as char
    else if v == 62 then '+' else '/'
  }

  function Value(c: char): Option<nat> {
    if 'A' <= c <= 'Z' then Some(c as int - 65)
    else if 'a' <= c <= 'z' then Some(c as int - 71)
    else if '0' <= c <= '9' then Some(c as int + 4)
    else if c == '+' then Some(62)
    else if c == '/' then Some(63)
    else None
  }

  lemma ValueOfLetter(v: nat)
    requires v < 64
    ensures Value(Letter(v)) == Some(v)
    ensures Letter(v) != '=' && Letter(v) != ';' && Letter(v) != ESC
  {
  }

  /** The four six-bit values of three bytes. */
  function Sextets(a: byte, b: byte, c: byte): (nat, nat, nat, nat) {
    (a / 4, a % 4 * 16 + b / 16, b % 16 * 4 + c / 64, c % 64)
  }

  /** The three bytes of four six-bit values. */
  function Bytes(p: nat, q: nat, r: nat, s: nat): (byte, byte, byte) {
    ((p * 4 + q / 16) % 256, (q % 16 * 16 + r / 4) % 256, (r % 4 * 64 + s) % 256)
  }

  lemma Radix16(x: nat, y: nat)
    requires y < 16
    ensures (x * 16 + y) / 16 == x && (x * 16 + y) % 16 == y
  {
  }

  lemma Radix4(x: nat, y: nat)
    requires y < 4
    ensures (x * 4 + y) / 4 == x && (x * 4 + y) % 4 == y
  {
  }

  lemma Rejoin(x: byte)
    ensures x / 4 * 4 + x % 4 == x && x / 4 < 64
    ensures x / 16 * 16 + x % 16 == x && x / 16 < 16
    ensures x / 64 * 64 + x % 64 == x && x / 64 < 4
  {
  }

  /** From parts to six bits and back, with every quotient and remainder named. */
  lemma BytesOfParts(ah: nat, al: nat, bh: nat, bl: nat, ch: nat, cl: nat)
    requires ah < 64 && al < 4 && bh < 16 && bl < 16 && ch < 4 && cl < 64
    ensures Bytes(ah, al * 16 + bh, bl * 4 + ch, cl) == (ah * 4 + al, bh * 16 + bl, ch * 64 + cl)
  {
    Radix16(al, bh);
    Radix4(bl, ch);
  }

  lemma BytesOfSextets(a: byte, b: byte, c: byte)
    ensures var (p, q, r, s) := Sextets(a, b, c);
            p < 64 && q < 64 && r < 64 && s < 64 && Bytes(p, q, r, s) == (a, b, c)
  {
    Rejoin(a);
    Rejoin(b);
    Rejoin(c);
    BytesOfParts(a / 4, a % 4, b / 16, b % 16, c / 64, c % 64);
  }

  /** One to three bytes as four letters; `=` stands for what is missing. */
  function Group(g: seq<byte>): (s: string)
    requires 1 <= |g| <= 3
    ensures |s| == 4
  {
    var a, b, c := g[0], if |g| > 1 then g[1] else 0, if |g| > 2 then g[2] else 0;
    BytesOfSextets(a, b, c);
    var (p, q, r, s) := Sextets(a, b, c);
    [Letter(p), Letter(q), if |g| > 1 then Letter(r) else '=', if |g| > 2 then Letter(s) else '=']
  }

  function Base64(data: seq<byte>): string {
    if data == [] then ""
    else if |data| <= 3 then Group(data)
    else Group(data[..3]) + Base64(data[3..])
  }

  /** How many groups of three bytes hold `n` bytes. */
  function Groups(n: nat): nat {
    if n == 0 then 0 else if n <= 3 then 1 else 1 + Groups(n - 3)
  }

  lemma {:induction false} GroupsCeil(n: nat)
    ensures Groups(n) == (n + 2) / 3
  {
    if n > 3 { GroupsCeil(n - 3); }
  }

  lemma {:induction false} Base64Groups(data: seq<byte>)
    ensures |Base64(data)| == 4 * Groups(|data|)
  {
    if |data| > 3 { Base64Groups(data[3..]); }
  }

  lemma Base64Length(data: seq<byte>)
    ensures |Base64(data)| == (|data| + 2) / 3 * 4
  {
    Base64Groups(data);
    GroupsCeil(|data|);
  }

  /** The bytes of one group of four letters; `=` fills a short group at the end. */
  function DecodeGroup(g: string): Option<seq<byte>>
    requires |g| == 4
  {
    var p, q, r, s := Value(g[0]), Value(g[1]), Value(g[2]), Value(g[3]);
    if p.None? || q.None? then None
    else
      var (a, b, c) := Bytes(p.value, q.value, if r.Some? then r.value else 0, if s.Some? then s.value else 0);
      if r.Some? && s.Some? then Some([a, b, c])
      else if r.Some? && g[3] == '=' then Some([a, b])
      else if r.None? && s.None? && g[2] == '=' && g[3] == '=' then Some([a])
      else None
  }

  function Unbase64(s: string): Option<seq<byte>> {
    if s == "" then Some([])
    else if |s| < 4 then None
    else
      var group, rest := DecodeGroup(s[..4]), Unbase64(s[4..]);
      if group.Some? && rest.Some? && (|group.value| == 3 || s[4..] == "") then Some(group.value + rest.value) else None
  }

  lemma GroupInverse(g: seq<byte>)
    requires 1 <= |g| <= 3
    ensures DecodeGroup(Group(g)) == Some(g)
    ensures Plain(Group(g))
  {
    var a, b, c := g[0], if |g| > 1 then g[1] else 0, if |g| > 2 then g[2] else 0;
    BytesOfSextets(a, b, c);
    var (p, q, r, s) := Sextets(a, b, c);
    ValueOfLetter(p);
    ValueOfLetter(q);
    ValueOfLetter(r);
    ValueOfLetter(s);
    var text := Group(g);
    assert Value(text[0]) == Some(p) && Value(text[1]) == Some(q);
    if |g| == 3 {
      assert text == [Letter(p), Letter(q), Letter(r), Letter(s)] && g == [a, b, c];
    } else if |g| == 2 {
      assert text == [Letter(p), Letter(q), Letter(r), '='] && g == [a, b] && s == 0;
    } else {
      assert text == [Letter(p), Letter(q), '=', '='] && g == [a] && r == 0 && s == 0;
    }
  }

  /** Base64 loses nothing. */
  lemma {:induction false} Base64RoundTrip(data: seq<byte>)
    ensures Unbase64(Base64(data)) == Some(data)
  {
    if 0 < |data| <= 3 {
      GroupInverse(data);
      assert Group(data)[..4] == Group(data) && Group(data)[4..] == "";
      assert data + [] == data;
    } else if data != [] {
      GroupInverse(data[..3]);
      Base64RoundTrip(data[3..]);
      var s := Base64(data);
      assert s[..4] == Group(data[..3]) && s[4..] == Base64(data[3..]);
      assert data[..3] + data[3..] == data;
    }
  }

  lemma SliceConcat<T>(a: seq<T>, b: seq<T>, n: nat)
    requires n <= |a|
    ensures (a + b)[n..] == a[n..] + b && (a + b)[..n] == a[..n]
  {
  }

  lemma SliceSlice<T>(s: seq<T>, at: nat, n: nat)
    requires at + n <= |s|
    ensures s[at..][..n] == s[at..at + n] && s[at..][n..] == s[at + n..]
  {
  }

  /** Whole groups of three in front of other data encode separately. */
  lemma {:induction false} Base64Split(a: seq<byte>, b: seq<byte>, groups: nat)
    requires |a| == 3 * groups
    ensures Base64(a + b) == Base64(a) + Base64(b)
    decreases groups
  {
    if groups == 0 {
      assert a + b == b;
    } else {
      Base64Split(a[3..], b, groups - 1);
      SliceConcat(a, b, 3);
      HeadGroup(a);
      HeadGroup(a + b);
    }
  }

  lemma HeadGroup(data: seq<byte>)
    requires |data| >= 3
    ensures Base64(data) == Group(data[..3]) + Base64(data[3..])
  {
    if |data| == 3 {
      assert data[..3] == data;
    }
  }

  lemma {:induction false} Base64Plain(data: seq<byte>)
    ensures Plain(Base64(data))
  {
    if 0 < |data| <= 3 {
      GroupInverse(data);
    } else if data != [] {
      GroupInverse(data[..3]);
      Base64Plain(data[3..]);
    }
  }

  /** Free of the characters that end a control text. */
  predicate Plain(control: string) {
    forall c :: c in control ==> c != ';' && c != ESC
  }

  // --- Chunked transfer ---

  /** ESC _ G control ; payload ESC \ . */
  datatype Packet = Packet(control: string, payload: string)

  function Frame(p: Packet): string {
    [ESC] + "_G" + p.control + ";" + p.payload + [ESC] + "\\"
  }

  function Stream(packets: seq<Packet>): string {
    if packets == [] then "" else Frame(packets[0]) + Stream(packets[1..])
  }

  function More(data: seq<byte>): string {
    if |data| > CHUNK then "m=1" else "m=0"
  }

  /** The packets after the first: only the continuation flag and the payload. */
  function Continuation(data: seq<byte>): seq<Packet> {
    if data == [] then []
    else
      var n := Min(CHUNK, |data|);
      [Packet(More(data), Base64(data[..n]))] + Continuation(data[n..])
  }

  /** `encode_kitty_data`: the control text goes with the first chunk. */
  function Transfer(control: string, data: seq<byte>): seq<Packet> {
    if data == [] then []
    else
      var n := Min(CHUNK, |data|);
      [Packet(control + "," + More(data), Base64(data[..n]))] + Continuation(data[n..])
  }

  /** The loop of the encoder: one packet per chunk, looking ahead for the flag. */
  method EncodeKittyData(control: string, data: seq<byte>) returns (packets: seq<Packet>)
    ensures packets == Transfer(control, data)
  {
    packets := [];
    if data == [] {
      return;
    }
    var at := Min(CHUNK, |data|);
    packets := [Packet(control + "," + More(data), Base64(data[..at]))];
    while at < |data|
      invariant 0 <= at <= |data|
      invariant packets + Continuation(data[at..]) == Transfer(control, data)
    {
      var n := Min(CHUNK, |data| - at);
      SliceSlice(data, at, n);
      var more := if at + n < |data| then "m=1" else "m=0";
      packets := packets + [Packet(more, Base64(data[at..at + n]))];
      at := at + n;
    }
  }

  // --- The receiver ---

  /** The first index of `c` in `s`, or |s|. */
  function IndexOf(s: string, c: char): (i: nat)
    ensures i <= |s|
    ensures i < |s| ==> s[i] == c
    ensures forall j :: 0 <= j < i ==> s[j] != c
  {
    if s == "" || s[0] == c then 0 else 1 + IndexOf(s[1..], c)
  }

  /** Split a byte stream into its packets. */
  function Split(s: string): Option<seq<Packet>>
    decreases |s|
  {
    if s == "" then Some([])
    else
      var first := SplitOne(s);
      if first.None? then None
      else
        var rest := Split(first.value.1);
        if rest.None? then None else Some([first.value.0] + rest.value)
  }

  /** The first packet of a stream and what follows it. */
  function SplitOne(s: string): (r: Option<(Packet, string)>)
    ensures r.Some? ==> |r.value.1| < |s|
  {
    if |s| < 3 || s[..3] != [ESC] + "_G" then None
    else
      var body := s[3..];
      var semi := IndexOf(body, ';');
      if semi == |body| then None
      else
        var tail := body[semi + 1..];
        var esc := IndexOf(tail, ESC);
        if esc + 2 > |tail| || tail[esc + 1] != '\\' then None
        else Some((Packet(body[..semi], tail[..esc]), tail[esc + 2..]))
  }

  lemma IndexOfAfter(s: string, c: char, t: string)
    requires c !in s
    ensures IndexOf(s + [c] + t, c) == |s|
  {
    var whole := s + [c] + t;
    assert whole[|s|] == c;
    assert forall j :: 0 <= j < |s| ==> whole[j] == s[j] && s[j] in s;
  }

  predicate PlainPacket(p: Packet) {
    Plain(p.control) && Plain(p.payload)
  }

  /** Cutting at the first `c`: what stands before it and what after. */
  lemma CutAt(s: string, c: char, t: string, whole: string)
    requires c !in s && whole == s + [c] + t
    ensures IndexOf(whole, c) == |s| < |whole| && whole[..|s|] == s && whole[|s| + 1..] == t
  {
    IndexOfAfter(s, c, t);
  }

  lemma SplitOneFrame(p: Packet, rest: string)
    requires PlainPacket(p)
    ensures SplitOne(Frame(p) + rest) == Some((p, rest))
  {
    var s := Frame(p) + rest;
    var end := "\\" + rest;
    var tail := p.payload + [ESC] + end;
    var body := p.control + [';'] + tail;
    FrameShape(p, rest, tail, body);
    CutAt(p.control, ';', tail, body);
    CutAt(p.payload, ESC, end, tail);
    assert tail[|p.payload| + 1..] == end;
    assert tail[|p.payload| + 2..] == end[1..] == rest;
  }

  lemma FrameShape(p: Packet, rest: string, tail: string, body: string)
    requires tail == p.payload + [ESC] + ("\\" + rest) && body == p.control + [';'] + tail
    ensures var s := Frame(p) + rest; |s| >= 3 && s[..3] == [ESC] + "_G" && s[3..] == body
  {
    assert Frame(p) + rest == [ESC] + "_G" + body;
  }

  /** The receiver finds the packet boundaries again. */
  lemma {:induction false} SplitStream(packets: seq<Packet>)
    requires forall p :: p in packets ==> PlainPacket(p)
    ensures Split(Stream(packets)) == Some(packets)
  {
    if packets != [] {
      SplitOneFrame(packets[0], Stream(packets[1..]));
      SplitStream(packets[1..]);
      assert [packets[0]] + packets[1..] == packets;
    }
  }

  function Payloads(packets: seq<Packet>): string {
    if packets == [] then "" else packets[0].payload + Payloads(packets[1..])
  }

  predicate EndsWith(s: string, suffix: string) {
    |s| >= |suffix| && s[|s| - |suffix|..] == suffix
  }

  /** The continuation flags say "more" on every packet but the last. */
  predicate WellFlagged(packets: seq<Packet>) {
    && packets != []
    && (forall i :: 0 <= i < |packets| - 1 ==> EndsWith(packets[i].control, "m=1"))
    && EndsWith(packets[|packets| - 1].control, "m=0")
  }

  /** What the receiver makes of a stream: the data, if packets are well formed and well flagged. */
  function Receive(s: string): Option<seq<byte>> {
    var packets := Split(s);
    if packets.None? || !WellFlagged(packets.value) then None else Unbase64(Payloads(packets.value))
  }

  /** Each packet is plain and carries at most 4096 letters. */
  predicate ShortPlain(p: Packet) {
    PlainPacket(p) && |p.payload| <= 4096
  }

  lemma ChunkPacket(control: string, chunk: seq<byte>)
    requires Plain(control) && |chunk| <= CHUNK
    ensures ShortPlain(Packet(control, Base64(chunk)))
  {
    Base64Plain(chunk);
    Base64Length(chunk);
  }

  lemma FlagsChain(first: Packet, rest: seq<Packet>, data: seq<byte>, n: nat)
    requires data != [] && n == Min(CHUNK, |data|) && EndsWith(first.control, More(data))
    requires if data[n..] != [] then WellFlagged(rest) else rest == []
    ensures WellFlagged([first] + rest)
  {
    var packets := [first] + rest;
    forall i | 0 <= i < |packets| - 1 ensures EndsWith(packets[i].control, "m=1") {
      if i > 0 { assert packets[i] == rest[i - 1]; }
    }
  }

  lemma {:induction false} ContinuationPackets(data: seq<byte>)
    ensures forall p :: p in Continuation(data) ==> ShortPlain(p)
    ensures Payloads(Continuation(data)) == Base64(data)
    ensures if data == [] then Continuation(data) == [] else WellFlagged(Continuation(data))
  {
    if data != [] {
      var n := Min(CHUNK, |data|);
      ContinuationPackets(data[n..]);
      FirstPacket(data, n, Packet(More(data), Base64(data[..n])), Continuation(data[n..]));
    }
  }

  /** A first chunk in front of the continuation of the rest. */
  lemma FirstPacket(data: seq<byte>, n: nat, first: Packet, rest: seq<Packet>)
    requires data != [] && n == Min(CHUNK, |data|)
    requires Plain(first.control) && EndsWith(first.control, More(data)) && first.payload == Base64(data[..n])
    requires (forall p :: p in rest ==> ShortPlain(p)) && Payloads(rest) == Base64(data[n..])
    requires if data[n..] == [] then rest == [] else WellFlagged(rest)
    ensures forall p :: p in [first] + rest ==> ShortPlain(p)
    ensures Payloads([first] + rest) == Base64(data) && WellFlagged([first] + rest)
  {
    ChunkPacket(first.control, data[..n]);
    FlagsChain(first, rest, data, n);
    assert ([first] + rest)[1..] == rest;
    ChunkJoins(data, n);
  }

  lemma ChunkJoins(data: seq<byte>, n: nat)
    requires n == Min(CHUNK, |data|)
    ensures Base64(data[..n]) + Base64(data[n..]) == Base64(data)
  {
    assert data[..n] + data[n..] == data;
    if data[n..] == [] {
      assert data[..n] == data;
    } else {
      Base64Split(data[..n], data[n..], 1024);
    }
  }

  lemma TransferPackets(control: string, data: seq<byte>, packets: seq<Packet>)
    requires Plain(control) && data != [] && packets == Transfer(control, data)
    ensures forall p :: p in packets ==> ShortPlain(p)
    ensures Payloads(packets) == Base64(data) && WellFlagged(packets)
  {
    var full := control + "," + More(data);
    var n := Min(CHUNK, |data|);
    ContinuationPackets(data[n..]);
    FullControl(control, data);
    FirstPacket(data, n, Packet(full, Base64(data[..n])), Continuation(data[n..]));
  }

  lemma FullControl(control: string, data: seq<byte>)
    requires Plain(control)
    ensures Plain(control + "," + More(data)) && EndsWith(control + "," + More(data), More(data))
  {
    var full := control + "," + More(data);
    assert full[|full| - 3..] == More(data);
  }

  /** Chunked transfer round trip: the receiver gets back exactly the data, with "more" flagged on every
      packet but the last, and no payload longer than 4096 letters. */
  lemma TransferRoundTrip(control: string, data: seq<byte>, packets: seq<Packet>)
    requires Plain(control) && data != [] && packets == Transfer(control, data)
    ensures Split(Stream(packets)) == Some(packets) && WellFlagged(packets)
    ensures Receive(Stream(packets)) == Some(data)
    ensures forall p :: p in packets ==> |p.payload| <= 4096
  {
    TransferPackets(control, data, packets);
    SplitStream(packets);
    Base64RoundTrip(data);
  }
}
