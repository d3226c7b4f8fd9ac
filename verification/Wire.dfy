/** The chunks a packet is made of: User Data (0x10), Next User Data (0x11) and anything else,
    as sections 2.3.11 and 2.3.12 of RFC 7016 lay them out. */
module Wire {
  import opened Codec

  /** Room for chunks in one packet: the 1192-byte limit less the 11 bytes kept in front. */
  const CAPACITY := 1192 - 11

  datatype Option<+T> = None | Some(value: T)

  datatype Flags = Flags(header: bool, before: bool, after: bool, abandon: bool, end: bool)

  /** The flow-opening part of a 0x10 chunk: signature, and the flow it answers (0 for none). */
  datatype Intro = Intro(signature: seq<byte>, echo: nat)

  datatype Chunk =
    | Data(flags: Flags, flow: nat, stage: nat, delta: nat, intro: Option<Intro>, payload: seq<byte>)
    | Next(flags: Flags, payload: seq<byte>)
    | Other(kind: byte, content: seq<byte>)

  function FlagByte(f: Flags): byte
  {
    (if f.header then 0x80 else 0) + (if f.before then 0x20 else 0) + (if f.after then 0x10 else 0)
    + (if f.abandon then 2 else 0) + (if f.end then 1 else 0)
  }

  function FlagsOf(b: byte): Flags
  {
    Flags(b / 0x80 == 1, b / 0x20 % 2 == 1, b / 0x10 % 2 == 1, b / 2 % 2 == 1, b % 2 == 1)
  }

  /** The bytes of the opening part, in front of `rest`. */
  function IntroThen(i: Option<Intro>, rest: seq<byte>): seq<byte>
    requires i.Some? ==> |i.value.signature| < 0x100
  {
    if i.None? then rest
    else [|i.value.signature|] + (i.value.signature + EchoThen(i.value.echo, [0] + rest))
  }

  function EchoThen(echo: nat, rest: seq<byte>): seq<byte>
  {
    if echo == 0 then rest else [1 + Size7(echo)] + ([0x0A] + (Encode7(echo) + rest))
  }

  function IntroSize(i: Option<Intro>): nat
  {
    if i.None? then 0 else |i.value.signature| + if i.value.echo == 0 then 2 else 4 + Size7(i.value.echo)
  }

  predicate Encodable(c: Chunk)
  {
    match c
    case Data(f, flow, stage, delta, intro, payload) =>
      && (f.header <==> intro.Some?)
      && (intro.Some? ==> |intro.value.signature| < 0x100 && intro.value.echo < LIMIT)
      && flow < LIMIT && stage < LIMIT && delta < LIMIT
    case Next(f, payload) => true
    case Other(kind, content) => kind != 0x10 && kind != 0x11 && kind != 0xFF
  }

  function HeaderBytes(c: Chunk): nat
    requires c.Data?
  {
    Size7(c.flow) + Size7(c.stage) + Size7(c.delta) + IntroSize(c.intro)
  }

  /** The bytes of a chunk after its type and its length. */
  function Body(c: Chunk): seq<byte>
    requires Encodable(c)
  {
    match c
    case Data(f, flow, stage, delta, intro, payload) =>
      [FlagByte(f)] + (EncodeAll([flow, stage, delta]) + IntroThen(intro, payload))
    case Next(f, payload) => [FlagByte(f)] + payload
    case Other(_, content) => content
  }

  function BodySize(c: Chunk): nat
  {
    match c
    case Data(_, _, _, _, _, payload) => 1 + HeaderBytes(c) + |payload|
    case Next(_, payload) => 1 + |payload|
    case Other(_, content) => |content|
  }

  lemma IntroLength(i: Intro, rest: seq<byte>)
    requires |i.signature| < 0x100
    ensures |IntroThen(Some(i), rest)| == IntroSize(Some(i)) + |rest|
  {
    Encode7Length(i.echo);
  }

  /** A chunk takes exactly the bytes counted for it. */
  lemma BodyLength(c: Chunk)
    requires Encodable(c)
    ensures |Body(c)| == BodySize(c)
  {
    if c.Data? {
      EncodeAllLength([c.flow, c.stage, c.delta]);
      assert SizeAll([c.flow, c.stage, c.delta]) == Size7(c.flow) + SizeAll([c.stage, c.delta]);
      assert SizeAll([c.stage, c.delta]) == Size7(c.stage) + SizeAll([c.delta]);
      if c.intro.Some? { IntroLength(c.intro.value, c.payload); }
    }
  }

  function PacketSize(p: seq<Chunk>): nat
  {
    if p == [] then 0 else PacketSize(p[..|p| - 1]) + 3 + BodySize(p[|p| - 1])
  }

  // --- from bytes to chunks ---

  function Kind(c: Chunk): (kind: byte)
    ensures Encodable(c) ==> kind != 0xFF
  {
    match c case Data(_, _, _, _, _, _) => 0x10 case Next(_, _) => 0x11 case Other(kind, _) => kind
  }

  function Word(n: nat): seq<byte> { [n / 0x100 % 0x100, n % 0x100] }

  function Serialize(p: seq<Chunk>): seq<byte>
    requires forall c :: c in p ==> Encodable(c)
  {
    if p == [] then [] else [Kind(p[0])] + (Word(|Body(p[0])|) + (Body(p[0]) + Serialize(p[1..])))
  }

  function Take(s: seq<byte>, n: nat): seq<byte> { if n <= |s| then s[..n] else s }

  function Drop(s: seq<byte>, n: nat): seq<byte> { if n <= |s| then s[n..] else [] }

  /** Steps over header parts nobody knows, each announced by its length. */
  function SkipParts(length: byte, s: seq<byte>, pad: byte): seq<byte>
    decreases |s|
  {
    if length == 0 || s == [] then s else SkipParts(Head(Drop(s, length), pad), Tail(Drop(s, length)), pad)
  }

  function ParseIntro(s: seq<byte>, pad: byte): (Intro, seq<byte>)
  {
    var size, s1 := Head(s, pad), Tail(s);
    var signature, s2 := Take(s1, size), Drop(s1, size);
    var more, s3 := Head(s2, pad), Tail(s2);
    if more == 0 then (Intro(signature, 0), s3)
    else
      var mark, s4 := Head(s3, pad), Tail(s3);
      var (echo, s5) := if mark == 0x0A then Decode7(s4, pad) else (0, s4);
      (Intro(signature, echo), SkipParts(Head(s5, pad), Tail(s5), pad))
  }

  function ParseData(f: Flags, s: seq<byte>, pad: byte): Chunk
  {
    var (numbers, s1) := DecodeSome(s, 3, pad);
    if f.header then
      var (intro, s2) := ParseIntro(s1, pad);
      Data(f, numbers[0], numbers[1], numbers[2], Some(intro), s2)
    else Data(f, numbers[0], numbers[1], numbers[2], None, s1)
  }

  function ParseBody(kind: byte, s: seq<byte>, pad: byte): Chunk
  {
    if kind == 0x10 then ParseData(FlagsOf(Head(s, pad)), Tail(s), pad)
    else if kind == 0x11 then Next(FlagsOf(Head(s, pad)), Tail(s))
    else Other(kind, s)
  }

  function ReadWord(s: seq<byte>, pad: byte): nat { Head(s, pad) * 0x100 as int + Head(Tail(s), pad) }

  function Parse(s: seq<byte>, pad: byte): seq<Chunk>
    decreases |s|
  {
    if s == [] || s[0] == 0xFF then []
    else
      var size, s1 := ReadWord(Tail(s), pad), Drop(Tail(s), 2);
      [ParseBody(s[0], Take(s1, size), pad)] + Parse(Drop(s1, size), pad)
  }

  lemma FlagsRoundTrip(f: Flags)
    ensures FlagsOf(FlagByte(f)) == f
  {}

  /** Each flag has its own bit. */
  lemma FlagBits()
    ensures FlagByte(Flags(true, false, false, false, false)) == 0x80
    ensures FlagByte(Flags(false, true, false, false, false)) == 0x20
    ensures FlagByte(Flags(false, false, true, false, false)) == 0x10
    ensures FlagByte(Flags(false, false, false, true, false)) == 0x02
    ensures FlagByte(Flags(false, false, false, false, true)) == 0x01
  {}

  lemma Prepended(x: byte, s: seq<byte>, pad: byte)
    ensures Head([x] + s, pad) == x && Tail([x] + s) == s
  {}

  lemma Split(a: seq<byte>, b: seq<byte>)
    ensures Take(a + b, |a|) == a && Drop(a + b, |a|) == b
  {}

  lemma EchoRoundTrip(echo: nat, rest: seq<byte>, pad: byte)
    requires 0 < echo < LIMIT
    ensures var s := EchoThen(echo, rest);
            Head(s, pad) > 0 && Head(Tail(s), pad) == 0x0A && Decode7(Tail(Tail(s)), pad) == (echo, rest)
  {
    var e := Encode7(echo) + rest;
    Prepended(1 + Size7(echo), [0x0A] + e, pad);
    Prepended(0x0A, e, pad);
    DecodeEncode(echo, rest, pad);
  }

  lemma IntroRoundTrip(i: Intro, rest: seq<byte>, pad: byte)
    requires |i.signature| < 0x100 && i.echo < LIMIT
    ensures ParseIntro(IntroThen(Some(i), rest), pad) == (i, rest)
  {
    var s2 := EchoThen(i.echo, [0] + rest);
    Prepended(|i.signature|, i.signature + s2, pad);
    Split(i.signature, s2);
    Prepended(0, rest, pad);
    if i.echo > 0 { EchoRoundTrip(i.echo, [0] + rest, pad); }
  }

  lemma BodyRoundTrip(c: Chunk, pad: byte)
    requires Encodable(c)
    ensures ParseBody(Kind(c), Body(c), pad) == c
  {
    match c
    case Data(f, flow, stage, delta, intro, payload) =>
      var s := IntroThen(intro, payload);
      FlagsRoundTrip(f);
      Prepended(FlagByte(f), EncodeAll([flow, stage, delta]) + s, pad);
      SomeRoundTrip([flow, stage, delta], s, pad);
      if intro.Some? { IntroRoundTrip(intro.value, payload, pad); }
    case Next(f, payload) =>
      FlagsRoundTrip(f);
      Prepended(FlagByte(f), payload, pad);
    case Other(_, _) =>
  }

  /** The body of a chunk that opens flow 3 under signature 00 54 in answer to flow 5, with the first part of a
      message as stage 2; and of one that follows it with the last. */
  lemma BodyExample()
    ensures var open := Data(Flags(true, false, true, false, false), 3, 2, 1, Some(Intro([0, 0x54], 5)), [9, 8]);
            && Encodable(open) && Body(open) == [0x90, 3, 2, 1, 2, 0, 0x54, 2, 0x0A, 5, 0, 9, 8]
    ensures Body(Next(Flags(false, true, false, false, true), [7])) == [0x21, 7]
  {
    hide EncodeAll, IntroThen, EchoThen;
    IntroExample();
    NumbersExample();
  }

  lemma NumbersExample()
    ensures EncodeAll([3, 2, 1]) == [3, 2, 1]
  {
    assert [3, 2, 1][1..] == [2, 1] && [2, 1][1..] == [1] && [1][1..] == [];
  }

  lemma IntroExample()
    ensures IntroThen(Some(Intro([0, 0x54], 5)), [9, 8]) == [2, 0, 0x54, 2, 0x0A, 5, 0, 9, 8]
  {
    assert EchoThen(5, [0] + [9, 8]) == [2, 0x0A, 5, 0, 9, 8];
    hide EchoThen;
  }

  /** Behind its type and its length, each in turn. */
  lemma LayoutExample(a: Chunk, b: Chunk)
    requires a.Data? && b.Next? && Encodable(a) && |Body(a)| == 13 && |Body(b)| == 2
    ensures Serialize([a, b]) == [0x10, 0, 13] + Body(a) + [0x11, 0, 2] + Body(b)
  {
    hide Body;
    assert [a, b][1..] == [b] && [b][1..] == [];
    assert Serialize([b]) == [0x11, 0, 2] + Body(b);
  }

  /** Header parts nobody knows are stepped over: one of two bytes behind the flow answered. */
  lemma UnknownPartsExample(pad: byte)
    ensures ParseIntro([1, 0x54, 2, 0x0A, 5, 2, 0xAA, 0xBB, 0, 9], pad) == (Intro([0x54], 5), [9])
  {
    var s := [1, 0x54, 2, 0x0A, 5, 2, 0xAA, 0xBB, 0, 9];
    assert Tail(s)[..1] == [0x54] && Tail(s)[1..] == [2, 0x0A, 5, 2, 0xAA, 0xBB, 0, 9];
    DecodeOne(5, [2, 0xAA, 0xBB, 0, 9], pad);
    assert [5] + [2, 0xAA, 0xBB, 0, 9] == [5, 2, 0xAA, 0xBB, 0, 9];
    assert Drop([0xAA, 0xBB, 0, 9], 2) == [0, 9];
    assert SkipParts(0, [9], pad) == [9];
  }

  predicate Fill(s: seq<byte>) { forall i :: 0 <= i < |s| ==> s[i] == 0xFF }

  lemma WordRoundTrip(n: nat, rest: seq<byte>, pad: byte)
    requires n < 0x1_0000
    ensures ReadWord(Word(n) + rest, pad) == n && Drop(Word(n) + rest, 2) == rest
  {}

  lemma ParseChunk(kind: byte, body: seq<byte>, after: seq<byte>, pad: byte)
    requires kind != 0xFF && |body| < 0x1_0000
    ensures Parse([kind] + (Word(|body|) + (body + after)), pad) == [ParseBody(kind, body, pad)] + Parse(after, pad)
  {
    Prepended(kind, Word(|body|) + (body + after), pad);
    WordRoundTrip(|body|, body + after, pad);
    Split(body, after);
  }

  lemma SerializeThen(p: seq<Chunk>, fill: seq<byte>)
    requires p != [] && forall c :: c in p ==> Encodable(c)
    ensures Serialize(p) + fill
         == [Kind(p[0])] + (Word(|Body(p[0])|) + (Body(p[0]) + (Serialize(p[1..]) + fill)))
  {}

  lemma ParseFill(fill: seq<byte>, pad: byte)
    requires Fill(fill)
    ensures Parse(fill, pad) == []
  {}

  /** A packet laid out by the sender, with any padding of 0xFF bytes, parses back to its chunks. */
  lemma {:induction false} PacketRoundTrip(p: seq<Chunk>, fill: seq<byte>, pad: byte)
    requires forall c :: c in p ==> Encodable(c) && BodySize(c) < 0x1_0000
    requires Fill(fill)
    ensures Parse(Serialize(p) + fill, pad) == p
  {
    hide Parse, ParseBody, Body, BodySize, Encodable, Kind, Word;
    if p == [] {
      assert Serialize(p) + fill == fill;
      ParseFill(fill, pad);
    } else {
      var c, after := p[0], Serialize(p[1..]) + fill;
      assert forall d :: d in p[1..] ==> d in p;
      PacketRoundTrip(p[1..], fill, pad);
      BodyLength(c);
      BodyRoundTrip(c, pad);
      ParseChunk(Kind(c), Body(c), after, pad);
      SerializeThen(p, fill);
    }
  }

  lemma {:induction false} SizeFront(c: Chunk, p: seq<Chunk>)
    ensures PacketSize([c] + p) == 3 + BodySize(c) + PacketSize(p)
  {
    var q := [c] + p;
    if p == [] {
      assert q[..|q| - 1] == [] && q[|q| - 1] == c;
    } else {
      SizeFront(c, p[..|p| - 1]);
      assert q[..|q| - 1] == [c] + p[..|p| - 1] && q[|q| - 1] == p[|p| - 1];
    }
  }

  /** The bytes of a packet are as many as were counted while it was laid out, and no chunk in a packet
      within its capacity is too long for its 16-bit length. */
  lemma {:induction false} SerializedSize(p: seq<Chunk>)
    requires forall c :: c in p ==> Encodable(c)
    ensures |Serialize(p)| == PacketSize(p)
    ensures forall c :: c in p ==> 3 + BodySize(c) <= PacketSize(p)
  {
    if p == [] {
    } else {
      assert p == [p[0]] + p[1..];
      assert forall d :: d in p[1..] ==> d in p;
      SerializedSize(p[1..]);
      SizeFront(p[0], p[1..]);
      BodyLength(p[0]);
    }
  }

  // --- from chunks to the fragments they carry ---

  /** A fragment as the receiver sees it: which flow, which stage, how far behind it the oldest
      stage still wanted is, and what it carries. */
  datatype Segment = Segment(flow: nat, stage: nat, delta: nat, flags: Flags, payload: seq<byte>)

  /** The running flow, stage and delta of the chunk loop; `Nowhere` when no flow is selected. */
  datatype Cursor = Nowhere | At(flow: nat, stage: nat, delta: nat)

  function Advance(at: Cursor, c: Chunk): Cursor
  {
    match c
    case Data(_, flow, stage, delta, _, _) => At(flow, stage, delta)
    case Next(_, _) => if at.At? then At(at.flow, at.stage + 1, at.delta + 1) else Nowhere
    case Other(_, _) => Nowhere
  }

  function Emit(at: Cursor, c: Chunk): seq<Segment>
  {
    var to := Advance(at, c);
    if to.Nowhere? then [] else [Segment(to.flow, to.stage, to.delta, c.flags, c.payload)]
  }

  function CursorOf(p: seq<Chunk>): Cursor
  {
    if p == [] then Nowhere else Advance(CursorOf(p[..|p| - 1]), p[|p| - 1])
  }

  /** The fragments of a packet, recovered by the receiver's incremental rule. */
  function Segments(p: seq<Chunk>): seq<Segment>
  {
    if p == [] then [] else Segments(p[..|p| - 1]) + Emit(CursorOf(p[..|p| - 1]), p[|p| - 1])
  }

  function AllSegments(ps: seq<seq<Chunk>>): seq<Segment>
  {
    if ps == [] then [] else AllSegments(ps[..|ps| - 1]) + Segments(ps[|ps| - 1])
  }

  lemma AppendChunk(p: seq<Chunk>, c: Chunk)
    ensures Segments(p + [c]) == Segments(p) + Emit(CursorOf(p), c)
    ensures CursorOf(p + [c]) == Advance(CursorOf(p), c)
    ensures PacketSize(p + [c]) == PacketSize(p) + 3 + BodySize(c)
    ensures Overhead(p + [c]) == (match c
                                  case Data(_, _, _, _, _, _) => HeaderBytes(c)
                                  case Next(_, _) => Overhead(p) + 2
                                  case Other(_, _) => 0)
  {
    assert (p + [c])[..|p|] == p;
  }

  /** A chunk of another type ends the run: what follows it without a header belongs to no flow. */
  lemma OtherEndsRun(p: seq<Chunk>, kind: byte, content: seq<byte>, f: Flags, payload: seq<byte>)
    ensures Segments(p + [Other(kind, content)] + [Next(f, payload)]) == Segments(p)
  {
    AppendChunk(p, Other(kind, content));
    AppendChunk(p + [Other(kind, content)], Next(f, payload));
  }

  /** Header bytes already spent in the packet on the flow it is at, two more for every chunk
      that went without a header. */
  function Overhead(p: seq<Chunk>): nat
  {
    if p == [] then 0
    else
      var c := p[|p| - 1];
      match c
      case Data(_, _, _, _, _, _) => HeaderBytes(c)
      case Next(_, _) => Overhead(p[..|p| - 1]) + 2
      case Other(_, _) => 0
  }

  lemma {:induction false} OverheadFits(p: seq<Chunk>)
    ensures p != [] ==> PacketSize(p) >= Overhead(p) + 2
  {
    if p == [] {
    } else {
      OverheadFits(p[..|p| - 1]);
    }
  }

  /** The packet under construction of a session, and the packets already sent. */
  class Band {
    var packet: seq<Chunk>
    var sent: seq<seq<Chunk>>
    var owner: nat  // the flow writer that wrote last, 0 for none

    ghost predicate Valid() reads this { PacketSize(packet) <= CAPACITY }

    /** Every fragment handed to the network so far or waiting in the packet, in order. */
    ghost function Output(): seq<Segment>
      reads this
    {
      AllSegments(sent) + Segments(packet)
    }

    constructor ()
      ensures Valid() && packet == [] && sent == [] && owner == 0
    {
      packet, sent, owner := [], [], 0;
    }

    function Available(): nat
      requires Valid()
      reads this
    {
      CAPACITY - PacketSize(packet)
    }

    method Flush()
      requires Valid()
      modifies this
      ensures Valid() && packet == [] && owner == 0
      ensures Output() == old(Output())
      ensures sent == old(sent) + if old(packet) == [] then [] else [old(packet)]
    {
      owner := 0;
      if packet != [] {
        sent := sent + [packet];
        assert sent[..|sent| - 1] == old(sent);
        packet := [];
      }
    }

    /** Lays out a chunk of the announced length, in a new packet when the present one lacks room. */
    method WriteMessage(c: Chunk, length: nat, writer: nat)
      requires Valid() && length == BodySize(c) && 3 + length <= CAPACITY
      modifies this
      ensures Valid()
      ensures old(3 + length <= Available()) ==>
                && packet == old(packet) + [c] && sent == old(sent) && owner == writer
                && Output() == old(Output()) + Emit(old(CursorOf(packet)), c)
      ensures old(3 + length > Available()) ==>
                && packet == [c] && owner == 0 && sent == old(sent) + [old(packet)]
                && Output() == old(Output()) + Emit(Nowhere, c)
    {
      owner := writer;
      if 3 + length > CAPACITY - PacketSize(packet) {
        assert packet != [];
        Flush();
        owner := 0;
      }
      Append(c);
    }

    method Append(c: Chunk)
      requires Valid() && 3 + BodySize(c) <= Available()
      modifies this`packet
      ensures Valid() && packet == old(packet) + [c]
      ensures Output() == old(Output()) + Emit(old(CursorOf(packet)), c)
    {
      AppendChunk(packet, c);
      packet := packet + [c];
    }
  }
}
