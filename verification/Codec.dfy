/** The 7-bit variable-length integers of the protocol (the U29 form of section 1.3.1
    of the AMF3 specification) and the two streams that carry them. */
module Codec {

  type byte = x: int | 0 <= x < 0x100

  /** Values the four-byte form can hold. */
  const LIMIT := 0x2000_0000

  /** A 32-bit unsigned result. */
  function U32(x: int): nat { x % 0x1_0000_0000 }

  function Size7(v: nat): (n: nat)
    ensures 1 <= n <= 4
  {
    if v >= 0x20_0000 then 4 else if v >= 0x4000 then 3 else if v >= 0x80 then 2 else 1
  }

  /** The seven bits of `v` worth `unit`. */
  function Digit(v: nat, unit: nat): (d: byte)
    requires unit > 0
    ensures d < 0x80
  {
    (v / unit) % 0x80
  }

  /** The bytes of one value; like the source, the four-byte form keeps 29 bits. */
  function Encode7(v: nat): seq<byte>
  {
    match Size7(v)
    case 4 => [0x80 + Digit(v, 0x40_0000), 0x80 + Digit(v, 0x8000), 0x80 + Digit(v, 0x100), v % 0x100]
    case 3 => [0x80 + Digit(v, 0x4000), 0x80 + Digit(v, 0x80), Digit(v, 1)]
    case 2 => [0x80 + Digit(v, 0x80), Digit(v, 1)]
    case _ => [Digit(v, 1)]
  }

  /** What reading one byte yields; `pad` stands for the unspecified byte a read past the end leaves. */
  function Head(s: seq<byte>, pad: byte): byte { if s == [] then pad else s[0] }

  function Tail(s: seq<byte>): seq<byte> { if s == [] then [] else s[1..] }

  /** The value in front of `s` and what follows it, after `n` continuation bytes worth `acc`. */
  function Decode7From(s: seq<byte>, pad: byte, n: nat, acc: nat): (nat, seq<byte>)
    requires n <= 3
    decreases 3 - n
  {
    var b := Head(s, pad);
    if b >= 0x80 && n < 3 then Decode7From(Tail(s), pad, n + 1, acc * 0x80 + b % 0x80)
    else (acc * (if n < 3 then 0x80 else 0x100) + b, Tail(s))
  }

  function Decode7(s: seq<byte>, pad: byte): (nat, seq<byte>) { Decode7From(s, pad, 0, 0) }

  lemma DecodeProgress(s: seq<byte>, pad: byte, n: nat, acc: nat)
    requires n <= 3
    ensures |Decode7From(s, pad, n, acc).1| <= |s|
    ensures s != [] ==> |Decode7From(s, pad, n, acc).1| < |s|
    decreases 3 - n
  {}

  /** One byte decoded: the last one, or one that another follows. */
  lemma DecodeStep(s: seq<byte>, pad: byte, n: nat, acc: nat)
    requires n <= 3
    ensures var b := Head(s, pad);
            Decode7From(s, pad, n, acc)
            == if b >= 0x80 && n < 3 then Decode7From(Tail(s), pad, n + 1, acc * 0x80 + b % 0x80)
               else (acc * (if n < 3 then 0x80 else 0x100) + b, Tail(s))
  {}

  lemma Encode7Length(v: nat)
    ensures |Encode7(v)| == Size7(v)
  {}

  /** At the borders between the forms: the most significant digits come first. */
  lemma EncodingExample()
    ensures Encode7(0x7F) == [0x7F] && Encode7(0x80) == [0x81, 0] && Encode7(0x3F01) == [0xFE, 1]
    ensures Encode7(0x4003) == [0x81, 0x80, 3] && Encode7(0x20_0005) == [0x80, 0xC0, 0x80, 5]
    ensures Encode7(0x1FFF_FFFF) == [0xFF, 0xFF, 0xFF, 0xFF]
  {}

  lemma DecodeOne(x: byte, rest: seq<byte>, pad: byte)
    requires x < 0x80
    ensures Decode7([x] + rest, pad) == (x, rest)
  {}

  lemma DecodeTwo(x: byte, y: byte, rest: seq<byte>, pad: byte)
    requires x < 0x80 && y < 0x80
    ensures Decode7([0x80 + x, y] + rest, pad) == (x as int * 0x80 + y, rest)
  {}

  lemma DecodeThree(x: byte, y: byte, z: byte, rest: seq<byte>, pad: byte)
    requires x < 0x80 && y < 0x80 && z < 0x80
    ensures Decode7([0x80 + x, 0x80 + y, z] + rest, pad) == ((x as int * 0x80 + y) * 0x80 + z, rest)
  {
    var s1 := [z] + rest;
    var s2 := [0x80 + y] + s1;
    assert [0x80 + x, 0x80 + y, z] + rest == [0x80 + x] + s2;
    hide Decode7From;
    DecodeStep([0x80 + x] + s2, pad, 0, 0);
    DecodeStep(s2, pad, 1, x);
    DecodeStep(s1, pad, 2, x as int * 0x80 + y);
  }

  lemma DecodeFour(x: byte, y: byte, z: byte, d: byte, rest: seq<byte>, pad: byte)
    requires x < 0x80 && y < 0x80 && z < 0x80
    ensures Decode7([0x80 + x, 0x80 + y, 0x80 + z, d] + rest, pad)
         == (((x as int * 0x80 + y) * 0x80 + z) * 0x100 + d, rest)
  {
    var s1 := [d] + rest;
    var s2 := [0x80 + z] + s1;
    var s3 := [0x80 + y] + s2;
    assert [0x80 + x, 0x80 + y, 0x80 + z, d] + rest == [0x80 + x] + s3;
    hide Decode7From;
    DecodeStep([0x80 + x] + s3, pad, 0, 0);
    DecodeStep(s3, pad, 1, x);
    DecodeStep(s2, pad, 2, x as int * 0x80 + y);
    DecodeStep(s1, pad, 3, (x as int * 0x80 + y) * 0x80 + z);
  }

  /** Shifting in two steps. */
  lemma Shifts(v: nat)
    ensures v / 0x80 / 0x80 == v / 0x4000
    ensures v / 0x100 / 0x80 == v / 0x8000
    ensures v / 0x8000 / 0x80 == v / 0x40_0000
    ensures v / 0x40_0000 / 0x80 == v / LIMIT
  {}

  lemma FourDigits(v: nat)
    ensures ((Digit(v, 0x40_0000) as int * 0x80 + Digit(v, 0x8000)) * 0x80 + Digit(v, 0x100)) * 0x100 + v % 0x100
            == v % LIMIT
  {
    Shifts(v);
    var h, g, f, e := v / 0x100, v / 0x8000, v / 0x40_0000, v / LIMIT;
    assert v == h * 0x100 + v % 0x100;
    assert h == g * 0x80 + Digit(v, 0x100);
    assert g == f * 0x80 + Digit(v, 0x8000);
    assert f == e * 0x80 + Digit(v, 0x40_0000);
    assert v == e * LIMIT + v % LIMIT;
  }

  lemma FewDigits(v: nat)
    ensures v < 0x80 ==> Digit(v, 1) == v
    ensures v < 0x4000 ==> Digit(v, 0x80) as int * 0x80 + Digit(v, 1) == v
    ensures v < 0x20_0000 ==> (Digit(v, 0x4000) as int * 0x80 + Digit(v, 0x80)) * 0x80 + Digit(v, 1) == v
  {}

  /** Whatever follows an encoding, decoding gives the value back without its bits above the 29th,
      and stops exactly at the end of the encoding. */
  lemma DecodeEncode(v: nat, rest: seq<byte>, pad: byte)
    ensures Decode7(Encode7(v) + rest, pad) == (v % LIMIT, rest)
  {
    hide Decode7;
    if v >= 0x20_0000 {
      DecodeFour(Digit(v, 0x40_0000), Digit(v, 0x8000), Digit(v, 0x100), v % 0x100, rest, pad);
      FourDigits(v);
    } else {
      FewDigits(v);
      if v >= 0x4000 {
        DecodeThree(Digit(v, 0x4000), Digit(v, 0x80), Digit(v, 1), rest, pad);
      } else if v >= 0x80 {
        DecodeTwo(Digit(v, 0x80), Digit(v, 1), rest, pad);
      } else {
        DecodeOne(Digit(v, 1), rest, pad);
      }
    }
  }

  lemma LowBits(v: nat)
    ensures v < LIMIT <==> v % LIMIT == v
  {}

  /** A value survives the wire exactly when it is below 2^29. */
  lemma RoundTripIffBelowLimit(v: nat, rest: seq<byte>, pad: byte)
    ensures Decode7(Encode7(v) + rest, pad) == (v, rest) <==> v < LIMIT
  {
    hide Decode7, Encode7;
    LowBits(v);
    DecodeEncode(v, rest, pad);
  }

  function EncodeAll(vs: seq<nat>): seq<byte>
  {
    if vs == [] then [] else Encode7(vs[0]) + EncodeAll(vs[1..])
  }

  function DecodeAll(s: seq<byte>, pad: byte): seq<nat>
    decreases |s|
  {
    if s == [] then []
    else
      DecodeProgress(s, pad, 0, 0);
      var (v, rest) := Decode7(s, pad);
      [v] + DecodeAll(rest, pad)
  }

  function SizeAll(vs: seq<nat>): nat
  {
    if vs == [] then 0 else Size7(vs[0]) + SizeAll(vs[1..])
  }

  lemma DecodeAllCons(v: nat, rest: seq<byte>, pad: byte)
    requires v < LIMIT
    ensures DecodeAll(Encode7(v) + rest, pad) == [v] + DecodeAll(rest, pad)
  {
    DecodeEncode(v, rest, pad);
    Encode7Length(v);
    DecodeAllStep(Encode7(v) + rest, pad, v, rest);
  }

  lemma DecodeAllStep(s: seq<byte>, pad: byte, v: nat, rest: seq<byte>)
    requires s != [] && Decode7(s, pad) == (v, rest)
    ensures DecodeAll(s, pad) == [v] + DecodeAll(rest, pad)
  {}

  lemma {:induction false} EncodeAllLength(vs: seq<nat>)
    ensures |EncodeAll(vs)| == SizeAll(vs)
  {
    if vs == [] {
    } else {
      EncodeAllLength(vs[1..]);
      Encode7Length(vs[0]);
    }
  }

  /** A list of values decodes to itself with nothing left over, and takes the bytes announced for it. */
  lemma {:induction false} ListRoundTrip(vs: seq<nat>, pad: byte)
    requires forall v :: v in vs ==> v < LIMIT
    ensures DecodeAll(EncodeAll(vs), pad) == vs
    ensures |EncodeAll(vs)| == SizeAll(vs)
  {
    EncodeAllLength(vs);
    if vs == [] {
    } else {
      assert forall v :: v in vs[1..] ==> v in vs;
      ListRoundTrip(vs[1..], pad);
      assert vs[0] in vs;
      DecodeAllCons(vs[0], EncodeAll(vs[1..]), pad);
    }
  }

  /** The first `n` values of `s` and what follows them. */
  function DecodeSome(s: seq<byte>, n: nat, pad: byte): (r: (seq<nat>, seq<byte>))
    ensures |r.0| == n
  {
    if n == 0 then ([], s)
    else
      var (v, s1) := Decode7(s, pad);
      var (vs, rest) := DecodeSome(s1, n - 1, pad);
      ([v] + vs, rest)
  }

  lemma DecodeSomeStep(s: seq<byte>, n: nat, pad: byte, v: nat, s1: seq<byte>)
    requires n > 0 && Decode7(s, pad) == (v, s1)
    ensures DecodeSome(s, n, pad) == ([v] + DecodeSome(s1, n - 1, pad).0, DecodeSome(s1, n - 1, pad).1)
  {}

  lemma DecodeSomeCons(v: nat, s1: seq<byte>, n: nat, pad: byte)
    requires v < LIMIT
    ensures DecodeSome(Encode7(v) + s1, n + 1, pad) == ([v] + DecodeSome(s1, n, pad).0, DecodeSome(s1, n, pad).1)
  {
    hide Decode7, Encode7;
    DecodeEncode(v, s1, pad);
    DecodeSomeStep(Encode7(v) + s1, n + 1, pad, v, s1);
  }

  lemma EncodeAllThen(vs: seq<nat>, rest: seq<byte>)
    requires vs != []
    ensures EncodeAll(vs) + rest == Encode7(vs[0]) + (EncodeAll(vs[1..]) + rest)
  {}

  lemma {:induction false} SomeRoundTrip(vs: seq<nat>, rest: seq<byte>, pad: byte)
    requires forall i :: 0 <= i < |vs| ==> vs[i] < LIMIT
    ensures DecodeSome(EncodeAll(vs) + rest, |vs|, pad) == (vs, rest)
  {
    if vs == [] {
      assert EncodeAll(vs) + rest == rest;
    } else {
      SomeRoundTrip(vs[1..], rest, pad);
      EncodeAllThen(vs, rest);
      DecodeSomeCons(vs[0], EncodeAll(vs[1..]) + rest, |vs| - 1, pad);
      assert vs == [vs[0]] + vs[1..];
    }
  }

  lemma {:induction false} EncodeAllAppend(vs: seq<nat>, ws: seq<nat>)
    ensures EncodeAll(vs + ws) == EncodeAll(vs) + EncodeAll(ws)
    ensures SizeAll(vs + ws) == SizeAll(vs) + SizeAll(ws)
  {
    if vs == [] {
      assert vs + ws == ws;
    } else {
      assert (vs + ws)[0] == vs[0] && (vs + ws)[1..] == vs[1..] + ws;
      EncodeAllAppend(vs[1..], ws);
    }
  }

  /** The input stream over one received message. */
  class PacketReader {
    const data: seq<byte>
    const pad: byte
    var pos: nat

    ghost predicate Valid() reads this { pos <= |data| }

    ghost function Rest(): seq<byte>
      requires Valid()
      reads this
    {
      data[pos..]
    }

    constructor (data: seq<byte>, pad: byte)
      ensures Valid() && Rest() == data && this.data == data && this.pad == pad
    {
      this.data, this.pad, pos := data, pad, 0;
    }

    function Available(): nat
      requires Valid()
      reads this
    {
      |data| - pos
    }

    method Reset(to: nat)
      requires Valid() && to <= |data|
      modifies this
      ensures Valid() && pos == to
    {
      pos := to;
    }

    method Read8() returns (b: byte)
      requires Valid()
      modifies this
      ensures Valid() && b == Head(old(Rest()), pad) && Rest() == Tail(old(Rest()))
    {
      if pos < |data| {
        b := data[pos];
        pos := pos + 1;
      } else {
        b := pad;
      }
    }

    method Read16() returns (word: nat)
      requires Valid()
      modifies this
      ensures Valid() && word == Head(old(Rest()), pad) * 0x100 as int + Head(Tail(old(Rest())), pad)
      ensures Rest() == Tail(Tail(old(Rest())))
    {
      var high := Read8();
      var low := Read8();
      word := high * 0x100 as int + low;
    }

    method Read7BitValue() returns (result: nat)
      requires Valid()
      modifies this
      ensures Valid() && (result, Rest()) == Decode7(old(Rest()), pad)
      ensures result < LIMIT && |Rest()| <= |old(Rest())|
      ensures old(Rest()) != [] ==> |Rest()| < |old(Rest())|
    {
      hide Decode7From, Head, Tail;
      ghost var was := Rest();
      DecodeProgress(was, pad, 0, 0);
      var n := 0;
      var b := Read8();
      result := 0;
      ghost var behind := was;
      while b >= 0x80 && n < 3
        invariant Valid() && n <= 3
        invariant n == 0 ==> result == 0
        invariant n == 1 ==> result < 0x80
        invariant n == 2 ==> result < 0x4000
        invariant n == 3 ==> result < 0x20_0000
        invariant b == Head(behind, pad) && Rest() == Tail(behind)
        invariant Decode7From(was, pad, 0, 0) == Decode7From(behind, pad, n, result)
        decreases 3 - n
      {
        DecodeStep(behind, pad, n, result);
        result := result * 0x80 + b % 0x80;
        behind := Rest();
        b := Read8();
        n := n + 1;
      }
      DecodeStep(behind, pad, n, result);
      result := result * (if n < 3 then 0x80 else 0x100) + b;
    }
  }

  /** The output stream a message is laid out on. */
  class BinaryWriter {
    var out: seq<byte>

    constructor ()
      ensures out == []
    {
      out := [];
    }

    method Write8(b: byte)
      modifies this
      ensures out == old(out) + [b]
    {
      out := out + [b];
    }

    method Write7BitValue(v: nat)
      modifies this
      ensures out == old(out) + Encode7(v)
    {
      var n := Size7(v);
      if n == 4 {
        Write8(0x80 + Digit(v, 0x40_0000));
        Write8(0x80 + Digit(v, 0x8000));
        Write8(0x80 + Digit(v, 0x100));
        Write8(v % 0x100);
      } else if n == 3 {
        Write8(0x80 + Digit(v, 0x4000));
        Write8(0x80 + Digit(v, 0x80));
        Write8(Digit(v, 1));
      } else if n == 2 {
        Write8(0x80 + Digit(v, 0x80));
        Write8(Digit(v, 1));
      } else {
        Write8(Digit(v, 1));
      }
    }
  }
}
