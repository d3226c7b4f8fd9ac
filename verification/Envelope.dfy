/** The envelope of a packet: time stamps in front of the chunks, padding, checksum, encryption and the
    scrambled session id. Encryption itself is a pair of functions that undo each other. */
module Envelope {
  import opened Codec
  import opened Wire

  // --- exclusive or, digit by digit in base two ---

  function Xor(a: nat, b: nat): nat
    decreases a + b
  {
    if a == 0 && b == 0 then 0 else 2 * Xor(a / 2, b / 2) + (a + b) % 2
  }

  function Pow2(n: nat): nat { if n == 0 then 1 else 2 * Pow2(n - 1) }

  lemma {:induction false} XorCommutes(a: nat, b: nat)
    ensures Xor(a, b) == Xor(b, a)
    decreases a + b
  {
    if a + b == 0 {
    } else {
      XorCommutes(a / 2, b / 2);
    }
  }

  lemma {:induction false} XorZero(a: nat)
    ensures Xor(a, 0) == a
  {
    if a == 0 {
    } else {
      XorZero(a / 2);
    }
  }

  lemma {:induction false} XorSelf(a: nat)
    ensures Xor(a, a) == 0
  {
    if a == 0 {
    } else {
      XorSelf(a / 2);
    }
  }

  lemma XorDigits(a: nat, b: nat)
    ensures Xor(a, b) / 2 == Xor(a / 2, b / 2) && Xor(a, b) % 2 == (a + b) % 2
  {
  }

  lemma SameParity(x: nat, y: nat, a: nat, b: nat, c: nat)
    requires x % 2 == (a + b) % 2 && y % 2 == (b + c) % 2
    ensures (x + c) % 2 == (a + y) % 2
  {
  }

  lemma {:induction false} XorAssociates(a: nat, b: nat, c: nat)
    ensures Xor(Xor(a, b), c) == Xor(a, Xor(b, c))
    decreases a + b + c
  {
    hide Xor;
    if a + b + c == 0 {
      XorSelf(0);
    } else {
      XorAssociates(a / 2, b / 2, c / 2);
      XorDigits(a, b);
      XorDigits(b, c);
      XorDigits(Xor(a, b), c);
      XorDigits(a, Xor(b, c));
      SameParity(Xor(a, b), Xor(b, c), a, b, c);
    }
  }

  lemma {:induction false} XorBelow(a: nat, b: nat, n: nat)
    requires a < Pow2(n) && b < Pow2(n)
    ensures Xor(a, b) < Pow2(n)
  {
    if n == 0 || a + b == 0 {
    } else {
      XorBelow(a / 2, b / 2, n - 1);
    }
  }

  lemma Pow2Of32()
    ensures Pow2(32) == 0x1_0000_0000
  {
    assert Pow2(8) == 0x100;
    assert Pow2(16) == 0x1_0000;
    assert Pow2(24) == 0x100_0000;
  }

  /** The id comes back when the two words it was scrambled with are taken out again. */
  lemma Unscramble(a: nat, b: nat, id: nat)
    ensures Xor(Xor(Xor(0, Xor(Xor(a, b), id)), a), b) == id
  {
    var w := Xor(a, b);
    XorCommutes(0, Xor(w, id));
    XorZero(Xor(w, id));
    XorAssociates(Xor(w, id), a, b);
    XorCommutes(w, id);
    XorAssociates(id, w, w);
    XorSelf(w);
    XorZero(id);
  }

  // --- the checksum ---

  function WordAt(s: seq<byte>): nat
    requires |s| >= 2
  {
    s[0] as int * 0x100 + s[1]
  }

  /** The plain sum of the 16-bit words; an odd last byte counts by itself, as a low byte. */
  function Sum(s: seq<byte>): nat
  {
    if s == [] then 0 else if |s| == 1 then s[0] else WordAt(s) + Sum(s[2..])
  }

  /** Adds the carries back in, twice, and keeps 16 bits. */
  function Folded(sum: nat): nat
  {
    var once := sum / 0x1_0000 + sum % 0x1_0000;
    (once + once / 0x1_0000) % 0x1_0000
  }

  function CheckSumOf(s: seq<byte>): (r: nat)
    ensures r < 0x1_0000
  {
    0xFFFF - Folded(Sum(s))
  }

  /** One's complement addition: a carry out goes back in at once (section 1 of RFC 1071). */
  function Plus(a: nat, b: nat): nat { if a + b < 0x1_0000 then a + b else a + b - 0xFFFF }

  function OnesSum(s: seq<byte>): (r: nat)
    ensures r < 0x1_0000
  {
    if s == [] then 0 else if |s| == 1 then s[0] else Plus(WordAt(s), OnesSum(s[2..]))
  }

  /** What is left of a plain sum once every multiple of 65535 is cast out, zero only for zero. */
  function CastOut(sum: nat): nat { if sum == 0 then 0 else (sum - 1) % 0xFFFF + 1 }

  lemma FoldedCastsOut(sum: nat)
    requires sum < 0x1_0000_0000
    ensures Folded(sum) == CastOut(sum)
  {
    var high, low := sum / 0x1_0000, sum % 0x1_0000;
    assert sum == 0xFFFF * high + (high + low);
    if 0 < high + low <= 0xFFFF {
      Remainder(high, high + low - 1);
    } else if high + low > 0xFFFF {
      Remainder(high + 1, high + low - 0x1_0000);
    }
  }

  lemma Remainder(q: nat, r: nat)
    requires r < 0xFFFF
    ensures (0xFFFF * q + r) % 0xFFFF == r
  {
  }

  lemma PlusCastsOut(w: nat, sum: nat)
    requires w < 0x1_0000
    ensures CastOut(w + sum) == Plus(w, CastOut(sum))
  {
    if sum > 0 {
      var q, r := (sum - 1) / 0xFFFF, (sum - 1) % 0xFFFF;
      assert sum - 1 == 0xFFFF * q + r;
      if w + r < 0xFFFF {
        Remainder(q, w + r);
      } else if w + r < 0x1_FFFE {
        Remainder(q + 1, w + r - 0xFFFF);
      }
    }
  }

  lemma {:induction false} OnesSumCastsOut(s: seq<byte>)
    ensures OnesSum(s) == CastOut(Sum(s))
  {
    if |s| < 2 {
    } else {
      OnesSumCastsOut(s[2..]);
      PlusCastsOut(WordAt(s), Sum(s[2..]));
    }
  }

  lemma {:induction false} SumBound(s: seq<byte>)
    ensures Sum(s) <= 0xFFFF * ((|s| + 1) / 2)
  {
    if |s| < 2 {
    } else {
      SumBound(s[2..]);
    }
  }

  /** Folding the plain sum twice gives the one's complement sum of the words, for anything a datagram can
      hold: the plain sum does not overflow the 31 bits the source keeps it in. */
  lemma CheckSumIsOnesComplement(s: seq<byte>)
    requires |s| <= 0x1_0000
    ensures Sum(s) < 0x8000_0000 && CheckSumOf(s) == 0xFFFF - OnesSum(s)
  {
    SumBound(s);
    FoldedCastsOut(Sum(s));
    OnesSumCastsOut(s);
  }

  lemma {:induction false} SumAppend(a: seq<byte>, b: seq<byte>)
    requires |a| % 2 == 0
    ensures Sum(a + b) == Sum(a) + Sum(b)
  {
    if a == [] {
      assert a + b == b;
    } else {
      SumAppend(a[2..], b);
      assert (a + b)[2..] == a[2..] + b;
    }
  }

  lemma SumOfWord(a: seq<byte>, w: nat, b: seq<byte>)
    requires |a| % 2 == 0 && w < 0x1_0000
    ensures Sum(a + Word(w) + b) == Sum(a) + Sum(b) + w
  {
    SumAppend(a + Word(w), b);
    SumAppend(a, Word(w));
    assert Word(w)[2..] == [];
  }

  lemma CastOutEqual(x: nat, w: nat, v: nat)
    requires w < 0x1_0000 && v < 0x1_0000
    ensures CastOut(x + w) == CastOut(x + v)
       <==> w == v || (x > 0 && ((w == 0 && v == 0xFFFF) || (w == 0xFFFF && v == 0)))
  {
    PlusCastsOut(w, x);
    PlusCastsOut(v, x);
    assert x > 0 ==> 0 < CastOut(x) < 0x1_0000;
  }

  lemma CheckSumCastsOut(s: seq<byte>)
    requires |s| <= 0x1_0000
    ensures CheckSumOf(s) == 0xFFFF - CastOut(Sum(s))
  {
    SumBound(s);
    FoldedCastsOut(Sum(s));
  }

  lemma WordLength(w: nat)
    ensures |Word(w)| == 2
  {
  }

  lemma CheckSumOfWord(a: seq<byte>, w: nat, b: seq<byte>)
    requires |a| % 2 == 0 && w < 0x1_0000 && |a| + 2 + |b| <= 0x1_0000
    ensures CheckSumOf(a + Word(w) + b) == 0xFFFF - CastOut(Sum(a) + Sum(b) + w)
  {
    hide *;
    WordLength(w);
    SumOfWord(a, w, b);
    CheckSumCastsOut(a + Word(w) + b);
  }

  /** A change to one 16-bit word of a packet goes unnoticed only when it swaps all zeros and all ones, and
      the rest of the packet is not all zeros. */
  lemma OneWordChange(a: seq<byte>, w: nat, v: nat, b: seq<byte>)
    requires |a| % 2 == 0 && w < 0x1_0000 && v < 0x1_0000 && |a| + 2 + |b| <= 0x1_0000
    ensures CheckSumOf(a + Word(w) + b) == CheckSumOf(a + Word(v) + b)
       <==> w == v || (Sum(a) + Sum(b) > 0 && ((w == 0 && v == 0xFFFF) || (w == 0xFFFF && v == 0)))
  {
    hide *;
    CheckSumOfWord(a, w, b);
    CheckSumOfWord(a, v, b);
    CastOutEqual(Sum(a) + Sum(b), w, v);
  }

  lemma SumSteps(s: seq<byte>, pad: byte)
    ensures |s| == 1 ==> Sum(s) == Head(s, pad) + Sum(Tail(s))
    ensures |s| >= 2 ==> Sum(s) == Head(s, pad) * 0x100 as int + Head(Tail(s), pad) + Sum(Tail(Tail(s)))
    ensures s == [] ==> Sum(s) == 0
    ensures s != [] ==> |Tail(s)| == |s| - 1
  {
    if |s| >= 2 {
      assert Tail(Tail(s)) == s[2..];
    }
  }

  /** Sums the rest of the packet, and puts the reader back where it was. */
  method CheckSum(packet: PacketReader) returns (sum: nat)
    requires packet.Valid()
    modifies packet
    ensures packet.Valid() && packet.pos == old(packet.pos) && sum == CheckSumOf(packet.Rest())
  {
    hide Sum, Head, Tail;
    var total: nat := 0;
    var pos := packet.pos;
    ghost var all := packet.Rest();
    while packet.Available() > 0
      invariant packet.Valid() && total + Sum(packet.Rest()) == Sum(all)
      decreases packet.Available()
    {
      SumSteps(packet.Rest(), packet.pad);
      SumSteps(Tail(packet.Rest()), packet.pad);
      if packet.Available() == 1 {
        var last := packet.Read8();
        total := total + last;
      } else {
        var word := packet.Read16();
        total := total + word;
      }
    }
    SumSteps(packet.Rest(), packet.pad);
    packet.Reset(pos);
    total := total / 0x1_0000 + total % 0x1_0000;
    total := total + total / 0x1_0000;
    sum := 0xFFFF - total % 0x1_0000;
  }

  // --- the envelope ---

  /** An encryption engine in one direction; one without a key leaves everything as it is. */
  datatype Engine = Null | Keyed(process: seq<byte> -> seq<byte>)

  function Process(engine: Engine, s: seq<byte>): seq<byte>
  {
    if engine.Null? then s else engine.process(s)
  }

  /** The second engine undoes the first on whole blocks of 16 bytes. */
  ghost predicate Opposite(encrypt: Engine, decrypt: Engine)
  {
    && (encrypt.Null? <==> decrypt.Null?)
    && forall s {:trigger Process(encrypt, s)} :: encrypt.Null? || |s| % 16 == 0 ==>
         |Process(encrypt, s)| == |s| && Process(decrypt, Process(encrypt, s)) == s
  }

  function PaddingLength(length: nat): nat
    requires length < 0x1_0000_0000
  {
    (0xFFFF_FFFF - length + 5) % 0x1_0000_0000 % 0x10
  }

  lemma PaddingFillsBlocks(length: nat)
    requires length < 0x1_0000_0000
    ensures (length + PaddingLength(length)) % 16 == 4 && PaddingLength(length) < 16
  {
  }

  function Filling(n: nat): seq<byte> { seq(n, _ => 0xFF) }

  function Padded(s: seq<byte>, engine: Engine): seq<byte>
    requires |s| < 0x1_0000_0000
  {
    if engine.Null? then s else s + Filling(PaddingLength(|s|))
  }

  /** The packet with the checksum of everything behind it in its fifth and sixth bytes. */
  function Stamped(s: seq<byte>): seq<byte>
    requires |s| >= 6
  {
    s[..4] + Word(CheckSumOf(s[6..])) + s[6..]
  }

  function Processed(s: seq<byte>, engine: Engine): seq<byte>
    requires |s| >= 4
  {
    s[..4] + Process(engine, s[4..])
  }

  function Encoded(s: seq<byte>, engine: Engine): seq<byte>
    requires 12 <= |s| < 0x1_0000_0000
  {
    Processed(Stamped(Padded(s, engine)), engine)
  }

  function Read32(s: seq<byte>, at: nat): nat
    requires at + 4 <= |s|
  {
    s[at] as int * 0x100_0000 + s[at + 1] as int * 0x1_0000 + s[at + 2] as int * 0x100 + s[at + 3]
  }

  function Write32(n: nat): seq<byte>
  {
    [n / 0x100 / 0x100 / 0x100 % 0x100, n / 0x100 / 0x100 % 0x100, n / 0x100 % 0x100, n % 0x100]
  }

  lemma Words32(n: nat, rest: seq<byte>)
    requires n < 0x1_0000_0000
    ensures Read32(Write32(n) + rest, 0) == n
  {
  }

  function Scrambled(s: seq<byte>, id: nat): nat
    requires |s| >= 12
  {
    Xor(Xor(Read32(s, 4), Read32(s, 8)), id)
  }

  function Packed(s: seq<byte>, farId: nat): seq<byte>
    requires |s| >= 12
  {
    Write32(Scrambled(s, farId)) + s[4..]
  }

  function Unpacked(s: seq<byte>): nat
    requires |s| >= 12
  {
    Xor(Xor(Xor(0, Read32(s, 0)), Read32(s, 4)), Read32(s, 8))
  }

  predicate Accepted(s: seq<byte>)
    requires |s| >= 6
  {
    WordAt(s[4..]) == CheckSumOf(s[6..])
  }

  lemma PackRoundTrip(s: seq<byte>, id: nat)
    requires |s| >= 12 && id < 0x1_0000_0000
    ensures var t := Packed(s, id); |t| == |s| && t[4..] == s[4..] && Unpacked(t) == id
  {
    var t := Packed(s, id);
    assert t[4..] == s[4..];
    assert Read32(t, 4) == Read32(s, 4) && Read32(t, 8) == Read32(s, 8);
    Pow2Of32();
    XorBelow(Read32(s, 4), Read32(s, 8), 32);
    XorBelow(Xor(Read32(s, 4), Read32(s, 8)), id, 32);
    Words32(Scrambled(s, id), s[4..]);
    Unscramble(Read32(s, 4), Read32(s, 8), id);
  }

  lemma StampAccepted(s: seq<byte>, front: seq<byte>)
    requires |s| >= 6 && |front| == 4
    ensures var t := front + Stamped(s)[4..]; |t| == |s| && t[6..] == s[6..] && Accepted(t)
  {
    var t := front + Stamped(s)[4..];
    var sum := CheckSumOf(s[6..]);
    assert t[6..] == s[6..];
    assert t[4] == sum / 0x100 % 0x100 && t[5] == sum % 0x100;
  }

  lemma ProcessRoundTrip(s: seq<byte>, front: seq<byte>, encrypt: Engine, decrypt: Engine)
    requires |s| >= 4 && |front| == 4 && Opposite(encrypt, decrypt) && (encrypt.Null? || |s| % 16 == 4)
    ensures var t := Processed(s, encrypt);
            |t| == |s| && Processed(front + t[4..], decrypt) == front + s[4..]
  {
    assert Process(decrypt, Process(encrypt, s[4..])) == s[4..];
    assert Processed(s, encrypt)[4..] == Process(encrypt, s[4..]);
    assert (front + Processed(s, encrypt)[4..])[4..] == Process(encrypt, s[4..]);
  }

  /** A packet that was padded, stamped, encrypted and packed gives back the far id, passes the check after
      decryption, and holds what was behind the checksum followed by padding of 0xFF bytes only. */
  lemma EnvelopeRoundTrip(s: seq<byte>, encrypt: Engine, decrypt: Engine, farId: nat)
    requires 12 <= |s| < 0xFFFF_FF00 && farId < 0x1_0000_0000 && Opposite(encrypt, decrypt)
    ensures |Encoded(s, encrypt)| >= 12
    ensures var sent := Packed(Encoded(s, encrypt), farId);
            && Unpacked(sent) == farId
            && (encrypt.Keyed? ==> |sent| % 16 == 4)
            && |Processed(sent, decrypt)| == |sent|
            && Accepted(Processed(sent, decrypt))
            && |s| <= |sent| && Processed(sent, decrypt)[6..|s|] == s[6..]
            && Fill(Processed(sent, decrypt)[|s|..])
  {
    PaddingFillsBlocks(|s|);
    var padded := Padded(s, encrypt);
    var stamped := Stamped(padded);
    var coded := Encoded(s, encrypt);
    hide Opposite, Process, Accepted, Unpacked, CheckSumOf, Scrambled, Write32;
    ProcessRoundTrip(stamped, stamped[..4], encrypt, decrypt);
    PackRoundTrip(coded, farId);
    var sent := Packed(coded, farId);
    assert sent == sent[..4] + coded[4..];
    ProcessRoundTrip(stamped, sent[..4], encrypt, decrypt);
    StampAccepted(padded, sent[..4]);
    FillingBehind(s, padded, Processed(sent, decrypt));
  }

  lemma FillingBehind(s: seq<byte>, padded: seq<byte>, t: seq<byte>)
    requires |s| >= 6 && s <= padded && Fill(padded[|s|..]) && |t| == |padded| && t[6..] == padded[6..]
    ensures t[6..|s|] == s[6..] && Fill(t[|s|..])
  {
    assert forall i :: 6 <= i < |padded| ==> t[i] == t[6..][i - 6] == padded[6..][i - 6] == padded[i];
    assert forall i :: 0 <= i < |t[|s|..]| ==> t[|s|..][i] == padded[|s|..][i];
  }

  /** All numbers of the envelope have their high bytes first. */
  lemma EnvelopeExample()
    ensures CheckSumOf([1, 2, 3]) == 0xFEFA
    ensures Stamped([9, 9, 9, 9, 0, 0, 1, 2, 3]) == [9, 9, 9, 9, 0xFE, 0xFA, 1, 2, 3]
    ensures Write32(0x0102_0304) == [1, 2, 3, 4]
    ensures Xor(0xC, 0xA) == 6
    ensures Framed(0x89, 0x0102, Some(0x0304), [7]) == [0x8D, 1, 2, 3, 4, 7]
    ensures Framed(0x89, 0x0102, None, [7]) == [0x89, 1, 2, 7]
  {
    assert [1, 2, 3][2..] == [3];
    assert Sum([3]) == 3 && Sum([1, 2, 3]) == 0x0105;
    assert [9, 9, 9, 9, 0, 0, 1, 2, 3][6..] == [1, 2, 3];
    assert Xor(1, 1) == 0 by { assert Xor(0, 0) == 0; }
    assert Xor(3, 2) == 1 && Xor(6, 5) == 3;
  }

  // --- the front of the packet, between the envelope and the chunks ---

  /** The marker and the time stamps a session puts in front of the chunks. */
  function Framed(marker: byte, time: nat, echo: Option<nat>, chunks: seq<byte>): seq<byte>
    requires marker < 0xFC
  {
    if echo.Some? then [marker + 4] + Word(time) + Word(echo.value) + chunks else [marker] + Word(time) + chunks
  }

  /** Where a received packet's chunks begin: only a marker ending in 0xD announces an echoed time. */
  function Unframed(s: seq<byte>): seq<byte>
  {
    if s != [] && s[0] % 0x10 == 0xD then Drop(s, 5) else Drop(s, 3)
  }

  /** Whether the last digit of the marker tells the receiver truly if an echo follows. */
  predicate TellsEcho(marker: byte, echo: Option<nat>)
  {
    if echo.Some? then marker % 0x10 == 9 else marker % 0x10 != 0xD
  }

  /** The chunks are found again exactly when the marker's last digit tells the echo truly. The markers
      0x89 and 0x8D of the side that opened the session do; those of the answering side, 0x4A and 0x4E,
      do not when there is an echo. */
  lemma FrameRoundTrip(marker: byte, time: nat, echo: Option<nat>, chunks: seq<byte>)
    requires marker < 0xFC && chunks != []
    ensures Unframed(Framed(marker, time, echo, chunks)) == chunks
       <==> TellsEcho(marker, echo)
  {
    var s := Framed(marker, time, echo, chunks);
    if echo.Some? {
      assert s[5..] == chunks;
      assert marker % 0x10 != 9 ==> |Unframed(s)| == |chunks| + 2;
    } else {
      assert s[3..] == chunks;
      assert marker % 0x10 == 0xD ==> |Unframed(s)| < |chunks|;
    }
  }

  /** From chunks to chunks, over the wire: a session's packet whose marker tells the echo truly reaches the
      right session, is accepted and parses to the chunks laid out in it. */
  lemma DatagramRoundTrip(p: seq<Chunk>, marker: byte, time: nat, echo: Option<nat>, room: seq<byte>,
                          encrypt: Engine, decrypt: Engine, farId: nat, pad: byte)
    requires p != [] && (forall c :: c in p ==> Encodable(c)) && PacketSize(p) <= CAPACITY && |room| == 6
    requires Opposite(encrypt, decrypt) && farId < 0x1_0000_0000 && marker < 0xFC && TellsEcho(marker, echo)
    ensures |Serialize(p)| == PacketSize(p)
    ensures var s := room + Framed(marker, time, echo, Serialize(p));
            && |s| >= 12 && |Encoded(s, encrypt)| >= 12
            && var sent := Packed(Encoded(s, encrypt), farId);
            && Unpacked(sent) == farId && |Processed(sent, decrypt)| == |sent|
            && Accepted(Processed(sent, decrypt))
            && Parse(Unframed(Processed(sent, decrypt)[6..]), pad) == p
  {
    var chunks := Serialize(p);
    assert |chunks| >= 3;
    SerializedSize(p);
    assert forall c :: c in p ==> BodySize(c) < 0x1_0000;
    hide *;
    var s := room + Framed(marker, time, echo, chunks);
    FramedLength(marker, time, echo, chunks);
    EnvelopeRoundTrip(s, encrypt, decrypt, farId);
    var plain := Processed(Packed(Encoded(s, encrypt), farId), decrypt);
    ChunksBehind(room, marker, time, echo, chunks, plain);
    PacketRoundTrip(p, plain[|s|..], pad);
  }

  lemma FramedLength(marker: byte, time: nat, echo: Option<nat>, chunks: seq<byte>)
    requires marker < 0xFC
    ensures |chunks| + 3 <= |Framed(marker, time, echo, chunks)| <= |chunks| + 5
  {
  }

  lemma ChunksBehind(room: seq<byte>, marker: byte, time: nat, echo: Option<nat>, chunks: seq<byte>, t: seq<byte>)
    requires |room| == 6 && chunks != [] && marker < 0xFC && TellsEcho(marker, echo)
    requires var s := room + Framed(marker, time, echo, chunks); |s| <= |t| && t[6..|s|] == s[6..]
    ensures Unframed(t[6..]) == chunks + t[|room + Framed(marker, time, echo, chunks)|..]
  {
    var frame := Framed(marker, time, echo, chunks);
    var s := room + frame;
    var fill := t[|s|..];
    assert s[6..] == frame;
    assert t[6..] == frame + fill;
    FrameRoundTrip(marker, time, echo, chunks + fill);
    assert Framed(marker, time, echo, chunks + fill) == frame + fill;
  }

  lemma WordInFront(s: seq<byte>, pad: byte)
    requires |s| >= 2
    ensures Head(s, pad) * 0x100 as int + Head(Tail(s), pad) == WordAt(s) && Tail(Tail(s)) == s[2..]
  {}

  /** A packet buffer, rewritten in place on its way out and on its way in. */
  class Packet {
    var bytes: seq<byte>

    constructor (bytes: seq<byte>)
      ensures this.bytes == bytes
    {
      this.bytes := bytes;
    }

    /** Writes the checksum of what follows it. */
    method WriteCRC()
      requires |bytes| >= 6
      modifies this
      ensures bytes == Stamped(old(bytes))
    {
      var reader := new PacketReader(bytes[6..], 0);
      var sum := CheckSum(reader);
      bytes := bytes[4 := sum / 0x100][5 := sum % 0x100];
    }

    method Encode(engine: Engine)
      requires 12 <= |bytes| < 0x1_0000_0000
      modifies this
      ensures bytes == Encoded(old(bytes), engine)
    {
      if engine.Keyed? {
        bytes := bytes + Filling(PaddingLength(|bytes|));
      }
      WriteCRC();
      bytes := bytes[..4] + Process(engine, bytes[4..]);
    }

    /** Scrambles the id of the far session with the two words behind it. */
    method Pack(farId: nat)
      requires |bytes| >= 12
      modifies this
      ensures bytes == Packed(old(bytes), farId) && |bytes| == |old(bytes)| && bytes[4..] == old(bytes)[4..]
      ensures farId < 0x1_0000_0000 ==> Unpacked(bytes) == farId
    {
      if farId < 0x1_0000_0000 { PackRoundTrip(bytes, farId); }
      bytes := Write32(Xor(Xor(Read32(bytes, 4), Read32(bytes, 8)), farId)) + bytes[4..];
    }

    method Unpack() returns (id: nat)
      requires |bytes| >= 12
      ensures id == Unpacked(bytes)
    {
      id := 0;
      var i: nat := 0;
      while i < 3
        invariant i <= 3
        invariant i == 0 ==> id == 0
        invariant i == 1 ==> id == Xor(0, Read32(bytes, 0))
        invariant i == 2 ==> id == Xor(Xor(0, Read32(bytes, 0)), Read32(bytes, 4))
        invariant i == 3 ==> id == Unpacked(bytes)
      {
        id := Xor(id, Read32(bytes, 4 * i));
        i := i + 1;
      }
    }

    method ReadCRC() returns (ok: bool)
      requires |bytes| >= 6
      ensures ok <==> Accepted(bytes)
    {
      hide Head, Tail, CheckSumOf, WordAt;
      var packet := new PacketReader(bytes, 0);
      packet.Reset(4);
      WordInFront(bytes[4..], packet.pad);
      var sum := packet.Read16();
      assert packet.Rest() == bytes[4..][2..] == bytes[6..];
      var found := CheckSum(packet);
      ok := sum == found;
    }

    method Decode(engine: Engine) returns (ok: bool)
      requires |bytes| >= 12 && |Process(engine, bytes[4..])| == |bytes| - 4
      modifies this
      ensures bytes == Processed(old(bytes), engine) && (ok <==> Accepted(bytes))
    {
      bytes := bytes[..4] + Process(engine, bytes[4..]);
      ok := ReadCRC();
    }
  }
}
