/** The sending end of a flow. */
module FlowWriters {
  import opened Codec
  import opened Wire
  import opened Reassembly
  import opened Acks
  import opened AckScan
  import opened Triggers

  /** Bytes of a 0x10 header for stage `at` when `acked` stages are acknowledged. */
  function HeaderSizeOf(id: nat, signature: seq<byte>, echo: nat, acked: nat, at: nat): nat
    requires acked <= at
  {
    Size7(id) + Size7(at) + Size7(at - acked)
    + if acked > 0 then 0 else |signature| + if echo == 0 then 2 else 4 + Size7(echo)
  }

  /** The chunk for stage `at`; a fragment without content is an abandonment and announces delta 0. */
  function ChunkOf(id: nat, signature: seq<byte>, echo: nat, acked: nat, closed: bool,
                   at: nat, before: bool, after: bool, header: bool, content: seq<byte>): Chunk
    requires acked <= at
  {
    var flags := Flags(acked == 0 && header, before, after, content == [], closed);
    if header then
      Data(flags, id, at, if content == [] then 0 else at - acked,
           if acked == 0 then Some(Intro(signature, echo)) else None, content)
    else Next(flags, content)
  }

  /** The length announced for a chunk is the number of bytes it takes, except for the abandonment of
      a stage 128 or more past the last acknowledged one. */
  lemma DeclaredLengthExactIff(id: nat, signature: seq<byte>, echo: nat, acked: nat, closed: bool,
                               at: nat, before: bool, after: bool, header: bool, content: seq<byte>)
    requires acked <= at
    ensures BodySize(ChunkOf(id, signature, echo, acked, closed, at, before, after, header, content))
         == 1 + |content| + (if header then HeaderSizeOf(id, signature, echo, acked, at) else 0)
        <==> (header && content == [] ==> at - acked < 0x80)
  {}

  /** Below the codec limit the chunk can be written, so it comes out of the packet as it went in. */
  lemma ChunkIsEncodable(id: nat, signature: seq<byte>, echo: nat, acked: nat, closed: bool,
                         at: nat, before: bool, after: bool, header: bool, content: seq<byte>)
    requires acked <= at < LIMIT && id < LIMIT && echo < LIMIT && |signature| < 0x100
    ensures Encodable(ChunkOf(id, signature, echo, acked, closed, at, before, after, header, content))
  {}

  /** And it is read as written: with the signature and the flow answered until something is acknowledged, with the
      distance from the last acknowledged stage, and with the end flag exactly when the writer is closed. */
  lemma ChunkIsRead(id: nat, signature: seq<byte>, echo: nat, acked: nat, closed: bool,
                    at: nat, before: bool, after: bool, header: bool, content: seq<byte>, pad: byte)
    requires acked <= at < LIMIT && id < LIMIT && echo < LIMIT && |signature| < 0x100
    ensures var c := ChunkOf(id, signature, echo, acked, closed, at, before, after, header, content);
            && Encodable(c)
            && var k := ParseBody(Kind(c), Body(c), pad);
            && (if header then k.Data? else k.Next?)
            && k.payload == content && k.flags.before == before && k.flags.after == after
            && (k.flags.abandon <==> content == []) && (k.flags.end <==> closed)
            && (header ==> k.flow == id && k.stage == at && (content != [] ==> k.stage - k.delta == acked))
            && (header && acked == 0 ==> k.intro == Some(Intro(signature, echo)))
            && (header && acked > 0 ==> k.intro.None?)
  {
    hide Body, ParseBody;
    ChunkIsEncodable(id, signature, echo, acked, closed, at, before, after, header, content);
    BodyRoundTrip(ChunkOf(id, signature, echo, acked, closed, at, before, after, header, content), pad);
  }

  datatype Part = Part(before: bool, after: bool, content: seq<byte>)

  /** Consecutive stages from `at` on, laid out behind one header. */
  function RunOf(id: nat, signature: seq<byte>, echo: nat, acked: nat, closed: bool, at: nat, parts: seq<Part>)
    : seq<Chunk>
    requires acked <= at
  {
    seq(|parts|, i requires 0 <= i < |parts| =>
      ChunkOf(id, signature, echo, acked, closed, at + i, parts[i].before, parts[i].after, i == 0, parts[i].content))
  }

  /** What a chunk is taken for: a header says it all, and without one the stage follows on. */
  lemma ChunkTold(c: Cursor, id: nat, signature: seq<byte>, echo: nat, acked: nat, closed: bool,
                  at: nat, delta: nat, header: bool, part: Part)
    requires acked <= at
    requires header ==> delta == if part.content == [] then 0 else at - acked
    requires !header ==> at > 0 && delta > 0 && c == At(id, at - 1, delta - 1)
    ensures var k := ChunkOf(id, signature, echo, acked, closed, at, part.before, part.after, header, part.content);
            && Advance(c, k) == At(id, at, delta)
            && Emit(c, k) == [Segment(id, at, delta, k.flags, part.content)] && Told(part, k.flags)
  {}

  predicate Told(part: Part, flags: Flags)
  {
    flags.before == part.before && flags.after == part.after && (flags.abandon <==> part.content == [])
  }

  /** Behind packet `p`, packet `q` is read as the parts given, under consecutive stages from `at` on, each
      one farther from the last acknowledged stage. */
  ghost predicate Rebuilt(p: seq<Chunk>, q: seq<Chunk>, id: nat, at: nat, delta: nat, parts: seq<Part>)
  {
    && CursorOf(q) == (if parts == [] then CursorOf(p) else At(id, at + |parts| - 1, delta + |parts| - 1))
    && |Segments(q)| == |Segments(p)| + |parts| && Segments(p) <= Segments(q)
    && forall i :: 0 <= i < |parts| ==> RebuiltAt(Segments(q)[|Segments(p)| + i], id, at + i, delta + i, parts[i])
  }

  predicate RebuiltAt(g: Segment, id: nat, at: nat, delta: nat, part: Part)
  {
    g == Segment(id, at, delta, g.flags, part.content) && Told(part, g.flags)
  }

  lemma RebuiltStart(p: seq<Chunk>, id: nat, at: nat)
    ensures Rebuilt(p, p, id, at, 0, [])
  {}

  lemma RebuiltMore(p: seq<Chunk>, q: seq<Chunk>, c: Chunk, id: nat, at: nat, delta: nat, parts: seq<Part>, part: Part)
    requires Rebuilt(p, q, id, at, delta, parts)
    requires Advance(CursorOf(q), c) == At(id, at + |parts|, delta + |parts|)
    requires c.Data? || c.Next?
    requires Emit(CursorOf(q), c) == [Segment(id, at + |parts|, delta + |parts|, c.flags, part.content)]
    requires Told(part, c.flags)
    ensures Rebuilt(p, q + [c], id, at, delta, parts + [part])
  {
    AppendChunk(q, c);
    hide Advance, Emit, Told, CursorOf, Segments;
    var all, was := Segments(q + [c]), Segments(q);
    forall i | 0 <= i < |parts + [part]|
      ensures RebuiltAt(all[|Segments(p)| + i], id, at + i, delta + i, (parts + [part])[i])
    {
      if i < |parts| {
        assert RebuiltAt(was[|Segments(p)| + i], id, at + i, delta + i, parts[i]);
      }
    }
  }

  /** The receiver's incremental rule finds every stage of a run as the sender counts it, and its distance
      from the last acknowledged stage, unless the run begins with an abandonment. */
  lemma {:induction false} RunReconstructs(p: seq<Chunk>, id: nat, signature: seq<byte>, echo: nat, acked: nat,
                                           closed: bool, at: nat, parts: seq<Part>)
    requires acked <= at
    ensures var delta := if parts == [] || parts[0].content == [] then 0 else at - acked;
            Rebuilt(p, p + RunOf(id, signature, echo, acked, closed, at, parts), id, at, delta, parts)
  {
    hide Rebuilt, ChunkOf;
    if parts == [] {
      assert p + RunOf(id, signature, echo, acked, closed, at, []) == p;
      RebuiltStart(p, id, at);
    } else {
      var n, delta := |parts| - 1, if parts[0].content == [] then 0 else at - acked;
      var start := parts[..n];
      var q := p + RunOf(id, signature, echo, acked, closed, at, start);
      var c := RunOf(id, signature, echo, acked, closed, at, parts)[n];
      assert p + RunOf(id, signature, echo, acked, closed, at, parts) == q + [c];
      RunReconstructs(p, id, signature, echo, acked, closed, at, start);
      RunStep(p, q, id, signature, echo, acked, closed, at, delta, start, parts[n]);
      assert start + [parts[n]] == parts;
    }
  }

  lemma RunStep(p: seq<Chunk>, q: seq<Chunk>, id: nat, signature: seq<byte>, echo: nat, acked: nat, closed: bool,
                at: nat, delta: nat, parts: seq<Part>, part: Part)
    requires acked <= at && Rebuilt(p, q, id, at, if parts == [] then 0 else delta, parts)
    requires delta == if (parts + [part])[0].content == [] then 0 else at - acked
    ensures var c := ChunkOf(id, signature, echo, acked, closed, at + |parts|, part.before, part.after, parts == [],
                             part.content);
            Rebuilt(p, q + [c], id, at, delta, parts + [part])
  {
    var n := |parts|;
    ChunkTold(CursorOf(q), id, signature, echo, acked, closed, at + n, delta + n, n == 0, part);
    var c := ChunkOf(id, signature, echo, acked, closed, at + n, part.before, part.after, n == 0, part.content);
    RebuiltMore(p, q, c, id, at, delta, parts, part);
  }

  lemma HeaderShrinks(id: nat, signature: seq<byte>, echo: nat, a: nat, b: nat, at: nat)
    requires a <= b <= at
    ensures HeaderSizeOf(id, signature, echo, b, at) <= HeaderSizeOf(id, signature, echo, a, at)
  {}

  lemma HeaderGrows(id: nat, signature: seq<byte>, echo: nat, acked: nat, at: nat)
    requires acked <= at
    ensures HeaderSizeOf(id, signature, echo, acked, at + 1) <= HeaderSizeOf(id, signature, echo, acked, at) + 2
  {}

  /** A segment carries what its stage stands for, and asks for no stage past `acked` to be given up. */
  ghost predicate Carries(g: Segment, id: nat, closed: bool, log: seq<Fragment>, acked: nat)
  {
    && g.flow == id && 1 <= g.stage <= |log| && g.delta <= g.stage && g.stage - g.delta <= acked
    && log[g.stage - 1] == Fragment(g.payload, g.flags.before, g.flags.after)
    && !g.flags.abandon && g.flags.end == closed
  }

  ghost predicate Appended(p: seq<Chunk>, p': seq<Chunk>, c: Chunk) { p' == p + [c] }

  /** The output is longer by one segment, for fragment `f` as stage `at`. */
  ghost predicate Laid(out: seq<Segment>, out': seq<Segment>, id: nat, closed: bool, at: nat, acked: nat, f: Fragment)
  {
    && |out'| == |out| + 1 && out'[..|out|] == out
    && var g := out'[|out|];
    && g.flow == id && g.stage == at && g.delta <= at && at - g.delta <= acked
    && Fragment(g.payload, g.flags.before, g.flags.after) == f && !g.flags.abandon && g.flags.end == closed
  }

  /** The output from position `n` on. */
  function Since(out: seq<Segment>, n: nat): seq<Segment> { if n <= |out| then out[n..] else [] }

  ghost predicate AllCarry(segs: seq<Segment>, id: nat, closed: bool, log: seq<Fragment>, acked: nat)
  {
    forall i :: 0 <= i < |segs| ==> Carries(segs[i], id, closed, log, acked)
  }

  /** Any outstanding fragment fits in a packet of its own, header included. */
  ghost predicate Fits(id: nat, signature: seq<byte>, echo: nat, acked: nat, log: seq<Fragment>)
  {
    forall i :: acked <= i < |log| ==>
      |log[i].payload| + 4 + HeaderSizeOf(id, signature, echo, acked, i + 1) <= CAPACITY
  }

  /** A headerless chunk written now would be taken for stage `at` + 1 of flow `id`. */
  ghost predicate Following(packet: seq<Chunk>, id: nat, at: nat, acked: nat)
  {
    var c := CursorOf(packet);
    c.At? && c.flow == id && c.stage == at && c.delta <= at && at - c.delta <= acked
  }

  /** And the packet already holds as many header bytes as stage `at` would need. */
  ghost predicate Coupled(packet: seq<Chunk>, id: nat, signature: seq<byte>, echo: nat, at: nat, acked: nat)
    requires acked <= at
  {
    Following(packet, id, at, acked) && HeaderSizeOf(id, signature, echo, acked, at) <= Overhead(packet)
  }

  /** A packet that takes chunks of the flow still does when more stages are acknowledged. */
  lemma CoupledMore(packet: seq<Chunk>, id: nat, signature: seq<byte>, echo: nat, at: nat, acked: nat, to: nat)
    requires acked <= to <= at
    ensures Coupled(packet, id, signature, echo, at, acked) ==> Coupled(packet, id, signature, echo, at, to)
  {
    hide HeaderSizeOf, CursorOf, Overhead;
    HeaderShrinks(id, signature, echo, acked, to, at);
  }

  lemma FollowingFits(packet: seq<Chunk>, id: nat, at: nat, acked: nat)
    requires Following(packet, id, at, acked)
    ensures PacketSize(packet) >= Overhead(packet) + 2
  {
    OverheadFits(packet);
  }

  lemma FitsAt(id: nat, signature: seq<byte>, echo: nat, acked: nat, log: seq<Fragment>, at: nat)
    requires Fits(id, signature, echo, acked, log) && acked < at <= |log|
    ensures |log[at - 1].payload| + 4 + HeaderSizeOf(id, signature, echo, acked, at) <= CAPACITY
  {}

  lemma FitsMore(id: nat, signature: seq<byte>, echo: nat, acked: nat, log: seq<Fragment>, f: Fragment)
    requires Fits(id, signature, echo, acked, log) && acked <= |log|
    requires |f.payload| + 4 + HeaderSizeOf(id, signature, echo, acked, |log| + 1) <= CAPACITY
    ensures Fits(id, signature, echo, acked, log + [f])
  {}

  /** More stages acknowledged: headers shrink, and what was laid out stays as good. */
  lemma MoreAcked(id: nat, signature: seq<byte>, echo: nat, acked: nat, to: nat, log: seq<Fragment>)
    requires Fits(id, signature, echo, acked, log) && acked <= to <= |log|
    ensures Fits(id, signature, echo, to, log)
    ensures HeaderSizeOf(id, signature, echo, to, |log|) <= HeaderSizeOf(id, signature, echo, acked, |log|)
  {
    forall i | to <= i < |log| ensures |log[i].payload| + 4 + HeaderSizeOf(id, signature, echo, to, i + 1) <= CAPACITY {
      HeaderShrinks(id, signature, echo, acked, to, i + 1);
    }
    HeaderShrinks(id, signature, echo, acked, to, |log|);
  }

  /** The announced size of a first slice when `avail` bytes are left and `overhead` go to the header,
      in 32-bit arithmetic as the writer computes it. */
  function SliceSize(avail: nat, overhead: nat, content: nat): nat
  {
    if U32(content + overhead) > avail then U32(avail - overhead) else content
  }

  /** Whether the writer starts a new packet first, or the header leaves room, or all fits. */
  predicate RoomFor(avail: nat, overhead: nat, content: nat)
  {
    avail < 12 || overhead < avail || overhead + content <= avail
  }

  /** In a packet with 12 bytes or more left, the slice is a proper part of the content exactly when
      the header leaves room for some of it, or all of it fits. */
  lemma SliceProperIff(avail: nat, overhead: nat, content: nat)
    requires 12 <= avail && 0 < content && content + overhead < 0x1_0000_0000
    ensures 0 < SliceSize(avail, overhead, content) <= content <==> RoomFor(avail, overhead, content)
  {}

  /** So with room for the header the chunk fits, and fills the packet when something is left over. */
  lemma SliceFits(avail: nat, overhead: nat, content: nat)
    requires 12 <= avail && 0 < content && content + overhead < 0x1_0000_0000 && RoomFor(avail, overhead, content)
    ensures var n := SliceSize(avail, overhead, content);
            && 0 < n <= content && overhead + n <= avail
            && (U32(content + overhead) > avail <==> n < content)
            && (if n < content then avail else U32(content + overhead)) == overhead + n
  {
    SliceProperIff(avail, overhead, content);
  }

  lemma HeaderBound(id: nat, signature: seq<byte>, echo: nat, acked: nat, at: nat)
    requires acked <= at && |signature| < 0x100
    ensures HeaderSizeOf(id, signature, echo, acked, at) < 0x200
  {}

  /** With 12 bytes left and the header of a new flow whose signature has 5 bytes, the size wraps. */
  lemma SliceCanWrap()
    ensures HeaderSizeOf(1, [0, 0x54, 0x43, 4, 1], 0, 0, 1) + 4 == 14
    ensures SliceSize(12, 14, 100) == 0xFFFF_FFFE
  {}

  /** The stages of a run of segments are consecutive from `first`. */
  ghost predicate Numbered(segs: seq<Segment>, first: nat)
  {
    forall i :: 0 <= i < |segs| ==> segs[i].stage == first + i
  }

  /** Fragments that join the window bear as date their own stage, the last one sent at that time. */
  ghost predicate NewlyDated(v: Link, v': Link)
  {
    forall i :: |v.window| <= i < |v'.window| ==> v'.window[i].sentAt == v.acked + i + 1
  }

  /** What sending all queued messages does: they leave the queue for the history, their fragments
      join the log and the window, and each new stage is sent once, in order. */
  ghost predicate Flushed(v: Link, v': Link, segs: seq<Segment>)
  {
    && v'.acked == v.acked && v.log <= v'.log && v'.pending == []
    && v.window <= v'.window && |v'.log| == v'.acked + |v'.window| && NewlyDated(v, v')
    && v'.history == v.history + Contents(v.pending)
    && Numbered(segs, |v.log| + 1) && |segs| == |v'.log| - |v.log|
    && (AllRepeatable(v.window) && (forall i :: 0 <= i < |v.pending| ==> v.pending[i].repeatable) ==>
          AllRepeatable(v'.window))
  }

  /** Sending all queued messages, as the rest of the system sees it. */
  ghost predicate FlushStep(id: nat, closed: bool, v: Link, v': Link, segs: seq<Segment>)
  {
    Consistent(v') && Flushed(v, v', segs) && AllCarry(segs, id, closed, v'.log, v'.acked)
  }

  /** Taking in any acknowledgment but a negative one. */
  ghost predicate AckStep(id: nat, closed: bool, v: Link, v': Link, a: Ack, segs: seq<Segment>)
  {
    && Consistent(v') && Shifted(v, v') && AllCarry(segs, id, closed, v'.log, v'.acked)
    && (Current(v, a) ==> Settled(v, v', a, segs))
    && (Astray(v, a) ==> v'.window == [] && segs == [])
  }

  /** Each of the stages up to `to` that is repeatable is reported received. */
  ghost predicate AllReported(v: Link, a: Ack, kept: set<nat>, to: nat)
    requires to <= v.acked + |v.window|
  {
    forall s :: v.acked < s <= to && v.window[s - v.acked - 1].repeatable ==> s <= a.stage || s in kept
  }

  /** Taking in an acknowledgment of what the receiver holds gives up no repeatable fragment it does not report
      if and only if it is legible, or happens to report all that are outstanding. */
  lemma SoundIffLegible(id: nat, closed: bool, v: Link, v': Link, a: Ack, segs: seq<Segment>, kept: set<nat>)
    requires Consistent(v) && AckStep(id, closed, v, v', a, segs) && Top(v, a) < 0x1_0000_0000
    requires Describes(a.pairs, a.stage, kept)
    ensures v'.acked <= v.acked + |v.window|
    ensures Legible(a.stage, a.pairs, v.acked) || AllReported(v, a, kept, |v.log|)
       <==> AllReported(v, a, kept, v'.acked)
  {
    hide Sensible, Assemble, Outstanding, AllCarry, Describes;
    if a.stage > |v.log| {
    } else if Legible(a.stage, a.pairs, v.acked) {
      forall s | v.acked < s <= v'.acked && v.window[s - v.acked - 1].repeatable ensures s <= a.stage || s in kept {
        AckSoundness(v, v', a, segs, kept, s);
      }
    } else {
      assert v'.acked == |v.log|;
    }
  }

  /** Acknowledgments that change places do this: written when stage 3 had arrived before stages 1 and 2, and
      read when all three are acknowledged, this one takes the sender for told that stage 4 arrived. */
  lemma StaleExample(id: nat, closed: bool, v: Link, v': Link, segs: seq<Segment>)
    requires v.acked == 3 && |v.window| == 1 && Consistent(v)
    requires AckStep(id, closed, v, v', Ack(0x7F, 0, [(1, 0)]), segs)
    ensures Describes([(1, 0)], 0, {3}) && !Legible(0, [(1, 0)], 3) && v'.acked == 4 && v'.window == [] && segs == []
  {
    assert [(1, 0)][1..] == [];
  }

  /** So do acknowledgments in order, where fragments may be let go: with stages 1 and 2 unrepeatable, 3 and 4
      repeatable, this one read twice lets the first two go as lost, and then the others as received. */
  lemma RepeatedExample(id: nat, closed: bool, v: Link, v1: Link, v2: Link, segs1: seq<Segment>, segs2: seq<Segment>)
    requires v.acked == 0 && |v.window| == 4 && Consistent(v)
    requires forall i :: 0 <= i < 4 ==> (v.window[i].repeatable <==> i >= 2)
    requires AckStep(id, closed, v, v1, Ack(0x7F, 0, [(1, 0)]), segs1)
    requires AckStep(id, closed, v1, v2, Ack(0x7F, 0, [(1, 0)]), segs2)
    ensures Describes([(1, 0)], 0, {3}) && v1.acked == 2 && v2.acked == 4 && v2.window == []
  {
    var a := Ack(0x7F, 0, [(1, 0)]);
    assert a.pairs[1..] == [] && |v.log| == 4;
    hide AllCarry, Consistent, Settled, Releasable;
    FirstReading(v, v1, segs1);
  }

  lemma FirstReading(v: Link, v': Link, segs: seq<Segment>)
    requires v.acked == 0 && |v.window| == |v.log| == 4
    requires forall i :: 0 <= i < 4 ==> (v.window[i].repeatable <==> i >= 2)
    requires Settled(v, v', Ack(0x7F, 0, [(1, 0)]), segs)
    ensures v'.acked == 2
  {
    var a := Ack(0x7F, 0, [(1, 0)]);
    assert a.pairs[1..] == [] && Judge(3, [], 4, 3).Unknown?;
    assert Releasable(a, 4, v.acked + 1 + 0, v.window[0]) && Releasable(a, 4, v.acked + 1 + 1, v.window[1]);
    assert !Releasable(a, 4, v.acked + 1 + 2, v.window[2]);
  }

  /** Repeating after a timeout. */
  ghost predicate RaiseStep(id: nat, closed: bool, v: Link, segs: seq<Segment>)
  {
    var all := Renewable(v.window, v.acked, |v.window|);
    && AllCarry(segs, id, closed, v.log, v.acked)
    && Stages(segs) <= all && (all != [] ==> segs != [])
  }

  function Contents(items: seq<Item>): seq<seq<byte>>
  {
    seq(|items|, i requires 0 <= i < |items| => items[i].bytes)
  }

  /** The longest message whose chunk sizes stay within 32 bits, whatever the header. */
  const LONGEST := 0xFFFF_FFFF - 0x204

  /** Messages not yet cut, with something to send. */
  predicate Queued(ms: seq<Message>)
  {
    forall i :: 0 <= i < |ms| ==> ms[i].marks == [] && 0 < |ms[i].bytes| <= LONGEST
  }

  function Items(ms: seq<Message>): seq<Item>
  {
    seq(|ms|, i requires 0 <= i < |ms| => Item(ms[i].bytes, ms[i].repeatable))
  }

  /** What the proof of one acknowledgment refers to: the sender and the output before it, the
      acknowledgment, whether it is current or leads astray, the highest stage it is taken to report, and
      the fragments lost before. */
  datatype Context = Context(v0: Link, out0: seq<Segment>, a: Ack, current: bool, astray: bool, top: nat,
                             lost: nat)

  /** What the range cursor is good for, before the fragment that is stage `sc.stage`. */
  ghost predicate Heeds(cx: Context, limit: nat, acked: nat, sc: Scan, rest: seq<(nat, nat)>)
  {
    && (cx.current && sc.stop ==> Silent(cx.a, limit, sc.stage))
    && (cx.current && !sc.stop ==> Tracks(cx.a, limit, acked, sc.stage, sc, rest))
    && (cx.astray ==> !sc.stop && Strays(acked, limit, sc, rest))
  }

  /** One more pair read, in 32 bits. */
  function PairRead(sc: Scan, pair: (nat, nat)): Scan
  {
    var first := U32(sc.stageRead + 1);
    sc.(lostCount := pair.0 + 1, lostStage := first, stageRead := U32(first + (pair.0 + 1) + pair.1))
  }

  /** And what becomes of its hole: not sent yet, begun behind the last stage acknowledged, or to be walked through. */
  function HoleChecked(sc: Scan, limit: nat, acked: nat): Scan
    requires sc.lostCount > 0
  {
    if sc.lostStage > limit then sc.(stop := true)
    else if sc.lostStage <= acked then sc.(lostCount := sc.lostCount - 1, lostStage := U32(sc.lostStage + 1))
    else sc
  }

  lemma HeedsRead(cx: Context, limit: nat, acked: nat, sc: Scan, rest: seq<(nat, nat)>)
    requires Heeds(cx, limit, acked, sc, rest) && !sc.stop && sc.lostCount == 0
    requires rest != [] && acked < sc.stage <= limit
    ensures Heeds(cx, limit, acked, HoleChecked(PairRead(sc, rest[0]), limit, acked), rest[1..])
  {
    hide Tracks, Silent, Strays, HoleChecked, PairRead, Opened;
    PairOpened(sc, rest[0], limit, acked);
    if cx.current {
      TracksRead(cx.a, limit, acked, sc.stage, sc, rest);
    }
    if cx.astray {
      StraysRead(acked, limit, sc, rest);
    }
  }

  /** Without an overflow the 32 bits make no difference. */
  lemma PairOpened(sc: Scan, pair: (nat, nat), limit: nat, acked: nat)
    ensures var o := Opened(sc, pair);
            && o.stop == sc.stop && o.stage == sc.stage && o.lostCount > 0
            && (o.stageRead < 0x1_0000_0000 ==>
                  HoleChecked(PairRead(sc, pair), limit, acked)
                  == if o.lostStage > limit then o.(stop := true) else if o.lostStage <= acked then Narrowed(o) else o)
  {
    hide U32;
    Narrow32(sc.stageRead + 1);
    Narrow32(sc.stageRead + 2);
    Narrow32(sc.stageRead + 1 + (pair.0 + 1) + pair.1);
  }

  lemma Narrow32(n: nat)
    ensures n < 0x1_0000_0000 ==> U32(n) == n
  {}

  lemma HeedsEnd(cx: Context, limit: nat, acked: nat, sc: Scan)
    requires Heeds(cx, limit, acked, sc, []) && !sc.stop && sc.lostCount == 0 && acked < limit
    ensures Heeds(cx, limit, acked, sc.(stop := true), [])
  {}

  /** No packet sent since had 12 bytes or more to spare. */
  ghost predicate Filled(sent: seq<seq<Chunk>>, sent': seq<seq<Chunk>>)
  {
    sent <= sent' && forall i :: |sent| <= i < |sent'| ==> PacketSize(sent'[i]) + 12 > CAPACITY
  }

  /** The same, but for the last packet when it was not to wait for more. */
  ghost predicate FilledButLast(sent: seq<seq<Chunk>>, sent': seq<seq<Chunk>>, full: bool)
  {
    Filled(sent, sent') || (full && sent' != [] && Filled(sent, sent'[..|sent'| - 1]))
  }

  lemma FilledNone(sent: seq<seq<Chunk>>)
    ensures Filled(sent, sent)
  {}

  lemma FilledMore(sent: seq<seq<Chunk>>, packet: seq<Chunk>)
    requires PacketSize(packet) + 12 > CAPACITY
    ensures Filled(sent, sent + [packet])
  {}

  lemma FilledOn(a: seq<seq<Chunk>>, b: seq<seq<Chunk>>, c: seq<seq<Chunk>>)
    requires Filled(a, b) && Filled(b, c)
    ensures Filled(a, c)
  {
    hide PacketSize;
  }

  lemma FilledEnd(a: seq<seq<Chunk>>, b: seq<seq<Chunk>>, packet: seq<Chunk>, full: bool)
    requires Filled(a, b)
    ensures FilledButLast(a, b + (if full && packet != [] then [packet] else []), full)
  {
    assert b + [] == b && (b + [packet])[..|b|] == b;
  }

  class FlowWriter {
    const id: nat
    const signature: seq<byte>
    const flowId: nat
    const band: Band
    const trigger: Trigger
    var closed: bool
    var messages: seq<Message>      // queued, not yet sent
    var messagesSent: seq<Message>  // sent, not yet acknowledged
    var stage: nat
    var stageAck: nat
    var ackCount: int
    var lostCount: nat
    var repeatable: nat
    ghost var log: seq<Fragment>          // what each stage carried when first sent
    ghost var history: seq<seq<byte>>     // the messages sent
    ghost var reported: nat               // fragments the acknowledgment handler was told acknowledged
    ghost var reportedLost: nat           // and lost

    function HeaderSize(at: nat): nat
      requires stageAck <= at
      reads `stageAck
    {
      HeaderSizeOf(id, signature, flowId, stageAck, at)
    }

    ghost function View(): Link
      requires AllOrdered(messagesSent)
      reads this
    {
      Link(log, stageAck, Window(messagesSent), history, Items(messages))
    }

    /** All fragments given up so far. */
    ghost function Losses(): nat reads `lostCount, `reportedLost { reportedLost + lostCount }

    /** What holds at every point: constants, the queue, counters, room. */
    ghost predicate Sound()
      reads this, trigger
    {
      && id > 0 && |signature| < 0x100
      && stage == |log| && stageAck <= stage
      && Queued(messages)
      && repeatable == CountRepeatable(messagesSent) && (repeatable > 0 ==> trigger.running)
      && Fits(id, signature, flowId, stageAck, log)
    }

    ghost predicate InBand()
      requires stageAck <= stage
      reads `stage, `stageAck, band
    {
      band.Valid() && (band.owner == id ==> Coupled(band.packet, id, signature, flowId, stage, stageAck))
    }

    ghost predicate Valid()
      reads this, band, trigger
    {
      Ready() && InBand()
    }

    /** The part that does not depend on the packet. */
    ghost predicate Ready()
      reads this, trigger
    {
      && Sound()
      && Tidy(messagesSent) && (messagesSent != [] ==> messagesSent[0].marks != [])
      && Consistent(View())
      && ackCount >= 0 && reported + reportedLost + ackCount + lostCount == stageAck
    }

    constructor (id: nat, signature: seq<byte>, flowId: nat, band: Band)
      requires id > 0 && |signature| < 0x100 && band.Valid() && band.owner != id
      ensures Valid() && fresh(trigger) && this.band == band && this.id == id
      ensures View() == Link([], 0, [], [], [])
    {
      this.id, this.signature, this.flowId, this.band := id, signature, flowId, band;
      trigger := new Trigger();
      closed, messages, messagesSent, stage, stageAck := false, [], [], 0, 0;
      ackCount, lostCount, repeatable := 0, 0, 0;
      log, history, reported, reportedLost := [], [], 0, 0;
    }

    /** Queues a message. */
    method Queue(bytes: seq<byte>, repeatable: bool)
      requires Valid() && 0 < |bytes| <= LONGEST
      modifies this`messages
      ensures Valid()
      ensures View() == old(View()).(pending := old(View()).pending + [Item(bytes, repeatable)])
    {
      messages := messages + [Message(bytes, repeatable, [])];
    }

    /** Lays out one fragment in the packet under construction; one without content is an abandonment. */
    method WriteFragment(length: nat, at: nat, before: bool, after: bool, header: bool, content: seq<byte>, writer: nat)
      requires band.Valid() && id > 0 && stageAck < at
      requires header && content == [] ==> at - stageAck < 0x80
      requires length == 1 + |content| + if header then HeaderSize(at) else 0
      requires 3 + length <= band.Available()
      requires !header ==> Following(band.packet, id, at - 1, stageAck)
      modifies band
      ensures band.Valid() && band.owner == writer
      ensures content != [] ==> Following(band.packet, id, at, stageAck)
      ensures band.sent == old(band.sent)
      ensures Appended(old(band.packet), band.packet,
                       ChunkOf(id, signature, flowId, stageAck, closed, at, before, after, header, content))
      ensures PacketSize(band.packet) == old(PacketSize(band.packet)) + 3 + length
      ensures Overhead(band.packet) == if header then HeaderSize(at) else old(Overhead(band.packet)) + 2
      ensures content != [] ==>
                Laid(old(band.Output()), band.Output(), id, closed, at, stageAck, Fragment(content, before, after))
    {
      var c := ChunkOf(id, signature, flowId, stageAck, closed, at, before, after, header, content);
      DeclaredLengthExactIff(id, signature, flowId, stageAck, closed, at, before, after, header, content);
      ghost var p, at0 := band.packet, CursorOf(band.packet);
      AppendChunk(p, c);
      band.WriteMessage(c, length, writer);
    }

    // --- acknowledgments ---

    /** The loop stands before stage `at`, at entry `f` of message `k`, after `gone` fragments left. */
    ghost predicate Standing(cx: Context, at: nat, repeated: bool, k: nat, f: nat, gone: nat)
      reads this, trigger
    {
      && Sound()
      && Consistent(cx.v0) && log == cx.v0.log && history == cx.v0.history && Items(messages) == cx.v0.pending
      && Aligned(messagesSent, k, f, cx.v0.window, gone)
      && at == cx.v0.acked + gone + Place(messagesSent, k, f) + 1
      && cx.v0.acked <= stageAck
      && (if stageAck >= at then !repeated else stageAck == cx.v0.acked + gone)
      && (repeated <==> Place(messagesSent, k, f) > 0)
      && reported + reportedLost + ackCount + lostCount == cx.v0.acked + gone && ackCount >= -1
      && (ackCount == -1 ==> stageAck >= at && k < |messagesSent| && f < |messagesSent[k].marks|)
    }

    /** All output since the loop began carries logged fragments; without a header, the next one follows on. */
    ghost predicate Emitting(cx: Context, at: nat, header: bool)
      requires stageAck <= stage
      reads `stage, `stageAck, `log, `closed, band
    {
      && InBand()
      && cx.out0 <= band.Output() && AllCarry(Since(band.Output(), |cx.out0|), id, closed, log, stageAck)
      && (!header ==> 0 < at && Following(band.packet, id, at - 1, stageAck))
    }

    ghost predicate Scanning(cx: Context, at: nat, repeated: bool, header: bool, k: nat, f: nat, gone: nat)
      reads this, band, trigger
    {
      Standing(cx, at, repeated, k, f, gone) && Emitting(cx, at, header)
      && (!repeated ==> header && band.Output() == cx.out0)
    }

    /** What a current acknowledgment has settled so far. */
    ghost predicate Settling(cx: Context, k: nat, f: nat, gone: nat)
      reads this, band
    {
      && AllOrdered(messagesSent) && k <= |messagesSent|
      && Passed(cx.a, cx.top, stage, cx.v0.window, cx.v0.acked, stageAck, gone, Window(messagesSent),
                Place(messagesSent, k, f), Stages(Since(band.Output(), |cx.out0|)))
      && Accounted(cx.a, cx.v0.acked, cx.lost)
    }

    /** Since `acked` stages were acknowledged and `lost` given up, those the acknowledgment reports lost were. */
    ghost predicate Accounted(a: Ack, acked: nat, lost: nat)
      reads `stage, `stageAck, `lostCount, `reportedLost
    {
      acked <= stageAck && Losses() == lost + |GivenUp(a, stage, acked, stageAck - acked)|
    }

    /** The first stage whose fate the range cursor must decide. */
    ghost function Edge(at: nat): nat reads this { if stageAck >= at then stageAck + 1 else at }

    /** The loop between two fragments, with `rest` the ranges not yet read. */
    ghost predicate Running(cx: Context, sc: Scan, rest: seq<(nat, nat)>, k: nat, f: nat, gone: nat)
      reads this, band, trigger
    {
      && Scanning(cx, sc.stage, sc.repeated, sc.header, k, f, gone) && !sc.stop
      && (cx.current ==> Settling(cx, k, f, gone) && Tracks(cx.a, stage, stageAck, Edge(sc.stage), sc, rest))
      && (cx.astray ==> !sc.repeated && band.Output() == cx.out0 && Strays(stageAck, stage, sc, rest))
    }

    /** The loop once the ranges are used up. */
    ghost predicate Stopped(cx: Context, sc: Scan, k: nat, f: nat, gone: nat)
      reads this, band, trigger
    {
      && Scanning(cx, sc.stage, sc.repeated, sc.header, k, f, gone) && sc.stop && stageAck < sc.stage
      && (cx.current ==> Settling(cx, k, f, gone) && Silent(cx.a, stage, sc.stage)) && !cx.astray
    }

    /** Releases the first outstanding fragment. */
    method DropFront(ghost cx: Context, sc0: Scan, ghost rest: seq<(nat, nat)>, k: nat, f: nat,
                     ghost gone: nat) returns (sc: Scan)
      requires Running(cx, sc0, rest, k, f, gone) && stageAck >= sc0.stage
      requires k < |messagesSent| && f < |messagesSent[k].marks|
      modifies this`messagesSent, this`ackCount
      ensures Running(cx, sc, rest, k, 0, gone + 1) && sc == sc0.(stage := sc0.stage + 1)
      ensures ackCount >= 0 && sc.stage <= stage + 1 && |messagesSent| == old(|messagesSent|)
    {
      hide Tracks, Consistent, Remains, Fits, Queued, Items, AllCarry, Since, Passed, CountRepeatable, Window, Tidy,
           Accounted, AllOrdered, InBand;
      TidyOrdered(messagesSent);
      FirstPlace(messagesSent, k, f);
      assert k == 0 && f == 0;
      AlignedDrop(messagesSent, cx.v0.window, gone);
      AlignedTidy(Dropped(messagesSent), 0, 0, cx.v0.window, gone + 1);
      PlaceFirst(messagesSent);
      PlaceFirst(Dropped(messagesSent));
      DropFirst(messagesSent);
      CountUpdate(messagesSent, 0, messagesSent[0].(marks := messagesSent[0].marks[1..]));
      sc := sc0.(stage := sc0.stage + 1);
      ghost var stages := Stages(Since(band.Output(), |cx.out0|));
      if cx.current {
        PassedNothing(cx.a, cx.top, stage, cx.v0.window, cx.v0.acked, stageAck, gone, Window(messagesSent), stages);
        PassedDrop(cx.a, cx.top, stage, cx.v0.window, cx.v0.acked, stageAck, gone, Window(messagesSent));
        TracksIgnores(cx.a, stage, stageAck, Edge(sc.stage), sc0, sc, rest);
      }
      messagesSent := messagesSent[k := messagesSent[k].(marks := messagesSent[k].marks[1..])];
      ackCount := ackCount + 1;
    }

    /** Reads ranges until one leaves a hole to walk through; stops when there is none. */
    method ReadLoss(reader: PacketReader, sc0: Scan, ghost cx: Context) returns (sc: Scan)
      requires reader.Valid() && stageAck < sc0.stage <= stage && !sc0.stop
      requires Heeds(cx, stage, stageAck, sc0, ParsePairs(reader.Rest(), reader.pad))
      modifies reader
      ensures reader.Valid()
      ensures sc == sc0.(lostCount := sc.lostCount, lostStage := sc.lostStage, stageRead := sc.stageRead,
                              stop := sc.stop)
      ensures !sc.stop ==> sc.lostCount > 0
      ensures Heeds(cx, stage, stageAck, sc, ParsePairs(reader.Rest(), reader.pad))
    {
      hide Heeds, Decode7;
      sc := sc0;
      while !sc.stop && sc.lostCount == 0
        invariant reader.Valid()
        invariant sc == sc0.(lostCount := sc.lostCount, lostStage := sc.lostStage, stageRead := sc.stageRead,
                                  stop := sc.stop)
        invariant Heeds(cx, stage, stageAck, sc, ParsePairs(reader.Rest(), reader.pad))
        decreases !sc.stop, |reader.Rest()|
      {
        if reader.Available() > 0 {
          ghost var was, before := reader.Rest(), sc;
          var a := reader.Read7BitValue();
          var first := U32(sc.stageRead + 1);
          var b := reader.Read7BitValue();
          ParsePairsStep(was, reader.pad, a, b, reader.Rest());
          HeedsRead(cx, stage, stageAck, sc, ParsePairs(was, reader.pad));
          sc := sc.(lostCount := a + 1, lostStage := first, stageRead := U32(first + (a + 1) + b));
          assert sc == PairRead(before, (a, b));
        } else {
          HeedsEnd(cx, stage, stageAck, sc);
          sc := sc.(stop := true);
          break;
        }
        if sc.lostStage > stage {
          sc := sc.(stop := true);
        } else if sc.lostStage <= stageAck {
          sc := sc.(lostCount := sc.lostCount - 1, lostStage := U32(sc.lostStage + 1));
          continue;
        }
        break;
      }
    }

    /** Lets the fragment at the cursor, the first outstanding one, go as received or as lost. */
    method Release(ghost cx: Context, at: nat, k: nat, f: nat, ghost gone: nat, lost: bool)
      requires Scanning(cx, at, false, true, k, f, gone) && stageAck < at
      requires k < |messagesSent| && f < |messagesSent[k].marks|
      requires cx.current ==>
                 && Settling(cx, k, f, gone)
                 && gone < |cx.v0.window| && Releasable(cx.a, stage, at, cx.v0.window[gone])
                 && (lost <==> at > cx.a.stage && Judge(cx.a.stage, cx.a.pairs, stage, at).Lost?)
      modifies this`stageAck, this`ackCount, this`lostCount
      ensures Scanning(cx, at, false, true, k, f, gone) && stageAck == at
      ensures cx.current ==> Settling(cx, k, f, gone)
    {
      hide Aligned, Fits, Queued, Items, Consistent, Passed, Releasable, AllCarry, Since, Coupled, Following,
           HeaderSizeOf, CountRepeatable, Place, Window, AllOrdered, Stages, Band.Output;
      AtCursor(cx, at, false, k, f, gone);
      CoupledMore(band.packet, id, signature, flowId, stage, stageAck, at);
      MoreAcked(id, signature, flowId, stageAck, at, log);
      CarryAcked(Since(band.Output(), |cx.out0|), id, closed, log, stageAck, at);
      ghost var stages := Stages(Since(band.Output(), |cx.out0|));
      if cx.current {
        PassedNothing(cx.a, cx.top, stage, cx.v0.window, cx.v0.acked, stageAck, gone, Window(messagesSent), stages);
        PassedRelease(cx.a, cx.top, stage, cx.v0.window, cx.v0.acked, gone, Window(messagesSent));
      }
      if lost {
        ackCount, lostCount := ackCount - 1, lostCount + 1;
      }
      stageAck := at;
    }

    /** Leaves the fragment at the cursor where it is. */
    lemma PassOver(cx: Context, at: nat, repeated: bool, header: bool, k: nat, f: nat, gone: nat)
      requires Scanning(cx, at, repeated, header, k, f, gone) && stageAck < at
      requires k < |messagesSent| && f < |messagesSent[k].marks|
      requires cx.current ==> Settling(cx, k, f, gone)
      requires cx.current && !repeated ==> gone < |cx.v0.window| && !Releasable(cx.a, stage, at, cx.v0.window[gone])
      requires cx.current && gone + Place(messagesSent, k, f) < |cx.v0.window| ==>
                 !Resent(cx.a, cx.top, stage, at, cx.v0.window[gone + Place(messagesSent, k, f)])
      ensures Scanning(cx, at + 1, true, true, k, f + 1, gone)
      ensures cx.current ==> Settling(cx, k, f + 1, gone)
    {
      hide Consistent, Passed, InBand, AllCarry, Since, Stages, Sound, Resent, Releasable, Accounted;
      AlignedPlace(messagesSent, k, f, cx.v0.window, gone);
      AlignedSkip(messagesSent, k, f, cx.v0.window, gone);
      if cx.current {
        SettleOver(cx, k, f, gone, Stages(Since(band.Output(), |cx.out0|)));
      }
    }

    lemma SettleOver(cx: Context, k: nat, f: nat, gone: nat, stages: seq<nat>)
      requires AllOrdered(messagesSent) && k <= |messagesSent|
      requires var w, p := Window(messagesSent), Place(messagesSent, k, f);
               && Passed(cx.a, cx.top, stage, cx.v0.window, cx.v0.acked, stageAck, gone, w, p, stages)
               && p < |w| && w[p] == cx.v0.window[gone + p]
               && (p == 0 ==> !Releasable(cx.a, stage, cx.v0.acked + gone + 1, cx.v0.window[gone]))
               && !Resent(cx.a, cx.top, stage, cx.v0.acked + gone + 1 + p, cx.v0.window[gone + p])
      ensures Passed(cx.a, cx.top, stage, cx.v0.window, cx.v0.acked, stageAck, gone, Window(messagesSent),
                     Place(messagesSent, k, f + 1), stages)
    {
      var w, p := Window(messagesSent), Place(messagesSent, k, f);
      hide Place, Resent, Releasable, AllOrdered, Window, Ordered;
      PassedKeep(cx.a, cx.top, stage, cx.v0.window, cx.v0.acked, stageAck, gone, w, w, p, stages);
      assert stages + [] == stages;
    }

    /** Sends the fragment at the cursor again. */
    method Repeat(ghost cx: Context, at: nat, ghost repeated: bool, header0: bool, k: nat, f: nat, ghost gone: nat)
      requires Scanning(cx, at, repeated, header0, k, f, gone) && stageAck < at
      requires k < |messagesSent| && f < |messagesSent[k].marks|
      requires cx.current ==> Settling(cx, k, f, gone)
      requires cx.current && !repeated ==> gone < |cx.v0.window| && !Releasable(cx.a, stage, at, cx.v0.window[gone])
      requires cx.current && gone + Place(messagesSent, k, f) < |cx.v0.window| ==>
                 Resent(cx.a, cx.top, stage, at, cx.v0.window[gone + Place(messagesSent, k, f)])
      modifies this`messagesSent, band
      ensures Scanning(cx, at + 1, true, false, k, f + 1, gone)
      ensures |messagesSent| == old(|messagesSent|) && |messagesSent[k].marks| == old(|messagesSent[k].marks|)
      ensures cx.current ==> Settling(cx, k, f + 1, gone)
    {
      hide Accounted, Passed, Resent, Releasable, Since, Stages, Consistent, Remains, Fits, Queued, Items,
           CountRepeatable, InBand, AllCarry;
      assert cx.out0 <= band.Output();
      hide Emitting;
      SliceIsLogged(cx, at, repeated, k, f, gone);
      var message := messagesSent[k];
      var before, after, content := ReadSlice(message, f, |message.bytes| - message.marks[f].offset);
      DateFront(cx, at, repeated, k, f, gone);
      Resend(cx, at, before, after, header0, content);
    }

    /** The flags and the content of the fragment behind entry `f`, with `available` bytes left from there. */
    static method ReadSlice(message: Message, f: nat, available: nat)
      returns (before: bool, after: bool, content: seq<byte>)
      requires Ordered(message) && f < |message.marks| && available == |message.bytes| - message.marks[f].offset
      ensures Fragment(content, before, after) == Slice(message, f)
    {
      var fragment := message.marks[f].offset;
      var contentSize := available;
      before, after := fragment > 0, false;
      if f + 1 < |message.marks| {
        after := true;
        contentSize := message.marks[f + 1].offset - fragment;
      }
      content := message.bytes[fragment..fragment + contentSize];
    }

    /** The entry at the cursor stands for the fragment first sent as stage `at`. */
    lemma SliceIsLogged(cx: Context, at: nat, repeated: bool, k: nat, f: nat, gone: nat)
      requires Standing(cx, at, repeated, k, f, gone) && stageAck < at
      requires k < |messagesSent| && f < |messagesSent[k].marks|
      ensures Ordered(messagesSent[k]) && at <= stage && log[at - 1] == Slice(messagesSent[k], f)
      ensures log[at - 1].payload != [] && |log[at - 1].payload| + 4 + HeaderSize(at) <= CAPACITY
    {
      hide Consistent, Fits, Queued, Items, CountRepeatable, Aligned, AllOrdered, Ordered, HeaderSizeOf;
      AlignedTidy(messagesSent, k, f, cx.v0.window, gone);
      assert Ordered(messagesSent[k]) by { OrderedAt(messagesSent, k); }
      AtCursor(cx, at, repeated, k, f, gone);
      AlignedPlace(messagesSent, k, f, cx.v0.window, gone);
      LoggedAt(cx.v0, gone + Place(messagesSent, k, f));
      FitsAt(id, signature, flowId, stageAck, log, at);
    }

    /** Renews the date of the entry at the cursor. */
    method DateFront(ghost cx: Context, ghost at: nat, ghost repeated: bool, k: nat, f: nat, ghost gone: nat)
      requires Standing(cx, at, repeated, k, f, gone) && stageAck < at && cx.out0 <= band.Output()
      requires k < |messagesSent| && f < |messagesSent[k].marks|
      requires cx.current ==> Settling(cx, k, f, gone)
      requires cx.current && !repeated ==> gone < |cx.v0.window| && !Releasable(cx.a, stage, at, cx.v0.window[gone])
      requires cx.current && gone + Place(messagesSent, k, f) < |cx.v0.window| ==>
                 Resent(cx.a, cx.top, stage, at, cx.v0.window[gone + Place(messagesSent, k, f)])
      modifies this`messagesSent
      ensures Standing(cx, at + 1, true, k, f + 1, gone)
      ensures |messagesSent| == old(|messagesSent|) && |messagesSent[k].marks| == old(|messagesSent[k].marks|)
      ensures cx.current ==>
                Passed(cx.a, cx.top, stage, cx.v0.window, cx.v0.acked, stageAck, gone, Window(messagesSent),
                       Place(messagesSent, k, f + 1), Stages(Since(band.Output(), |cx.out0|)) + [at])
    {
      hide Accounted, Passed, Resent, Releasable, Consistent, Fits, Queued, Items, Aligned, CountRepeatable, Window,
           Place, Ordered, AllOrdered, Dated, Since, Stages;
      Redated(messagesSent, k, f, cx.v0.window, gone, stage);
      if cx.current {
        PassedRedated(cx.a, cx.top, stage, cx.v0.acked, stageAck, messagesSent, k, f, cx.v0.window, gone,
                      Stages(Since(band.Output(), |cx.out0|)));
      }
      messagesSent := messagesSent[k := Dated(messagesSent[k], f, stage)];
    }

    method Resend(ghost cx: Context, at: nat, before: bool, after: bool, header0: bool, content: seq<byte>)
      requires stageAck < at <= stage == |log| && Emitting(cx, at, header0) && id > 0
      requires log[at - 1] == Fragment(content, before, after) && content != []
      requires |content| + 4 + HeaderSize(at) <= CAPACITY
      modifies band
      ensures Emitting(cx, at + 1, false)
      ensures Stages(Since(band.Output(), |cx.out0|)) == Stages(Since(old(band.Output()), |cx.out0|)) + [at]
    {
      hide AllCarry, HeaderSizeOf, Laid, Stages, Since;
      ghost var out := band.Output();
      RepeatChunk(at, before, after, header0, content);
      OutputGrows(cx.out0, out, band.Output(), id, closed, log, stageAck, at);
    }

    /** Lays the chunk of a repeated fragment out, in a new packet and with a header when it must. */
    method RepeatChunk(at: nat, before: bool, after: bool, header0: bool, content: seq<byte>)
      requires band.Valid() && id > 0 && stageAck < at && content != []
      requires |content| + 4 + HeaderSize(at) <= CAPACITY
      requires !header0 ==> Following(band.packet, id, at - 1, stageAck)
      modifies band
      ensures band.Valid() && band.owner == 0 && Following(band.packet, id, at, stageAck)
      ensures Laid(old(band.Output()), band.Output(), id, closed, at, stageAck, Fragment(content, before, after))
      ensures band.sent == old(band.sent)
                           + if |content| + 4 + (if header0 then HeaderSize(at) else 0) <= old(band.Available())
                                || old(band.packet) == [] then [] else [old(band.packet)]
    {
      var size, header := |content| + 4, header0;
      if !header && size > band.Available() {
        band.Flush();
        header := true;
      }
      if header {
        size := size + HeaderSize(at);
      }
      if size > band.Available() {
        band.Flush();
      }
      size := size - 3;
      WriteFragment(size, at, before, after, header, content, 0);
    }

    /** Decides the fragment at the cursor by the hole at hand: releases it, passes over it or repeats it. */
    method Decide(sc0: Scan, maxStageRecv: nat, k: nat, f0: nat, ghost cx: Context, ghost gone: nat,
                  ghost rest: seq<(nat, nat)>)
      returns (sc: Scan, f: nat)
      requires Running(cx, sc0, rest, k, f0, gone) && stageAck < sc0.stage
      requires sc0.lostCount > 0 && k < |messagesSent| && f0 < |messagesSent[k].marks|
      requires cx.current ==> maxStageRecv == cx.top
      modifies this`messagesSent, this`stageAck, this`ackCount, this`lostCount, band
      ensures Running(cx, sc, rest, k, f, gone) && !sc.stop
      ensures |messagesSent| == old(|messagesSent|) && |messagesSent[k].marks| == old(|messagesSent[k].marks|)
      ensures || (f == f0 + 1 && sc.stage == sc0.stage + 1 && ackCount >= 0)
              || (f == f0 && sc.stage == sc0.stage == stageAck)
    {
      hide Standing, Settling, Emitting, Tracks, Judge, Span, Place;
      ghost var limit, s := stage, sc0.stage;
      AtCursor(cx, s, sc0.repeated, k, f0, gone);
      sc, f := sc0, f0;
      if sc.lostStage != sc.stage {
        ghost var acked := if sc.repeated then stageAck else s;
        if cx.current { TracksReceived(cx.a, limit, stageAck, acked, s, sc0, rest); }
        if sc.repeated {
          PassOver(cx, s, sc0.repeated, sc0.header, k, f0, gone);
          sc := sc.(stage := sc.stage + 1, header := true);
          f := f + 1;
        } else {
          Release(cx, sc.stage, k, f0, gone, false);
        }
        if cx.current { TracksIgnores(cx.a, limit, stageAck, s + 1, sc0, sc, rest); }
        return;
      }
      ghost var sc1, acked := Narrowed(sc0), if !messagesSent[k].repeatable && !sc.repeated then s else stageAck;
      if cx.current { TracksLost(cx.a, limit, stageAck, acked, s, sc0, rest); }
      if !messagesSent[k].repeatable {
        if sc.repeated {
          PassOver(cx, s, sc0.repeated, sc0.header, k, f0, gone);
          f := f + 1;
          sc := sc.(stage := sc.stage + 1, header := true);
        } else {
          Release(cx, sc.stage, k, f0, gone, true);
        }
      } else if messagesSent[k].marks[f].sentAt >= maxStageRecv || sc.stageRead == sc.lostStage + 2 {
        PassOver(cx, s, sc0.repeated, sc0.header, k, f0, gone);
        sc := sc.(repeated := true, stage := sc.stage + 1, header := true);
        f := f + 1;
      } else {
        Repeat(cx, sc.stage, sc0.repeated, sc.header, k, f, gone);
        sc := sc.(repeated := true, stage := sc.stage + 1, header := false);
        f := f + 1;
      }
      sc := sc.(lostCount := sc.lostCount - 1, lostStage := sc.lostStage + 1);
      if cx.current { TracksIgnores(cx.a, limit, stageAck, s + 1, sc1, sc, rest); }
    }

    /** Finds the next hole, if a fragment at the cursor must be decided. */
    method NextLoss(reader: PacketReader, sc0: Scan, k: nat, f: nat, ghost cx: Context, ghost gone: nat)
      returns (sc: Scan)
      requires reader.Valid() && Running(cx, sc0, ParsePairs(reader.Rest(), reader.pad), k, f, gone)
      requires stageAck < sc0.stage && k < |messagesSent| && f < |messagesSent[k].marks|
      modifies reader
      ensures reader.Valid() && sc.stage == sc0.stage <= stage && ackCount >= 0
      ensures sc.stop ==> Stopped(cx, sc, k, f, gone)
      ensures !sc.stop ==> Running(cx, sc, ParsePairs(reader.Rest(), reader.pad), k, f, gone) && sc.lostCount > 0
    {
      AtCursor(cx, sc0.stage, sc0.repeated, k, f, gone);
      hide Standing, Emitting, Settling, Tracks, Silent;
      sc := ReadLoss(reader, sc0, cx);
    }

    /** Walks through the entries of message `k`: releases, passes over or repeats them one by one. */
    method ScanMessage(reader: PacketReader, sc0: Scan, maxStageRecv: nat, k: nat, ghost cx: Context, ghost gone0: nat)
      returns (sc: Scan, f: nat, ghost gone: nat)
      requires reader.Valid() && Running(cx, sc0, ParsePairs(reader.Rest(), reader.pad), k, 0, gone0)
      requires k < |messagesSent| && ackCount >= 0 && sc0.stage <= stage + 1 && !sc0.stop
      requires cx.current ==> maxStageRecv == cx.top
      modifies this`messagesSent, this`stageAck, this`ackCount, this`lostCount, band, reader
      ensures reader.Valid() && |messagesSent| == old(|messagesSent|) && ackCount >= 0 && sc.stage <= stage + 1
      ensures sc.stop ==> Stopped(cx, sc, k, f, gone) && f < |messagesSent[k].marks|
      ensures !sc.stop ==>
                Running(cx, sc, ParsePairs(reader.Rest(), reader.pad), k, f, gone) && f == |messagesSent[k].marks|
    {
      hide Running, Stopped, ParsePairs;
      sc, f, gone := sc0, 0, gone0;
      while f < |messagesSent[k].marks|
        invariant reader.Valid() && |messagesSent| == old(|messagesSent|) && !sc.stop
        invariant Running(cx, sc, ParsePairs(reader.Rest(), reader.pad), k, f, gone)
        invariant f <= |messagesSent[k].marks| && sc.stage <= stage + 1
        invariant f == |messagesSent[k].marks| ==> ackCount >= 0
        decreases stage + 1 - sc.stage, if stageAck < sc.stage then 1 else 0
      {
        if stageAck >= sc.stage {
          sc := DropFront(cx, sc, ParsePairs(reader.Rest(), reader.pad), k, f, gone);
          f, gone := 0, gone + 1;
          continue;
        }
        sc := NextLoss(reader, sc, k, f, cx, gone);
        if sc.stop {
          break;
        }
        sc, f := Decide(sc, maxStageRecv, k, f, cx, gone, ParsePairs(reader.Rest(), reader.pad));
      }
    }

    lemma AtCursor(cx: Context, at: nat, repeated: bool, k: nat, f: nat, gone: nat)
      requires Standing(cx, at, repeated, k, f, gone) && stageAck < at
      requires k < |messagesSent| && f < |messagesSent[k].marks|
      ensures var p := gone + Place(messagesSent, k, f);
              && p < |cx.v0.window| && at <= stage && ackCount >= 0 && (!repeated ==> p == gone)
              && cx.v0.window[p].repeatable == messagesSent[k].repeatable
              && cx.v0.window[p].sentAt == messagesSent[k].marks[f].sentAt
    {
      hide Remains, Outstanding, NonEmpty, Fits, Queued, Items, CountRepeatable, Sensible, Assemble, Tidy;
      AlignedPlace(messagesSent, k, f, cx.v0.window, gone);
    }

    /** Removes message `k`, all of whose fragments were released, and reports it. */
    method Discard(ghost cx: Context, sc: Scan, ghost rest: seq<(nat, nat)>, k: nat, ghost gone: nat)
      requires k < |messagesSent| && messagesSent[k].marks == [] && ackCount >= 0
      requires Running(cx, sc, rest, k, 0, gone)
      modifies this`messagesSent, this`repeatable, this`ackCount, this`lostCount, this`reported, this`reportedLost
      ensures Running(cx, sc, rest, k, 0, gone) && messagesSent == old(messagesSent[..k] + messagesSent[k + 1..])
      ensures repeatable == old(repeatable) - if old(messagesSent[k]).repeatable then 1 else 0
      ensures old(ackCount) > 0 ==>
                && ackCount == 0 && reported == old(reported + ackCount)
                && lostCount == 0 && reportedLost == old(reportedLost + lostCount)
      ensures old(ackCount) == 0 ==>
                && ackCount == 0 && reported == old(reported)
                && lostCount == old(lostCount) && reportedLost == old(reportedLost)
    {
      hide Consistent, Tracks, Emitting, Aligned, Fits, Queued, Items, Passed, CountRepeatable, Window, AllOrdered,
           Tidy;
      OnlyFirstEmpty(messagesSent, k, cx.v0.window, gone);
      AlignedErase(messagesSent, cx.v0.window, gone);
      DropEmpty(messagesSent);
      CountFirst(messagesSent);
      if messagesSent[k].repeatable {
        repeatable := repeatable - 1;
      }
      HandOver();
      messagesSent := messagesSent[..k] + messagesSent[k + 1..];
      assert messagesSent == old(messagesSent)[1..];
    }

    /** Gives both counts to the acknowledgment handler, if anything was acknowledged. */
    method HandOver()
      requires ackCount >= 0
      modifies `ackCount, `lostCount, `reported, `reportedLost
      ensures old(ackCount) > 0 ==>
                && ackCount == 0 && reported == old(reported + ackCount)
                && lostCount == 0 && reportedLost == old(reportedLost + lostCount)
      ensures old(ackCount) == 0 ==>
                && ackCount == 0 && reported == old(reported)
                && lostCount == old(lostCount) && reportedLost == old(reportedLost)
    {
      if ackCount > 0 {
        reported, reportedLost := reported + ackCount, reportedLost + lostCount;
        ackCount, lostCount := 0, 0;
      }
    }

    /** Moves on to the next message. */
    lemma NextOne(cx: Context, sc: Scan, rest: seq<(nat, nat)>, k: nat, gone: nat)
      requires k < |messagesSent| && messagesSent[k].marks != [] && ackCount >= 0
      requires Running(cx, sc, rest, k, |messagesSent[k].marks|, gone)
      ensures Running(cx, sc, rest, k + 1, 0, gone)
    {
      hide Consistent, Tracks, Emitting, Sound, Passed, Accounted;
      AlignedNext(messagesSent, k, cx.v0.window, gone);
    }

    /** The highest stage the ranges report, counted from `from` in 32 bits; the reader stays put. */
    method MaxStage(reader: PacketReader, from: nat) returns (m: nat)
      requires reader.Valid()
      modifies reader
      ensures reader.Valid() && reader.Rest() == old(reader.Rest())
      ensures var span := Span(ParsePairs(reader.Rest(), reader.pad));
              from + span < 0x1_0000_0000 ==> m == from + span
    {
      hide Decode7;
      var pos := reader.pos;
      m := from;
      ghost var all := Span(ParsePairs(reader.Rest(), reader.pad));
      while reader.Available() > 0
        invariant reader.Valid()
        invariant from + all < 0x1_0000_0000 ==> m + Span(ParsePairs(reader.Rest(), reader.pad)) == from + all
        decreases |reader.Rest()|
      {
        ghost var was := reader.Rest();
        var a := reader.Read7BitValue();
        var b := reader.Read7BitValue();
        ParsePairsStep(was, reader.pad, a, b, reader.Rest());
        m := U32(m + a + b + 2);
      }
      reader.Reset(pos);
    }

    /** Takes the cumulative stage in, and opens the loop. */
    method Begin(stageRead: nat, ghost cx: Context) returns (sc: Scan)
      requires Valid() && cx.v0 == View() && cx.out0 == band.Output()
      requires stageRead == cx.a.stage && cx.current == Current(cx.v0, cx.a) && cx.astray == Astray(cx.v0, cx.a)
      requires cx.top == Top(cx.v0, cx.a) && cx.lost == Losses()
      modifies this`stageAck
      ensures Running(cx, sc, cx.a.pairs, 0, 0, 0) && !sc.stop && sc.stage <= stage + 1 && ackCount >= 0
      ensures cx.current ==> stageAck + Span(cx.a.pairs) == cx.top < 0x1_0000_0000
    {
      hide Tracks, GivenUp, Judge, Passed, Tidy, Outstanding, NonEmpty, Sensible, Assemble, Fits, Queued, Items,
           Remains, CountRepeatable, Coupled, Following, AllOrdered, Ordered, Window, Outs, Place, Span, Legible,
           Band.Output;
      TidyOrdered(messagesSent);
      PlaceFirst(messagesSent);
      ghost var base := stageAck;
      sc := Scan(stageAck + 1, 0, 0, stageRead, false, true, false);
      var to := if stageRead > stage then stage else if stageRead <= stageAck then stageAck else stageRead;
      MoreAcked(id, signature, flowId, stageAck, to, log);
      CoupledMore(band.packet, id, signature, flowId, stage, stageAck, to);
      AlignedStart(messagesSent);
      assert Stages(Since(band.Output(), |cx.out0|)) == [];
      if cx.current {
        PassedStart(cx.v0, cx.a, sc, to);
        GivenUpNone(cx.a, stage, base, to - base);
      }
      if cx.astray { StraysStart(cx.v0, cx.a, sc, to); }
      hide Consistent;
      stageAck := to;
    }

    /** Where the loop can end: at an entry nothing more is known of, or past the last message. */
    ghost predicate AtEnd(cx: Context, sc: Scan, rest: seq<(nat, nat)>, k: nat, f: nat, gone: nat)
      reads this, band, trigger
    {
      || (Stopped(cx, sc, k, f, gone) && k < |messagesSent| && f < |messagesSent[k].marks|)
      || (Running(cx, sc, rest, k, f, gone) && k == |messagesSent|)
    }

    lemma EndPlace(cx: Context, sc: Scan, rest: seq<(nat, nat)>, k: nat, f: nat, gone: nat)
      requires AtEnd(cx, sc, rest, k, f, gone)
      ensures Standing(cx, sc.stage, sc.repeated, k, f, gone) && Emitting(cx, sc.stage, sc.header)
      ensures stageAck < sc.stage && stageAck == cx.v0.acked + gone && (!sc.repeated ==> band.Output() == cx.out0)
      ensures k == |messagesSent| ==> Place(messagesSent, k, f) == |Window(messagesSent)|
      ensures messagesSent != [] ==> messagesSent[0].marks != []
    {
      hide Emitting, Settling, Accounted, Tracks, Silent;
      assert messagesSent[..|messagesSent|] == messagesSent;
    }

    /** The end of the loop: the sender is in order again, shifted. */
    lemma Finish(cx: Context, sc: Scan, rest: seq<(nat, nat)>, k: nat, f: nat, gone: nat)
      requires AtEnd(cx, sc, rest, k, f, gone) && ackCount >= 0
      ensures Valid() && Shifted(cx.v0, View()) && (!sc.repeated ==> band.Output() == cx.out0)
      ensures cx.out0 <= band.Output() && AllCarry(Since(band.Output(), |cx.out0|), id, closed, log, stageAck)
    {
      EndPlace(cx, sc, rest, k, f, gone);
      hide AtEnd, Consistent, AllCarry, Since, Fits, Coupled, Shifted;
      AlignedShifted(cx.v0, View(), messagesSent, k, f, gone);
    }

    /** And a current acknowledgment is settled. */
    lemma FinishCurrent(cx: Context, sc: Scan, rest: seq<(nat, nat)>, k: nat, f: nat, gone: nat)
      requires AtEnd(cx, sc, rest, k, f, gone) && cx.current && AllOrdered(messagesSent) && cx.top == Top(cx.v0, cx.a)
      ensures Settled(cx.v0, View(), cx.a, Since(band.Output(), |cx.out0|)) && Accounted(cx.a, cx.v0.acked, cx.lost)
    {
      EndPlace(cx, sc, rest, k, f, gone);
      assert Settling(cx, k, f, gone) && (k < |messagesSent| ==> Silent(cx.a, stage, sc.stage));
      hide AtEnd, Emitting, Since, Stages, Silent, Passed, Sound, Accounted;
      PassedSettles(cx.v0, View(), cx.a, Since(band.Output(), |cx.out0|), gone, Place(messagesSent, k, f), sc.stage);
    }

    /** And one that led astray released everything. */
    lemma FinishAstray(cx: Context, sc: Scan, rest: seq<(nat, nat)>, k: nat, f: nat, gone: nat)
      requires AtEnd(cx, sc, rest, k, f, gone) && cx.astray && AllOrdered(messagesSent)
      ensures View().window == [] && Since(band.Output(), |cx.out0|) == []
    {
      EndPlace(cx, sc, rest, k, f, gone);
      hide Emitting, Settling, Accounted, Tracks, Silent, Strays, Sound, Aligned, Consistent, Window, AllOrdered;
    }

    /** Goes through the messages sent, and discards those released to the end. */
    method ScanMessages(reader: PacketReader, sc0: Scan, maxStageRecv: nat, ghost cx: Context)
      returns (sc: Scan, ghost rest: seq<(nat, nat)>, ghost k': nat, ghost f: nat, ghost gone: nat)
      requires reader.Valid() && Running(cx, sc0, ParsePairs(reader.Rest(), reader.pad), 0, 0, 0)
      requires ackCount >= 0 && sc0.stage <= stage + 1 && !sc0.stop
      requires cx.current ==> maxStageRecv == cx.top
      modifies this`messagesSent, this`stageAck, this`ackCount, this`lostCount, this`repeatable, this`reported,
               this`reportedLost
      modifies band, reader
      ensures AtEnd(cx, sc, rest, k', f, gone) && ackCount >= 0
    {
      hide Running, Stopped, ParsePairs;
      sc := sc0;
      var k := 0;
      k', f, gone := 0, 0, 0;
      while !sc.stop && k < |messagesSent|
        invariant reader.Valid() && k <= |messagesSent| && ackCount >= 0 && sc.stage <= stage + 1
        invariant sc.stop ==> Stopped(cx, sc, k', f, gone) && k' < |messagesSent| && f < |messagesSent[k'].marks|
        invariant !sc.stop ==> Running(cx, sc, ParsePairs(reader.Rest(), reader.pad), k, 0, gone)
        decreases !sc.stop, |messagesSent| - k
      {
        sc, f, gone := ScanMessage(reader, sc, maxStageRecv, k, cx, gone);
        k' := k;
        if messagesSent[k].marks == [] {
          Discard(cx, sc, ParsePairs(reader.Rest(), reader.pad), k, gone);
        } else {
          if !sc.stop { NextOne(cx, sc, ParsePairs(reader.Rest(), reader.pad), k, gone); }
          k := k + 1;
        }
      }
      if !sc.stop {
        k', f := k, 0;
      }
      rest := ParsePairs(reader.Rest(), reader.pad);
    }

    /** Takes in an acknowledgment; says whether it is a negative one, on which the writer must fail. */
    method Acknowledgment(reader: PacketReader) returns (negative: bool)
      requires Valid() && reader.Valid()
      modifies this`messagesSent, this`stageAck, this`ackCount, this`lostCount, this`repeatable, this`reported,
               this`reportedLost
      modifies band, trigger, reader
      ensures Valid()
      ensures negative <==> ParseAck(old(reader.Rest()), reader.pad).room == 0
      ensures negative ==> View() == old(View()) && band.Output() == old(band.Output())
      ensures !negative ==> old(band.Output()) <= band.Output()
      ensures !negative ==>
                AckStep(id, closed, old(View()), View(), ParseAck(old(reader.Rest()), reader.pad),
                        Since(band.Output(), |old(band.Output())|))
      ensures !negative && Current(old(View()), ParseAck(old(reader.Rest()), reader.pad)) ==>
                Accounted(ParseAck(old(reader.Rest()), reader.pad), old(stageAck), old(Losses()))
      ensures !negative ==> (trigger.running <==> old(trigger.running) && repeatable > 0)
      ensures !negative && repeatable > 0 && (stageAck > old(stageAck) || band.Output() != old(band.Output())) ==>
                trigger.Clocked() == FRESH
    {
      hide Running, Stopped, ParsePairs, Decode7, Settled, Current, Astray, Top, Ready, InBand, AllOrdered, Consistent,
           AllCarry, Since, Shifted, Window;
      InOrder();
      ghost var a := ParseAck(reader.Rest(), reader.pad);
      ghost var cx := Context(View(), band.Output(), a, Current(View(), a), Astray(View(), a), Top(View(), a),
                              Losses());
      var bufferSize := reader.Read7BitValue();
      if bufferSize == 0 {
        return true;
      }
      negative := false;
      var stageAckPrec := stageAck;
      var stageRead := reader.Read7BitValue();
      var sc := Begin(stageRead, cx);
      var maxStageRecv := MaxStage(reader, stageAck);
      assert cx.current ==> maxStageRecv == cx.top;
      ghost var rest, k, f, gone;
      sc, rest, k, f, gone := ScanMessages(reader, sc, maxStageRecv, cx);
      Finish(cx, sc, rest, k, f, gone);
      InOrder();
      if cx.current { FinishCurrent(cx, sc, rest, k, f, gone); }
      if cx.astray { FinishAstray(cx, sc, rest, k, f, gone); }
      Rearm(stageAckPrec, sc.repeated);
    }

    /** Stops the trigger when nothing is left to repeat, and starts its count again after progress. */
    method Rearm(stageAckPrec: nat, repeated: bool)
      requires Valid()
      modifies trigger
      ensures Valid()
      ensures trigger.running <==> old(trigger.running) && repeatable > 0
      ensures trigger.Clocked() == if repeatable > 0 && (stageAck > stageAckPrec || repeated) then FRESH
                                   else old(trigger.Clocked())
    {
      if repeatable == 0 {
        trigger.Stop();
      } else if stageAck > stageAckPrec || repeated {
        trigger.Reset();
      }
    }

    // --- sending ---

    /** Message `m` is cut up to `o`: what is sent of it is logged and on the output. */
    ghost predicate Sliced(m: Message, o: nat, log0: seq<Fragment>, out0: seq<Segment>)
      reads `stage, `stageAck, `log, `closed, band
    {
      && band.Valid() && id > 0 && |signature| < 0x100 && stage == |log| && stageAck <= |log0| <= |log|
      && |m.bytes| <= LONGEST
      && Fits(id, signature, flowId, stageAck, log)
      && SlicedOut(m, o, log0, log, id, closed, stageAck, out0, band.Output())
    }

    /** And the next chunk has room for a header, or can do without. */
    ghost predicate Slicing(m: Message, o: nat, header: bool, log0: seq<Fragment>, out0: seq<Segment>)
      reads `stage, `stageAck, `log, `closed, band
    {
      && Sliced(m, o, log0, out0)
      && (header ==> RoomFor(band.Available(), 4 + HeaderSize(stage + 1), |m.bytes| - o))
      && (!header ==> Coupled(band.packet, id, signature, flowId, stage, stageAck))
      && (o > 0 ==> band.owner == id && Coupled(band.packet, id, signature, flowId, stage, stageAck))
    }

    /** Makes sure the packet has the 12 bytes a fragment is worth starting in. */
    method MakeRoom(m: Message, o: nat, header0: bool, ghost log0: seq<Fragment>,
                    ghost out0: seq<Segment>) returns (header: bool)
      requires Slicing(m, o, header0, log0, out0) && o < |m.bytes|
      modifies band
      ensures Filled(old(band.sent), band.sent)
      ensures Sliced(m, o, log0, out0) && 12 <= band.Available()
      ensures header ==> RoomFor(band.Available(), 4 + HeaderSize(stage + 1), |m.bytes| - o)
      ensures !header ==> Coupled(band.packet, id, signature, flowId, stage, stageAck)
    {
      hide Cutting, Fits, AllCarry, Numbered, Since, Coupled, Filled;
      header := header0;
      FilledNone(band.sent);
      if band.Available() < 12 {
        FilledMore(band.sent, band.packet);
        band.Flush();
        header := true;
      }
    }

    /** The size of the next slice, and of its chunk, in `room` bytes of which `overhead` go to the header,
        in the 32 bits all sizes have. */
    static method SizeSlice(room: nat, overhead: nat, available: nat) returns (contentSize: nat, size: nat, after: bool)
      requires overhead < 0x1_0000_0000 && available < 0x1_0000_0000
      ensures contentSize == SliceSize(room, overhead, available)
      ensures after <==> U32(available + overhead) > room
      ensures size == if after then room else U32(available + overhead)
    {
      contentSize := available;
      size := U32(contentSize + overhead);
      after := false;
      if size > room {
        after := true;
        contentSize := U32(room - U32(size - contentSize));
        size := room;
      }
    }

    /** Lays out a slice of the size found, and enters it in the message. */
    method PutSlice(m0: Message, o0: nat, size: nat, contentSize: nat, head: bool, after: bool,
                    ghost log0: seq<Fragment>, ghost out0: seq<Segment>)
      returns (m: Message, o: nat)
      requires Sliced(m0, o0, log0, out0) && 0 < contentSize && o0 + contentSize <= |m0.bytes|
      requires !head ==> Coupled(band.packet, id, signature, flowId, stage, stageAck)
      requires size == 4 + contentSize + (if head then HeaderSize(stage + 1) else 0) <= band.Available()
      requires after <==> o0 + contentSize < |m0.bytes|
      modifies `stage, `log, band
      ensures Sliced(m, o, log0, out0) && o == o0 + contentSize
      ensures band.owner == id && Coupled(band.packet, id, signature, flowId, stage, stageAck)
      ensures PacketSize(band.packet) == old(PacketSize(band.packet)) + size && band.sent == old(band.sent)
      ensures m.bytes == m0.bytes && m.repeatable == m0.repeatable
    {
      hide Fits, Overhead, PacketSize, HeaderSizeOf, ChunkOf, Laid, Appended, SlicedOut, Following, Segments,
           AllSegments, CursorOf, Band.Output;
      o := o0 + contentSize;
      m := m0.(marks := m0.marks + [Mark(o0, stage + 1)]);
      var content := m0.bytes[o0..o];
      ghost var f := Fragment(content, o0 > 0, after);
      if !head { FollowingFits(band.packet, id, stage, stageAck); }
      HeaderGrows(id, signature, flowId, stageAck, stage);
      FitsMore(id, signature, flowId, stageAck, log, f);
      ghost var out, was := band.Output(), log;
      stage := stage + 1;
      log := log + [f];
      WriteFragment(size - 3, stage, o0 > 0, after, head, content, id);
      SliceOut(m0, o0, contentSize, log0, was, id, closed, stageAck, out0, out, band.Output());
    }

    /** Sends the next slice of message `m`, as much of it as the packet takes. */
    method SendSlice(m0: Message, o0: nat, header0: bool, ghost log0: seq<Fragment>, ghost out0: seq<Segment>)
      returns (m: Message, o: nat, header: bool)
      requires Slicing(m0, o0, header0, log0, out0) && o0 < |m0.bytes|
      modifies `stage, `log, band
      ensures Slicing(m, o, header, log0, out0) && o0 < o <= |m.bytes| && (header <==> o < |m.bytes|)
      ensures Filled(old(band.sent), band.sent)
      ensures m.bytes == m0.bytes && m.repeatable == m0.repeatable
    {
      hide Cutting, Fits, AllCarry, Numbered, Since, Coupled, SliceSize, U32, HeaderSizeOf, SlicedOut, Filled;
      var head := MakeRoom(m0, o0, header0, log0, out0);
      var overhead := 4 + if head then HeaderSize(stage + 1) else 0;
      HeaderBound(id, signature, flowId, stageAck, stage + 1);
      SliceFits(band.Available(), overhead, |m0.bytes| - o0);
      var contentSize, size, after := SizeSlice(band.Available(), overhead, |m0.bytes| - o0);
      m, o := PutSlice(m0, o0, size, contentSize, head, after, log0, out0);
      header := after;
    }

    /** Sends message `m` to its end. */
    method SendSlices(m0: Message, header0: bool, ghost log0: seq<Fragment>, ghost out0: seq<Segment>)
      returns (m: Message)
      requires m0.marks == [] && m0.bytes != [] && Slicing(m0, 0, header0, log0, out0)
      modifies `stage, `log, band
      ensures Slicing(m, |m.bytes|, false, log0, out0)
      ensures Filled(old(band.sent), band.sent)
      ensures m.bytes == m0.bytes && m.repeatable == m0.repeatable
    {
      hide Slicing, Filled;
      var header, fragments, again := header0, 0, true;
      m := m0;
      FilledNone(band.sent);
      while again
        invariant Slicing(m, fragments, header, log0, out0)
        invariant m.bytes == m0.bytes && m.repeatable == m0.repeatable
        invariant again ==> fragments < |m.bytes|
        invariant Filled(old(band.sent), band.sent)
        invariant !again ==> fragments == |m.bytes| && !header
        decreases |m.bytes| - fragments
      {
        ghost var sent := band.sent;
        m, fragments, header := SendSlice(m, fragments, header, log0, out0);
        FilledOn(old(band.sent), sent, band.sent);
        again := fragments < |m.bytes|;
      }
    }

    /** Starts the trigger for a message to be repeated. */
    method Arm(message: Message)
      requires repeatable > 0 ==> trigger.running
      modifies `repeatable, trigger
      ensures repeatable == old(repeatable) + if message.repeatable then 1 else 0
      ensures repeatable > 0 ==> trigger.running
      ensures trigger.running <==> old(trigger.running) || message.repeatable
      ensures trigger.Clocked() == if trigger.running && !old(trigger.running) then FRESH else old(trigger.Clocked())
    {
      if message.repeatable {
        repeatable := repeatable + 1;
        trigger.Start();
      }
    }

    /** The first message of `queue` is cut to its end, as `m`, but not yet moved behind the messages `sent`. */
    ghost predicate Sent(v: Link, m: Message, out0: seq<Segment>, sent: seq<Message>, queue: seq<Message>)
      reads `stage, `stageAck, `log, `closed, `repeatable, `ackCount, `lostCount, `reported, `reportedLost,
            band, trigger
    {
      && id > 0 && |signature| < 0x100 && stage == |log| && stageAck <= stage
      && Queued(queue)
      && queue != [] && m.bytes == queue[0].bytes && m.repeatable == queue[0].repeatable
      && repeatable == CountRepeatable(sent) + (if m.repeatable then 1 else 0) && (repeatable > 0 ==> trigger.running)
      && Fits(id, signature, flowId, stageAck, log)
      && Tidy(sent) && (sent != [] ==> sent[0].marks != [])
      && v == Link(v.log, stageAck, Window(sent), v.history, Items(queue)) && Consistent(v)
      && ackCount >= 0 && reported + reportedLost + ackCount + lostCount == stageAck
      && InBand() && band.owner == id && SlicedOut(m, |m.bytes|, v.log, log, id, closed, stageAck, out0, band.Output())
    }

    lemma Archived(v: Link, m: Message, out0: seq<Segment>, sent: seq<Message>, queue: seq<Message>)
      requires Sent(v, m, out0, sent, queue)
      requires messagesSent == sent + [m] && messages == queue[1..] && history == v.history + [m.bytes]
      ensures Valid() && SentOne(id, closed, v, View(), out0, band.Output())
    {
      TidyOrdered(sent);
      hide Consistent, Fits, HeaderSizeOf, Coupled, SlicedOut, Tidy, AllOrdered, SentOne, Items, CountRepeatable,
           Window, Band.Output, Queued;
      ItemsTail(queue);
      CountAppend(sent, m);
      NewMessage(v, sent, m, log, id, closed, out0, band.Output());
      assert View() == WithMessage(v, m, log);
    }

    /** Moves the first queued message, now sent, to the messages sent. */
    method Archive(message: Message, ghost v: Link, ghost out0: seq<Segment>)
      requires Sent(v, message, out0, messagesSent, messages) && history == v.history
      modifies `messages, `messagesSent, `history
      ensures old(messages) != [] && messages == old(messages)[1..]
      ensures Valid() && SentOne(id, closed, v, View(), out0, band.Output())
    {
      hide Sent, SentOne;
      ghost var sent, queue := messagesSent, messages;
      assert messages != [] by { QueueNotEmpty(v, message, out0, sent, queue); }
      messagesSent := messagesSent + [message];
      messages := messages[1..];
      history := history + [message.bytes];
      Archived(v, message, out0, sent, queue);
    }

    lemma QueueNotEmpty(v: Link, m: Message, out0: seq<Segment>, sent: seq<Message>, queue: seq<Message>)
      requires Sent(v, m, out0, sent, queue)
      ensures queue != []
    {
    }

    /** Sends the first queued message. */
    method SendMessage(header: bool)
      requires Valid() && messages != []
      requires header ==> RoomFor(band.Available(), 4 + HeaderSize(stage + 1), |messages[0].bytes|)
      requires !header ==> band.owner == id
      modifies `messages, `messagesSent, `stage, `repeatable, `log, `history, band, trigger
      ensures Valid() && band.owner == id && messages == old(messages)[1..]
      ensures trigger.running <==> old(trigger.running) || old(messages)[0].repeatable
      ensures trigger.Clocked() == if trigger.running && !old(trigger.running) then FRESH else old(trigger.Clocked())
      ensures Filled(old(band.sent), band.sent)
      ensures SentOne(id, closed, old(View()), View(), old(band.Output()), band.Output())
    {
      hide Consistent, Fits, HeaderSizeOf, Coupled, RoomFor, SlicedOut, SentOne, Items, CountRepeatable, Window, Filled;
      var message := messages[0];
      ghost var v, log0, out0 := View(), log, band.Output();
      Arm(message);
      SliceStart(message, log0, id, closed, stageAck, out0);
      message := SendSlices(message, header, log0, out0);
      Archive(message, v, out0);
    }

    /** What the loop of Flush needs to know of a sender in order. */
    lemma InOrder()
      requires Valid()
      ensures AllOrdered(messagesSent) && |log| == stageAck + |Window(messagesSent)| && stageAck <= stage
      ensures Consistent(View()) && |View().pending| == |messages|
      ensures id > 0 && band.Valid()
    {
      hide Fits, Queued, Coupled, CountRepeatable, Outstanding, Sensible;
    }

    /** Sends the packet under construction if it is not to wait for more. */
    method SendPacket(full: bool)
      requires Valid()
      modifies band
      ensures Valid() && band.Output() == old(band.Output())
      ensures band.packet == (if full then [] else old(band.packet))
      ensures band.sent == old(band.sent) + if full && old(band.packet) != [] then [old(band.packet)] else []
    {
      InOrder();
      hide Ready;
      if full {
        band.Flush();
      }
    }

    /** Sends all queued messages; no packet leaves with 12 bytes or more to spare but the last one, and that
        only if it is not to wait for more. */
    method Flush(full: bool)
      requires Valid()
      requires messages != [] && band.owner != id ==>
                 RoomFor(band.Available(), 4 + HeaderSize(stage + 1), |messages[0].bytes|)
      modifies `messages, `messagesSent, `stage, `repeatable, `log, `history, band, trigger
      ensures Valid()
      ensures old(band.Output()) <= band.Output() && (full ==> band.packet == [])
      ensures FilledButLast(old(band.sent), band.sent, full)
      ensures trigger.running <==> old(trigger.running) || exists m :: m in old(messages) && m.repeatable
      ensures trigger.Clocked() == if trigger.running && !old(trigger.running) then FRESH else old(trigger.Clocked())
      ensures FlushStep(id, closed, old(View()), View(), Since(band.Output(), |old(band.Output())|))
    {
      hide SentOne, Consistent, FlushedSome, Flushed, AllCarry, Numbered, Since, Contents, RoomFor, Ready, InBand,
           Window, Items, AllOrdered, Filled, FilledButLast, Band.Output;
      InOrder();
      FilledNone(band.sent);
      ghost var v, out0, k := View(), band.Output(), 0;
      var header := band.owner != id;
      FlushStart(v, out0, id, closed);
      while messages != []
        invariant Valid() && AllOrdered(messagesSent) && stageAck <= stage && band.Valid()
        invariant k <= |v.pending| && View().pending == v.pending[k..] && |View().pending| == |messages|
        invariant FlushedSome(id, closed, v, View(), k, out0, band.Output())
        invariant Filled(old(band.sent), band.sent)
        invariant k <= |old(messages)| && messages == old(messages)[k..]
        invariant trigger.running <==> old(trigger.running) || exists m :: m in old(messages)[..k] && m.repeatable
        invariant trigger.Clocked()
                  == if trigger.running && !old(trigger.running) then FRESH else old(trigger.Clocked())
        invariant messages != [] && header ==> RoomFor(band.Available(), 4 + HeaderSize(stage + 1), |messages[0].bytes|)
        invariant !header ==> band.owner == id
        decreases |messages|
      {
        ghost var v1, out1, sent := View(), band.Output(), band.sent;
        SendMessage(header);
        FilledOn(old(band.sent), sent, band.sent);
        InOrder();
        SentMore(id, closed, v, v1, View(), k, out0, out1, band.Output());
        header := false;
        assert old(messages)[..k + 1] == old(messages)[..k] + [old(messages)[k]];
        k := k + 1;
      }
      assert old(messages)[..k] == old(messages);
      InOrder();
      FlushEnd(id, closed, v, View(), k, out0, band.Output());
      FilledEnd(old(band.sent), band.sent, band.packet, full);
      SendPacket(full);
    }

    // --- raising ---

    /** The packet has no room for stage `at`, with a header or without as the stage would go out. */
    ghost predicate TooLong(v: Link, at: nat)
      reads `stageAck, `log, band
    {
      && band.Valid() && stageAck == v.acked < at <= |log| && at <= v.acked + |v.window|
      && |log[at - 1].payload| + 4 + (if NeedsHeader(v, at) then HeaderSize(at) else 0) > band.Available()
    }

    /** Sends one repeatable fragment again if the packet still takes it. */
    method RaiseFragment(ghost v: Link, ghost out0: seq<Segment>, k: nat, f: nat, at: nat, header: bool, available: nat)
      returns (full: bool, contentSize: nat)
      requires id > 0 && stage == |log| && log == v.log && stageAck == v.acked && band.Valid()
      requires Fits(id, signature, flowId, stageAck, log) && Cursoring(v, messagesSent, k, f, at)
      requires RaisedOut(v, id, closed, out0, band.Output(), band.packet, Place(messagesSent, k, f), at, header)
      requires k < |messagesSent| && f < |messagesSent[k].marks| && messagesSent[k].repeatable
      requires available == |messagesSent[k].bytes| - messagesSent[k].marks[f].offset
      modifies band
      ensures band.Valid() && band.sent == old(band.sent)
      ensures full ==> old(band.packet) != [] && band.packet == old(band.packet) && band.Output() == old(band.Output())
      ensures !full ==> band.owner == 0 && Cursoring(v, messagesSent, k, f + 1, at + 1)
      ensures !full ==>
                RaisedOut(v, id, closed, out0, band.Output(), band.packet, Place(messagesSent, k, f + 1), at + 1, false)
      ensures full ==> band.owner == old(band.owner) && TooLong(v, at)
      ensures contentSize == SliceEnd(messagesSent[k], f) - messagesSent[k].marks[f].offset
    {
      hide Cursoring, RaisedOut, Fits, Place, Renewable, HeaderSizeOf, Tidy, AllOrdered, Window, Consistent, Following,
           Band.Output;
      CursorAt(v, messagesSent, k, f, at);
      FitsAt(id, signature, flowId, stageAck, log, at);
      HeaderNeeded(v, messagesSent, k, f, id, closed, out0, band.Output(), band.packet, at, header);
      var before, after, content := ReadSlice(messagesSent[k], f, available);
      contentSize := |content|;
      var size := contentSize + 4;
      if header {
        size := size + HeaderSize(at);
      }
      full := size > band.Available();
      if full {
        return;
      }
      RaiseOut(v, out0, Place(messagesSent, k, f), at, header, size - 3, before, after, content);
    }

    /** Lays out a raised fragment. */
    method RaiseOut(ghost v: Link, ghost out0: seq<Segment>, ghost p: nat, at: nat, header: bool, length: nat,
                    before: bool, after: bool, content: seq<byte>)
      requires id > 0 && log == v.log && stageAck == v.acked < at <= |log| && content != [] && band.Valid()
      requires RaisedOut(v, id, closed, out0, band.Output(), band.packet, p, at, header) && p < |v.window|
      requires log[at - 1] == Fragment(content, before, after)
      requires Renewable(v.window, v.acked, p + 1) == Renewable(v.window, v.acked, p) + [at]
      requires length == 1 + |content| + (if header then HeaderSize(at) else 0) && 3 + length <= band.Available()
      modifies band
      ensures band.Valid() && band.owner == 0 && band.sent == old(band.sent)
      ensures RaisedOut(v, id, closed, out0, band.Output(), band.packet, p + 1, at + 1, false)
    {
      ghost var out := band.Output();
      hide AllCarry, Since, HeaderSizeOf, Stages, Renewable, Laid, ChunkOf, Appended;
      WriteFragment(length, at, before, after, header, content, 0);
      OutputGrows(out0, out, band.Output(), id, closed, log, stageAck, at);
    }

    /** Sends the fragments of message `k` again until the packet is full. */
    method RaiseFragments(ghost v: Link, ghost out0: seq<Segment>, k: nat, at0: nat, header0: bool)
      returns (full: bool, at: nat, header: bool, ghost f: nat)
      requires id > 0 && stage == |log| && log == v.log && stageAck == v.acked && band.Valid() && band.owner == 0
      requires Fits(id, signature, flowId, stageAck, log) && Cursoring(v, messagesSent, k, 0, at0)
      requires RaisedOut(v, id, closed, out0, band.Output(), band.packet, Place(messagesSent, k, 0), at0, header0)
      requires k < |messagesSent| && messagesSent[k].repeatable
      modifies band
      ensures band.Valid() && band.owner == 0 && f <= |messagesSent[k].marks| && Cursoring(v, messagesSent, k, f, at)
      ensures RaisedOut(v, id, closed, out0, band.Output(), band.packet, Place(messagesSent, k, f), at, header)
      ensures full ==> (f > 0 || old(band.packet) != []) && f < |messagesSent[k].marks| && TooLong(v, at)
      ensures !full ==> f == |messagesSent[k].marks| > 0
      ensures band.sent == old(band.sent)
    {
      hide Cursoring, RaisedOut, Fits, Place, Ordered, AllOrdered, Tidy, Window, Band.Output, Following, PacketSize,
           HeaderSizeOf;
      CursorAt(v, messagesSent, k, 0, at0);
      var message := messagesSent[k];
      var i: nat, available: nat := 0, |message.bytes| - message.marks[0].offset;
      at, header, f, full := at0, header0, 0, false;
      while i < |message.marks|
        invariant i == f <= |message.marks| && !full && band.Valid() && band.owner == 0
        invariant f < |message.marks| ==> available == |message.bytes| - message.marks[f].offset
        invariant AllOrdered(messagesSent) && Cursoring(v, messagesSent, k, f, at)
        invariant RaisedOut(v, id, closed, out0, band.Output(), band.packet, Place(messagesSent, k, f), at, header)
        invariant (f == 0 ==> band.packet == old(band.packet)) && band.sent == old(band.sent)
      {
        var contentSize;
        full, contentSize := RaiseFragment(v, out0, k, i, at, header, available);
        if full {
          return;
        }
        at := at + 1;
        available := available - contentSize;
        header := false;
        i, f := i + 1, f + 1;
      }
    }

    /** Goes through the messages sent until the packet is full; says whether it never found one to repeat. */
    method RaiseMessages(ghost v: Link, ghost out0: seq<Segment>) returns (stop: bool)
      requires id > 0 && stage == |log| && log == v.log && stageAck == v.acked && band.Valid() && out0 == band.Output()
      requires Fits(id, signature, flowId, stageAck, log) && Cursoring(v, messagesSent, 0, 0, stageAck + 1)
      modifies band
      ensures band.Valid() && RaisedAll(v, id, closed, out0, band.Output())
      ensures stop ==> forall i :: 0 <= i < |messagesSent| ==> !messagesSent[i].repeatable
      ensures Jammed(v, Since(band.Output(), |out0|))
      ensures if stop then band.owner == old(band.owner) && band.packet == old(band.packet) else band.owner == 0
      ensures band.sent == old(band.sent) + if stop || old(band.packet) == [] then [] else [old(band.packet)]
      ensures !stop ==> CountRepeatable(messagesSent) > 0
    {
      hide Between, Cursoring, Fits, RaisedAll, Tidy, AllOrdered, Window, Place, Renewable, Consistent, AllCarry,
           Since, Band.Output, PacketSize;
      RaiseStart(v, id, closed, messagesSent, out0, band.packet);
      var k: nat, at: nat, header, full := 0, stageAck + 1, true, false;
      ghost var f: nat := 0;
      stop := true;
      while k < |messagesSent| && !full
        invariant k <= |messagesSent| && band.Valid()
        invariant Between(v, id, closed, messagesSent, k, f, at, header, out0, band.Output(), band.packet, stop, full)
        invariant if stop then band.owner == old(band.owner) && band.packet == old(band.packet) else band.owner == 0
        invariant band.sent == old(band.sent) + if stop || old(band.packet) == [] then [] else [old(band.packet)]
        invariant !stop ==> CountRepeatable(messagesSent) > 0
        invariant !full ==> f == 0
        invariant full ==> k < |messagesSent| && messagesSent[k].repeatable && f < |messagesSent[k].marks|
        invariant full ==> TooLong(v, at)
        decreases |messagesSent| - k, !full
      {
        if !messagesSent[k].repeatable {
          SkipOne(v, id, closed, messagesSent, k, at, header, out0, band.Output(), band.packet, stop);
          at := at + |messagesSent[k].marks|;
          header := true;
          k := k + 1;
        } else {
          SomeRepeatable(messagesSent, k);
          stop, full, at, header, f := RaiseOne(v, out0, k, at, header, stop);
          k := if full then k else k + 1;
        }
      }
      RaiseEnd(v, id, closed, messagesSent, k, f, at, header, out0, band.Output(), band.packet, stop, full);
    }

    /** Either all that is repeatable was sent again, or the next stage due finds no room. */
    ghost predicate Jammed(v: Link, segs: seq<Segment>)
      reads `stageAck, `log, band
    {
      var all := Renewable(v.window, v.acked, |v.window|);
      Stages(segs) == all || (|segs| < |all| && TooLong(v, all[|segs|]))
    }

    /** Repeats message `k`; before the first one that is repeated, what waits in the packet is sent. */
    method RaiseOne(ghost v: Link, ghost out0: seq<Segment>, k: nat, at0: nat, header0: bool, stop0: bool)
      returns (stop: bool, full: bool, at: nat, header: bool, ghost f: nat)
      requires id > 0 && stage == |log| && log == v.log && stageAck == v.acked && band.Valid()
      requires Fits(id, signature, flowId, stageAck, log) && k < |messagesSent| && messagesSent[k].repeatable
      requires Between(v, id, closed, messagesSent, k, 0, at0, header0, out0, band.Output(), band.packet, stop0, false)
      requires !stop0 ==> band.owner == 0
      modifies band
      ensures band.Valid() && band.owner == 0 && !stop && (!full ==> f == 0)
      ensures band.sent == old(band.sent) + if !stop0 || old(band.packet) == [] then [] else [old(band.packet)]
      ensures full ==> f < |messagesSent[k].marks| && TooLong(v, at)
      ensures Between(v, id, closed, messagesSent, if full then k else k + 1, f, at, header, out0, band.Output(),
                      band.packet, false, full)
    {
      hide Between, Cursoring, RaisedOut, Fits, AllOrdered, Window, Place, Renewable, PacketSize;
      RaiseFrom(v, id, closed, messagesSent, k, at0, header0, out0, band.Output(), band.packet, stop0);
      stop := stop0;
      if stop {
        band.Flush();
        stop := false;
      }
      full, at, header, f := RaiseFragments(v, out0, k, at0, header0);
      RaiseTo(v, id, closed, messagesSent, k, f, at, header, out0, band.Output(), band.packet, full, stop0);
      if !full {
        f := 0;
      }
    }

    /** Sends what is outstanding and repeatable again, oldest first, as much as one packet takes, behind what was
        waiting; the trigger stops when there is nothing. */
    method RaiseMessage()
      requires Valid()
      modifies band, trigger
      ensures Valid() && View() == old(View())
      ensures old(band.Output()) <= band.Output()
      ensures RaiseStep(id, closed, View(), Since(band.Output(), |old(band.Output())|))
      ensures Jammed(View(), Since(band.Output(), |old(band.Output())|))
      ensures band.sent == old(band.sent) + if repeatable == 0 || old(band.packet) == [] then [] else [old(band.packet)]
      ensures trigger.Clocked() == old(trigger.Clocked())
      ensures trigger.running <==> old(trigger.running) && repeatable > 0
    {
      var stop := RaiseMessages(View(), band.Output());
      if stop {
        NoneRepeatable(messagesSent);
        trigger.Stop();
      }
    }
  }

  /** Some of the repeatable fragments were sent again, from the oldest on, and one at least if there is any. */
  ghost predicate RaisedAll(v: Link, id: nat, closed: bool, out0: seq<Segment>, out: seq<Segment>)
  {
    out0 <= out && RaiseStep(id, closed, v, Since(out, |out0|))
  }

  /** Between two messages: what was raised, and whether anything was. */
  ghost predicate Between(v: Link, id: nat, closed: bool, ms: seq<Message>, k: nat, f: nat, at: nat, header: bool,
                          out0: seq<Segment>, out: seq<Segment>, packet: seq<Chunk>, stop: bool, full: bool)
  {
    && Cursoring(v, ms, k, f, at) && RaisedOut(v, id, closed, out0, out, packet, Place(ms, k, f), at, header)
    && (stop <==> Renewable(v.window, v.acked, Place(ms, k, f)) == [])
    && (stop ==> header && !full && forall i :: 0 <= i < k ==> !ms[i].repeatable)
  }

  lemma RaiseStart(v: Link, id: nat, closed: bool, ms: seq<Message>, out: seq<Segment>, packet: seq<Chunk>)
    requires Cursoring(v, ms, 0, 0, v.acked + 1)
    ensures Between(v, id, closed, ms, 0, 0, v.acked + 1, true, out, out, packet, true, false)
  {
    assert Since(out, |out|) == [];
  }

  /** The cursor stands at a message to repeat; while nothing was, the packet may be sent first. */
  lemma RaiseFrom(v: Link, id: nat, closed: bool, ms: seq<Message>, k: nat, at: nat, header: bool,
                  out0: seq<Segment>, out: seq<Segment>, packet: seq<Chunk>, stop: bool)
    requires Between(v, id, closed, ms, k, 0, at, header, out0, out, packet, stop, false)
    ensures Cursoring(v, ms, k, 0, at) && AllOrdered(ms) && k <= |ms|
    ensures RaisedOut(v, id, closed, out0, out, packet, Place(ms, k, 0), at, header)
    ensures stop ==> header && RaisedOut(v, id, closed, out0, out, [], Place(ms, k, 0), at, header)
    ensures Place(ms, k, 0) <= |v.window| && (!stop ==> Renewable(v.window, v.acked, Place(ms, k, 0)) != [])
  {
    hide AllCarry, Consistent, Since, Stages, Renewable;
  }

  lemma RaiseTo(v: Link, id: nat, closed: bool, ms: seq<Message>, k: nat, f: nat, at: nat, header: bool,
                out0: seq<Segment>, out: seq<Segment>, packet: seq<Chunk>, full: bool, stop: bool)
    requires Cursoring(v, ms, k, f, at) && k < |ms| && ms[k].repeatable
    requires RaisedOut(v, id, closed, out0, out, packet, Place(ms, k, f), at, header)
    requires if full then f > 0 || !stop else f == |ms[k].marks| > 0
    requires !stop ==> Place(ms, k, 0) <= |v.window| && Renewable(v.window, v.acked, Place(ms, k, 0)) != []
    ensures full ==> Between(v, id, closed, ms, k, f, at, header, out0, out, packet, false, full)
    ensures !full ==> Between(v, id, closed, ms, k + 1, 0, at, header, out0, out, packet, false, full)
  {
    hide AllCarry, Consistent, Since, Stages, Renewable, Following;
    RaisedSoFar(v, ms, k, f, at);
    if !full {
      RaiseNext(v, id, closed, ms, k, f, at, header, out0, out, packet);
    }
  }

  lemma SkipOne(v: Link, id: nat, closed: bool, ms: seq<Message>, k: nat, at: nat, header: bool,
                out0: seq<Segment>, out: seq<Segment>, packet: seq<Chunk>, stop: bool)
    requires Between(v, id, closed, ms, k, 0, at, header, out0, out, packet, stop, false)
    requires k < |ms| && !ms[k].repeatable
    ensures Between(v, id, closed, ms, k + 1, 0, at + |ms[k].marks|, true, out0, out, packet, stop, false)
  {
    hide AllCarry, Consistent, Since, Stages;
    RaiseNext(v, id, closed, ms, k, 0, at, header, out0, out, packet);
  }

  lemma RaiseEnd(v: Link, id: nat, closed: bool, ms: seq<Message>, k: nat, f: nat, at: nat, header: bool,
                 out0: seq<Segment>, out: seq<Segment>, packet: seq<Chunk>, stop: bool, full: bool)
    requires Between(v, id, closed, ms, k, f, at, header, out0, out, packet, stop, full) && (k == |ms| || full)
    ensures RaisedAll(v, id, closed, out0, out)
    ensures stop ==> forall i :: 0 <= i < |ms| ==> !ms[i].repeatable
    ensures var all, segs := Renewable(v.window, v.acked, |v.window|), Since(out, |out0|);
            if full && k < |ms| && ms[k].repeatable && f < |ms[k].marks| then |segs| < |all| && all[|segs|] == at
            else k == |ms| ==> Stages(segs) == all
  {
    hide AllCarry, Consistent;
    RaisedSoFar(v, ms, k, f, at);
    if k < |ms| && f < |ms[k].marks| && ms[k].repeatable {
      CursorAt(v, ms, k, f, at);
      RenewablePrefix(v.window, v.acked, Place(ms, k, f) + 1, |v.window|);
    }
  }

  lemma {:induction false} SomeRepeatable(ms: seq<Message>, k: nat)
    requires k < |ms| && ms[k].repeatable
    ensures CountRepeatable(ms) > 0
    decreases k
  {
    if k == 0 {
    } else {
      SomeRepeatable(ms[1..], k - 1);
    }
  }

  lemma NoneRepeatable(ms: seq<Message>)
    requires forall i :: 0 <= i < |ms| ==> !ms[i].repeatable
    ensures CountRepeatable(ms) == 0
  {}

  /** The list of raised stages at the cursor against the one for the whole window. */
  lemma RaisedSoFar(v: Link, ms: seq<Message>, k: nat, f: nat, at: nat)
    requires Cursoring(v, ms, k, f, at)
    ensures Renewable(v.window, v.acked, Place(ms, k, f)) <= Renewable(v.window, v.acked, |v.window|)
    ensures k < |ms| && f > 0 && ms[k].repeatable ==> Renewable(v.window, v.acked, Place(ms, k, f)) != []
    ensures k < |ms| && f == 0 ==> Place(ms, k, f) == Place(ms, k, 0)
    ensures k == |ms| ==> Place(ms, k, f) == |v.window|
  {
    RenewablePrefix(v.window, v.acked, Place(ms, k, f), |v.window|);
    if k < |ms| && f > 0 {
      WindowAt(ms, k, f - 1);
    }
    assert ms[..|ms|] == ms;
  }

  /** Past the last entry of message `k`, or over it when it is not repeatable. */
  lemma RaiseNext(v: Link, id: nat, closed: bool, ms: seq<Message>, k: nat, f: nat, at: nat, header: bool,
                  out0: seq<Segment>, out: seq<Segment>, packet: seq<Chunk>)
    requires Cursoring(v, ms, k, f, at) && k < |ms|
    requires RaisedOut(v, id, closed, out0, out, packet, Place(ms, k, f), at, header)
    requires f == |ms[k].marks| || (f == 0 && !ms[k].repeatable)
    ensures var n := |ms[k].marks| - f;
            && Cursoring(v, ms, k + 1, 0, at + n)
            && RaisedOut(v, id, closed, out0, out, packet, Place(ms, k + 1, 0), at + n, header || f == 0)
            && Renewable(v.window, v.acked, Place(ms, k + 1, 0)) == Renewable(v.window, v.acked, Place(ms, k, f))
  {
    hide AllCarry, Consistent, Since, Stages, Ordered, Following, Window, AllOrdered, Place, Renewable;
    NextPlace(ms, k);
    if f < |ms[k].marks| {
      SkippedOver(v.window, v.acked, ms, k);
    }
  }

  lemma NextPlace(ms: seq<Message>, k: nat)
    requires Tidy(ms) && k < |ms|
    ensures AllOrdered(ms) && Place(ms, k + 1, 0) == Place(ms, k, |ms[k].marks|) == Place(ms, k, 0) + |ms[k].marks|
    ensures Place(ms, k, |ms[k].marks|) <= |Window(ms)| && (k > 0 ==> ms[k].marks != [])
  {
    NextMessage(ms, k);
    if ms[k].marks != [] {
      WindowAt(ms, k, |ms[k].marks| - 1);
    } else {
      WindowAppend(ms[..k], ms[k..]);
      assert ms == ms[..k] + ms[k..];
    }
  }

  /** Skipping a message that is not to be repeated raises nothing. */
  lemma SkippedOver(w: seq<Out>, acked: nat, ms: seq<Message>, k: nat)
    requires AllOrdered(ms) && w == Window(ms) && k < |ms| && !ms[k].repeatable
    requires Place(ms, k, |ms[k].marks|) <= |w|
    ensures Renewable(w, acked, Place(ms, k, |ms[k].marks|)) == Renewable(w, acked, Place(ms, k, 0))
    ensures ms[k].marks != [] ==> !w[Place(ms, k, |ms[k].marks|) - 1].repeatable
  {
    hide AllOrdered, Window, Place, Renewable;
    var n, p := |ms[k].marks|, Place(ms, k, 0);
    PlaceAfter(ms, k, n);
    forall i | p <= i < p + n ensures !w[i].repeatable {
      RepeatableAt(ms, k, i - p);
    }
    RenewableSkip(w, acked, p, n);
  }

  lemma PlaceAfter(ms: seq<Message>, k: nat, f: nat)
    requires AllOrdered(ms) && k < |ms|
    ensures Place(ms, k, f) == Place(ms, k, 0) + f
  {
  }

  lemma RepeatableAt(ms: seq<Message>, k: nat, f: nat)
    requires AllOrdered(ms) && k < |ms| && f < |ms[k].marks|
    ensures Place(ms, k, 0) + f < |Window(ms)| && Window(ms)[Place(ms, k, 0) + f].repeatable == ms[k].repeatable
  {
    WindowAt(ms, k, f);
  }

  /** The cursor over the messages sent is before stage `at`. */
  ghost predicate Cursoring(v: Link, ms: seq<Message>, k: nat, f: nat, at: nat)
  {
    && Consistent(v) && Tidy(ms) && v.window == Window(ms) && (ms != [] ==> ms[0].marks != [])
    && k <= |ms| && f <= (if k < |ms| then |ms[k].marks| else 0)
    && Place(ms, k, f) <= |v.window| && at == v.acked + 1 + Place(ms, k, f)
  }

  /** The repeatable ones among the first `p` outstanding fragments were all sent again. */
  ghost predicate RaisedOut(v: Link, id: nat, closed: bool, out0: seq<Segment>, out: seq<Segment>, packet: seq<Chunk>,
                            p: nat, at: nat, header: bool)
  {
    && p <= |v.window| && at > 0
    && out0 <= out && AllCarry(Since(out, |out0|), id, closed, v.log, v.acked)
    && Stages(Since(out, |out0|)) == Renewable(v.window, v.acked, p)
    && (!header ==> Following(packet, id, at - 1, v.acked))
    && (header <==> p == 0 || !v.window[p - 1].repeatable)
  }

  /** A raised stage goes out with a header unless the stage before it was raised too. */
  predicate NeedsHeader(v: Link, at: nat)
    requires v.acked < at <= v.acked + |v.window|
  {
    at == v.acked + 1 || !v.window[at - v.acked - 2].repeatable
  }

  lemma HeaderNeeded(v: Link, ms: seq<Message>, k: nat, f: nat, id: nat, closed: bool, out0: seq<Segment>,
                     out: seq<Segment>, packet: seq<Chunk>, at: nat, header: bool)
    requires Cursoring(v, ms, k, f, at) && k < |ms| && f < |ms[k].marks|
    requires RaisedOut(v, id, closed, out0, out, packet, Place(ms, k, f), at, header)
    ensures v.acked < at <= v.acked + |v.window| && (header <==> NeedsHeader(v, at))
  {
    hide AllCarry, Consistent, Since, Stages, Renewable, Window, Tidy, AllOrdered, Following;
    CursorAt(v, ms, k, f, at);
  }

  /** The fragment at the cursor. */
  lemma CursorAt(v: Link, ms: seq<Message>, k: nat, f: nat, at: nat)
    requires Cursoring(v, ms, k, f, at) && k < |ms|
    ensures AllOrdered(ms) && Ordered(ms[k]) && ms[k].marks != []
    ensures f < |ms[k].marks| ==>
              var p := Place(ms, k, f);
              && v.acked < at <= |v.log| && v.log[at - 1] == Slice(ms[k], f) && v.log[at - 1].payload != []
              && p < |v.window| && Cursoring(v, ms, k, f + 1, at + 1) && Place(ms, k, f + 1) == p + 1
              && Renewable(v.window, v.acked, p + 1)
                 == Renewable(v.window, v.acked, p) + if ms[k].repeatable then [at] else []
  {
    if f < |ms[k].marks| {
      WindowAt(ms, k, f);
      assert v.window[Place(ms, k, f)].frag == v.log[v.acked + Place(ms, k, f)];
      assert SensibleAt(v.log, at - 1);
    }
  }

  lemma {:induction false} RenewablePrefix(w: seq<Out>, acked: nat, p: nat, n: nat)
    requires p <= n <= |w|
    ensures Renewable(w, acked, p) <= Renewable(w, acked, n)
  {
    if p == n {
    } else {
      RenewablePrefix(w, acked, p, n - 1);
    }
  }

  lemma {:induction false} RenewableSkip(w: seq<Out>, acked: nat, p: nat, n: nat)
    requires p + n <= |w| && forall i :: p <= i < p + n ==> !w[i].repeatable
    ensures Renewable(w, acked, p + n) == Renewable(w, acked, p)
  {
    if n == 0 {
    } else {
      RenewableSkip(w, acked, p, n - 1);
    }
  }

  /** The stages of the repeatable fragments among the first `n` outstanding. */
  function Renewable(w: seq<Out>, acked: nat, n: nat): seq<nat>
    requires n <= |w|
  {
    if n == 0 then [] else Renewable(w, acked, n - 1) + if w[n - 1].repeatable then [acked + n] else []
  }

  /** The first `k` queued messages have been sent. */
  ghost predicate FlushedSome(id: nat, closed: bool, v: Link, v': Link, k: nat, out: seq<Segment>, out': seq<Segment>)
  {
    && k <= |v.pending| && v' == Link(v'.log, v.acked, v'.window, v.history + Contents(v.pending)[..k], v.pending[k..])
    && v.log <= v'.log && v.window <= v'.window && NewlyDated(v, v')
    && (AllRepeatable(v.window) && (forall i :: 0 <= i < |v.pending| ==> v.pending[i].repeatable) ==>
          AllRepeatable(v'.window))
    && out <= out' && AllCarry(Since(out', |out|), id, closed, v'.log, v'.acked)
    && Numbered(Since(out', |out|), |v.log| + 1) && |out'| - |out| == |v'.log| - |v.log|
  }

  lemma FlushStart(v: Link, out: seq<Segment>, id: nat, closed: bool)
    ensures FlushedSome(id, closed, v, v, 0, out, out)
  {
    assert v.pending[0..] == v.pending && v.history + Contents(v.pending)[..0] == v.history;
  }

  lemma CarryOn(id: nat, closed: bool, log: seq<Fragment>, log': seq<Fragment>, acked: nat, first: nat,
                out: seq<Segment>, out1: seq<Segment>, out2: seq<Segment>)
    requires out <= out1 <= out2 && log <= log'
    requires AllCarry(Since(out1, |out|), id, closed, log, acked)
    requires AllCarry(Since(out2, |out1|), id, closed, log', acked)
    requires Numbered(Since(out1, |out|), first) && Numbered(Since(out2, |out1|), first + |out1| - |out|)
    ensures AllCarry(Since(out2, |out|), id, closed, log', acked) && Numbered(Since(out2, |out|), first)
  {
    var a, b, c := Since(out1, |out|), Since(out2, |out1|), Since(out2, |out|);
    assert c == a + b;
    forall i | 0 <= i < |c| ensures Carries(c[i], id, closed, log', acked) && c[i].stage == first + i {
      if i < |a| {
        assert Carries(a[i], id, closed, log, acked);
      } else {
        assert c[i] == b[i - |a|];
      }
    }
  }

  lemma SentMore(id: nat, closed: bool, v: Link, v1: Link, v2: Link, k: nat, out: seq<Segment>, out1: seq<Segment>,
                 out2: seq<Segment>)
    requires FlushedSome(id, closed, v, v1, k, out, out1) && SentOne(id, closed, v1, v2, out1, out2)
    ensures FlushedSome(id, closed, v, v2, k + 1, out, out2)
    ensures k < |v.pending| && v2.acked == v.acked && v2.pending == v.pending[k + 1..]
  {
    hide AllCarry, Numbered, Since;
    CarryOn(id, closed, v1.log, v2.log, v.acked, |v.log| + 1, out, out1, out2);
    assert v1.pending[0] == v.pending[k] && v1.pending[1..] == v.pending[k + 1..];
    assert Contents(v.pending)[..k + 1] == Contents(v.pending)[..k] + [v.pending[k].bytes];
    assert v2.history == v.history + Contents(v.pending)[..k + 1];
  }

  lemma FlushEnd(id: nat, closed: bool, v: Link, v': Link, k: nat, out: seq<Segment>, out': seq<Segment>)
    requires FlushedSome(id, closed, v, v', k, out, out') && v'.pending == [] && |v'.log| == v'.acked + |v'.window|
    ensures Flushed(v, v', Since(out', |out|)) && out <= out'
    ensures AllCarry(Since(out', |out|), id, closed, v'.log, v'.acked)
  {
    assert Contents(v.pending)[..k] == Contents(v.pending);
  }

  /** What sending one message does to the sender and to the output. */
  ghost predicate SentOne(id: nat, closed: bool, v: Link, v': Link, out: seq<Segment>, out': seq<Segment>)
  {
    && v.pending != [] && v' == Link(v'.log, v.acked, v'.window, v.history + [v.pending[0].bytes], v.pending[1..])
    && v.log <= v'.log && v.window <= v'.window && NewlyDated(v, v')
    && (forall i :: |v.window| <= i < |v'.window| ==> v'.window[i].repeatable == v.pending[0].repeatable)
    && out <= out' && AllCarry(Since(out', |out|), id, closed, v'.log, v'.acked)
    && Numbered(Since(out', |out|), |v.log| + 1) && |out'| - |out| == |v'.log| - |v.log|
  }

  /** The sender with one more message sent. */
  ghost function WithMessage(v: Link, m: Message, log: seq<Fragment>): Link
    requires Ordered(m) && v.pending != []
  {
    Link(log, v.acked, v.window + Outs(m), v.history + [m.bytes], v.pending[1..])
  }

  lemma ItemsTail(ms: seq<Message>)
    requires ms != []
    ensures Queued(ms) ==> 0 < |ms[0].bytes| <= LONGEST && ms[0].marks == [] && Queued(ms[1..])
    ensures Items(ms)[0] == Item(ms[0].bytes, ms[0].repeatable) && Items(ms[1..]) == Items(ms)[1..]
  {}

  lemma NewMessage(v: Link, ms: seq<Message>, m: Message, log: seq<Fragment>, id: nat, closed: bool, out: seq<Segment>,
                   out': seq<Segment>)
    requires Consistent(v) && Tidy(ms) && v.window == Window(ms) && v.pending != []
    requires m.bytes == v.pending[0].bytes != [] && m.repeatable == v.pending[0].repeatable
    requires SlicedOut(m, |m.bytes|, v.log, log, id, closed, v.acked, out, out')
    ensures Ordered(m) && m.marks != [] && Tidy(ms + [m]) && AllOrdered(ms + [m])
    ensures Window(ms + [m]) == v.window + Outs(m)
    ensures Consistent(WithMessage(v, m, log)) && SentOne(id, closed, v, WithMessage(v, m, log), out, out')
  {
    CutDone(m, v.log, log);
    TidyAppend(ms, m);
    MoreSent(v, m, log, id, closed, out, out');
    hide *;
    MoreConsistent(v, ms, m, log);
  }

  lemma TidyOrdered(ms: seq<Message>)
    requires Tidy(ms)
    ensures AllOrdered(ms)
  {
  }

  lemma TidyAppend(ms: seq<Message>, m: Message)
    requires Tidy(ms) && Ordered(m) && m.marks != [] && m.marks[0].offset == 0
    ensures Tidy(ms + [m]) && AllOrdered(ms) && AllOrdered(ms + [m])
  {
  }

  lemma MoreSent(v: Link, m: Message, log: seq<Fragment>, id: nat, closed: bool, out: seq<Segment>, out': seq<Segment>)
    requires Ordered(m) && v.pending != [] && log == v.log + Slices(m)
    requires m.bytes == v.pending[0].bytes && m.repeatable == v.pending[0].repeatable
    requires SlicedOut(m, |m.bytes|, v.log, log, id, closed, v.acked, out, out') && |v.log| == v.acked + |v.window|
    ensures SentOne(id, closed, v, WithMessage(v, m, log), out, out')
  {
    MarksDated(m, v.log, log);
    hide Cutting, AllCarry, Since, Numbered, Slices, Ordered;
  }

  lemma MarksDated(m: Message, log0: seq<Fragment>, log: seq<Fragment>)
    requires Cutting(m, |m.bytes|, log0, log)
    ensures forall i :: 0 <= i < |m.marks| ==> m.marks[i].sentAt == |log0| + i + 1
  {
    hide CutAt;
  }

  lemma MoreConsistent(v: Link, ms: seq<Message>, m: Message, log: seq<Fragment>)
    requires Consistent(v) && AllOrdered(ms) && v.window == Window(ms) && v.pending != []
    requires Ordered(m) && m.marks != [] && m.marks[0].offset == 0 && log == v.log + Slices(m)
    requires m.bytes == v.pending[0].bytes
    ensures Consistent(WithMessage(v, m, log)) && Window(ms + [m]) == v.window + Outs(m)
  {
    hide Ordered, Slice, Slices, Outs, Sensible, Assemble, Window, AllOrdered, Outstanding;
    WindowOne(ms, m);
    CutThenReassemble(v.log, m);
    MoreOutstanding(v.window, v.log, v.acked, m);
  }

  lemma WindowOne(ms: seq<Message>, m: Message)
    requires AllOrdered(ms) && Ordered(m)
    ensures AllOrdered(ms + [m]) && Window(ms + [m]) == Window(ms) + Outs(m)
  {
    WindowAppend(ms, [m]);
    assert Window([m]) == Outs(m) + Window([]);
  }

  lemma MoreOutstanding(w: seq<Out>, log: seq<Fragment>, acked: nat, m: Message)
    requires Ordered(m) && |log| == acked + |w| && Outstanding(w, log, acked)
    ensures |log + Slices(m)| == acked + |w + Outs(m)| && Outstanding(w + Outs(m), log + Slices(m), acked)
  {
    var outs, slices := Outs(m), Slices(m);
    assert forall i :: 0 <= i < |outs| ==> outs[i].frag == slices[i];
    hide Slice, Ordered, Outs, Slices;
  }

  /** One more segment on the output. */
  lemma OutputGrows(out0: seq<Segment>, out: seq<Segment>, out': seq<Segment>, id: nat, closed: bool,
                   log: seq<Fragment>, acked: nat, at: nat)
    requires out0 <= out && 1 <= at <= |log| && Laid(out, out', id, closed, at, acked, log[at - 1])
    requires AllCarry(Since(out, |out0|), id, closed, log, acked)
    ensures out0 <= out' && AllCarry(Since(out', |out0|), id, closed, log, acked)
    ensures Stages(Since(out', |out0|)) == Stages(Since(out, |out0|)) + [at]
  {
    hide AllCarry, Since, Stages;
    var before, g := Since(out, |out0|), out'[|out|];
    SinceMore(out0, out, out', g);
    CarryOne(before, g, id, closed, log, acked);
    StagesMore(before, g);
  }

  lemma SinceMore(out0: seq<Segment>, out: seq<Segment>, out': seq<Segment>, g: Segment)
    requires out0 <= out && |out'| == |out| + 1 && out'[..|out|] == out && out'[|out|] == g
    ensures out0 <= out' && Since(out', |out0|) == Since(out, |out0|) + [g]
  {
  }

  lemma StagesMore(segs: seq<Segment>, g: Segment)
    ensures Stages(segs + [g]) == Stages(segs) + [g.stage]
  {
  }

  lemma CarryAcked(segs: seq<Segment>, id: nat, closed: bool, log: seq<Fragment>, acked: nat, to: nat)
    requires AllCarry(segs, id, closed, log, acked) && acked <= to
    ensures AllCarry(segs, id, closed, log, to)
  {
  }

  lemma CarryOne(segs: seq<Segment>, g: Segment, id: nat, closed: bool, log: seq<Fragment>, acked: nat)
    requires AllCarry(segs, id, closed, log, acked) && Carries(g, id, closed, log, acked)
    ensures AllCarry(segs + [g], id, closed, log, acked)
  {
    hide Carries;
  }

  lemma NothingYet(out: seq<Segment>, id: nat, closed: bool, log: seq<Fragment>, acked: nat, first: nat)
    ensures AllCarry(Since(out, |out|), id, closed, log, acked) && Numbered(Since(out, |out|), first)
  {}

  /** One more segment for one more stage. */
  lemma OutputExtends(out0: seq<Segment>, out: seq<Segment>, out': seq<Segment>, id: nat, closed: bool,
                      log: seq<Fragment>, f: Fragment, acked: nat, first: nat)
    requires out0 <= out && Laid(out, out', id, closed, |log| + 1, acked, f) && |log| + 1 == first + |out| - |out0|
    requires AllCarry(Since(out, |out0|), id, closed, log, acked) && Numbered(Since(out, |out0|), first)
    ensures out0 <= out' && AllCarry(Since(out', |out0|), id, closed, log + [f], acked)
    ensures Numbered(Since(out', |out0|), first) && |out'| == |out| + 1
  {
    assert Since(out', |out0|) == Since(out, |out0|) + [out'[|out|]];
  }

  /** Message `m` is cut up to `o`; its fragments so far are logged and on the output. */
  ghost predicate SlicedOut(m: Message, o: nat, log0: seq<Fragment>, log: seq<Fragment>, id: nat, closed: bool,
                            acked: nat, out0: seq<Segment>, out: seq<Segment>)
  {
    && Cutting(m, o, log0, log)
    && out0 <= out && AllCarry(Since(out, |out0|), id, closed, log, acked)
    && Numbered(Since(out, |out0|), |log0| + 1) && |out| - |out0| == |log| - |log0|
  }

  lemma SliceStart(m: Message, log: seq<Fragment>, id: nat, closed: bool, acked: nat, out: seq<Segment>)
    requires m.marks == []
    ensures SlicedOut(m, 0, log, log, id, closed, acked, out, out)
  {
    CutStart(m, log);
    NothingYet(out, id, closed, log, acked, |log| + 1);
  }

  lemma SliceOut(m: Message, o: nat, n: nat, log0: seq<Fragment>, log: seq<Fragment>, id: nat, closed: bool, acked: nat,
                 out0: seq<Segment>, out: seq<Segment>, out': seq<Segment>)
    requires SlicedOut(m, o, log0, log, id, closed, acked, out0, out) && 0 < n && o + n <= |m.bytes|
    requires Laid(out, out', id, closed, |log| + 1, acked, Fragment(m.bytes[o..o + n], o > 0, o + n < |m.bytes|))
    ensures var f := Fragment(m.bytes[o..o + n], o > 0, o + n < |m.bytes|);
            SlicedOut(m.(marks := m.marks + [Mark(o, |log| + 1)]), o + n, log0, log + [f], id, closed, acked, out0,
                      out')
  {
    CutMore(m, o, log0, log, n);
    hide Cutting, AllCarry, Numbered, Since, Laid;
    var f := Fragment(m.bytes[o..o + n], o > 0, o + n < |m.bytes|);
    OutputExtends(out0, out, out', id, closed, log, f, acked, |log0| + 1);
  }

  lemma AlignedTidy(ms: seq<Message>, k: nat, f: nat, w0: seq<Out>, gone: nat)
    requires Aligned(ms, k, f, w0, gone)
    ensures Tidy(ms) && AllOrdered(ms)
  {
  }

  lemma PlaceFirst(ms: seq<Message>)
    requires AllOrdered(ms)
    ensures Place(ms, 0, 0) == 0
  {
  }

  /** An entry dated anew: everything keeps its place. */
  lemma Redated(ms: seq<Message>, k: nat, f: nat, w0: seq<Out>, gone: nat, date: nat)
    requires Aligned(ms, k, f, w0, gone) && k < |ms| && f < |ms[k].marks|
    ensures var ns := ms[k := Dated(ms[k], f, date)];
            && Aligned(ns, k, f + 1, w0, gone) && AllOrdered(ms) && AllOrdered(ns)
            && Place(ns, k, f + 1) == Place(ms, k, f) + 1 && CountRepeatable(ns) == CountRepeatable(ms)
            && |ns| == |ms| && |ns[k].marks| == |ms[k].marks|
  {
    hide Remains, CountRepeatable, Window, Ordered;
    AlignedDate(ms, k, f, w0, gone, date);
    CountUpdate(ms, k, Dated(ms[k], f, date));
  }

  /** And the fragment behind it counts as passed and repeated. */
  lemma PassedRedated(a: Ack, top: nat, limit: nat, base: nat, acked: nat, ms: seq<Message>, k: nat, f: nat,
                      w0: seq<Out>, gone: nat, stages: seq<nat>)
    requires Aligned(ms, k, f, w0, gone) && k < |ms| && f < |ms[k].marks|
    requires Passed(a, top, limit, w0, base, acked, gone, Window(ms), Place(ms, k, f), stages)
    requires Place(ms, k, f) == 0 ==> gone < |w0| && !Releasable(a, limit, base + gone + 1, w0[gone])
    requires var p := gone + Place(ms, k, f); p < |w0| ==> Resent(a, top, limit, base + p + 1, w0[p])
    ensures var ns := ms[k := Dated(ms[k], f, limit)];
            AllOrdered(ns) && Passed(a, top, limit, w0, base, acked, gone, Window(ns), Place(ns, k, f + 1),
                                     stages + [base + gone + Place(ms, k, f) + 1])
  {
    hide Aligned, Passed, Resent, Releasable, Window, Ordered, AllOrdered, Outs, Place, Dated;
    AlignedTidy(ms, k, f, w0, gone);
    AlignedPlace(ms, k, f, w0, gone);
    AlignedDate(ms, k, f, w0, gone, limit);
    AlignedTidy(ms[k := Dated(ms[k], f, limit)], k, f + 1, w0, gone);
    var ns, p := ms[k := Dated(ms[k], f, limit)], Place(ms, k, f);
    PassedKeep(a, top, limit, w0, base, acked, gone, Window(ms), Window(ns), p, stages);
  }

  lemma OrderedAt(ms: seq<Message>, k: nat)
    requires AllOrdered(ms) && k < |ms|
    ensures Ordered(ms[k])
  {
  }

  /** An outstanding fragment is the one logged for its stage, and not empty. */
  lemma LoggedAt(v: Link, i: nat)
    requires Consistent(v) && i < |v.window|
    ensures v.acked + i < |v.log| && v.window[i].frag == v.log[v.acked + i] && v.log[v.acked + i].payload != []
  {
    assert SensibleAt(v.log, v.acked + i);
  }

  lemma CountFirst(ms: seq<Message>)
    requires ms != []
    ensures CountRepeatable(ms[1..]) == CountRepeatable(ms) - if ms[0].repeatable then 1 else 0
  {
  }

  lemma OnlyFirstEmpty(ms: seq<Message>, k: nat, w0: seq<Out>, gone: nat)
    requires Aligned(ms, k, 0, w0, gone) && k < |ms| && ms[k].marks == []
    ensures k == 0 && AllOrdered(ms) && AllOrdered(ms[1..]) && Place(ms, 0, 0) == 0 && Place(ms[1..], 0, 0) == 0
  {
  }

  lemma FirstPlace(ms: seq<Message>, k: nat, f: nat)
    requires Tidy(ms) && k <= |ms| && (k > 0 ==> ms[0].marks != [])
    ensures Place(ms, k, f) == 0 ==> k == 0 && f == 0
  {
    if k > 0 {
      assert ms[..k][0] == ms[0];
      assert |Outs(ms[0])| == |ms[0].marks|;
    }
  }
}
