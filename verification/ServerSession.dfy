/** The chunk loop of a session, seen by one of its flows. */
module Sessions {
  import opened Codec
  import opened Wire
  import opened Acks
  import opened Receiver
  import opened Flows

  /** The fragments of one flow among those of a packet. */
  function OfFlow(segs: seq<Segment>, id: nat): seq<Segment>
  {
    if segs == [] then []
    else OfFlow(segs[..|segs| - 1], id) + if segs[|segs| - 1].flow == id then [segs[|segs| - 1]] else []
  }

  lemma OfFlowMore(segs: seq<Segment>, g: Segment, id: nat)
    ensures OfFlow(segs + [g], id) == OfFlow(segs, id) + if g.flow == id then [g] else []
  {
    assert (segs + [g])[..|segs|] == segs;
  }

  lemma ReceiveMore(r: Rcv, segs: seq<Segment>, g: Segment)
    ensures ReceiveAll(r, segs + [g]) == Receive(ReceiveAll(r, segs), g.stage, g.delta, Piece(g.flags, g.payload))
  {
    assert (segs + [g])[..|segs|] == segs;
  }

  /** One chunk more has reached the flow. */
  lemma OneChunk(r: Rcv, done: seq<Chunk>, c: Chunk, id: nat)
    ensures var before, to := ReceiveAll(r, OfFlow(Segments(done), id)), Advance(CursorOf(done), c);
            ReceiveAll(r, OfFlow(Segments(done + [c]), id))
            == if to.At? && to.flow == id then Receive(before, to.stage, to.delta, Piece(c.flags, c.payload))
               else before
  {
    hide ReceiveAll, OfFlow;
    AppendChunk(done, c);
    var to := Advance(CursorOf(done), c);
    if to.At? {
      var g := Segment(to.flow, to.stage, to.delta, c.flags, c.payload);
      OfFlowMore(Segments(done), g, id);
      ReceiveMore(r, OfFlow(Segments(done), id), g);
      assert OfFlow(Segments(done), id) + [] == OfFlow(Segments(done), id);
    } else {
      assert Segments(done) + [] == Segments(done);
    }
  }

  /** Whether the loop is at the flow, and at which stage and delta. */
  ghost predicate Agrees(at: Cursor, id: nat, current: bool, stage: int, delta: int)
  {
    (current <==> at.At? && at.flow == id) && (current ==> at.stage == stage && at.delta == delta)
  }

  /** Chunk `i` brings the flow a fragment. */
  predicate Reaches(p: seq<Chunk>, id: nat, i: nat)
    requires i < |p|
  {
    var at := CursorOf(p[..i + 1]);
    at.At? && at.flow == id
  }

  /** Chunk `i` is the last of a run of fragments of flow `id`. */
  predicate EndsRun(p: seq<Chunk>, id: nat, i: nat)
    requires i < |p|
  {
    Reaches(p, id, i) && (i + 1 == |p| || !p[i + 1].Next?)
  }

  /** Where the runs of flow `id` among the first `n` chunks end. */
  function RunEnds(p: seq<Chunk>, id: nat, n: nat): (ends: seq<nat>)
    requires n <= |p|
    ensures forall j :: 0 <= j < |ends| ==> ends[j] < n
  {
    if n == 0 then [] else RunEnds(p, id, n - 1) + if EndsRun(p, id, n - 1) then [n - 1] else []
  }

  lemma ReachesNext(p: seq<Chunk>, id: nat, i: nat)
    requires i + 1 < |p| && p[i + 1].Next?
    ensures Reaches(p, id, i + 1) <==> Reaches(p, id, i)
  {
    assert p[..i + 2][..i + 1] == p[..i + 1];
  }

  lemma {:induction false} RunEndsHas(p: seq<Chunk>, id: nat, n: nat, j: nat)
    requires n <= |p|
    ensures j in RunEnds(p, id, n) <==> j < n && EndsRun(p, id, j)
    ensures forall a, b :: 0 <= a < b < |RunEnds(p, id, n)| ==> RunEnds(p, id, n)[a] < RunEnds(p, id, n)[b]
  {
    hide EndsRun;
    if n == 0 {
    } else {
      RunEndsHas(p, id, n - 1, j);
    }
  }

  /** Every fragment of the flow is answered behind the last of those that follow it without a break, at chunk `j`,
      and there is no answer in between. */
  lemma {:induction false} FragmentAnswered(p: seq<Chunk>, id: nat, i: nat) returns (j: nat)
    requires i < |p| && Reaches(p, id, i)
    ensures i <= j < |p| && j in RunEnds(p, id, |p|)
    ensures forall k :: i < k <= j ==> p[k].Next? && Reaches(p, id, k)
    ensures forall k :: i <= k < j ==> k !in RunEnds(p, id, |p|)
    decreases |p| - i
  {
    if i + 1 == |p| || !p[i + 1].Next? {
      j := i;
      RunEndsHas(p, id, |p|, i);
    } else {
      ReachesNext(p, id, i);
      j := FragmentAnswered(p, id, i + 1);
      RunEndsHas(p, id, |p|, i);
    }
  }

  /** And every answer comes behind a fragment of the flow. */
  lemma AnswersFragment(p: seq<Chunk>, id: nat, j: nat)
    requires j in RunEnds(p, id, |p|)
    ensures j < |p| && Reaches(p, id, j)
  {
    RunEndsHas(p, id, |p|, j);
  }

  /** The flow after chunk `i`. */
  function StateAfter(r: Rcv, p: seq<Chunk>, id: nat, i: nat): Rcv
    requires i < |p|
  {
    ReceiveAll(r, OfFlow(Segments(p[..i + 1]), id))
  }

  /** The bytes acknowledge a flow in state `r`, as `a`. */
  ghost predicate Answers(bytes: seq<byte>, id: nat, mute: bool, r: Rcv, a: Ack)
  {
    && bytes == Encode7(id) + AckBytes(a)
    && TellsRoom(a.room, mute, r)
    && a.stage == r.stage && Describes(a.pairs, r.stage, r.buffer.Keys)
  }

  /** And so they are read: the flow's id comes first, and what follows it is no refusal as long as the message
      under way has fewer than 0x3F00 fragments. Below the codec limit the whole acknowledgment is read back. */
  lemma AnswerIsRead(bytes: seq<byte>, id: nat, mute: bool, r: Rcv, a: Ack, pad: byte)
    requires Answers(bytes, id, mute, r, a) && id < LIMIT
    ensures var (flow, rest) := Decode7(bytes, pad);
            && flow == id
            && TellsRoom(ParseAck(rest, pad).room, mute, r)
            && (r.stage < LIMIT && (forall k :: k in r.buffer ==> k < LIMIT) ==> ParseAck(rest, pad) == a)
  {
    hide Encode7, Decode7, Describes, ParsePairs, Flatten, EncodeAll;
    DecodeEncode(id, AckBytes(a), pad);
    RoomIsRead(a, pad);
    if r.stage < LIMIT && (forall k :: k in r.buffer ==> k < LIMIT) {
      DescribedSmall(a.pairs, a.stage, r.buffer.Keys);
      AckRoundTrip(a, pad);
    }
  }

  lemma RoomIsRead(a: Ack, pad: byte)
    requires a.room < LIMIT
    ensures ParseAck(AckBytes(a), pad).room == a.room
  {
    hide Encode7, Decode7;
    TwoValues(a.room, a.stage, Flatten(a.pairs));
    DecodeEncode(a.room, Encode7(a.stage) + EncodeAll(Flatten(a.pairs)), pad);
  }

  ghost predicate AllAnswered(acks: seq<seq<byte>>, answers: seq<Ack>, id: nat, mute: bool, r: Rcv, p: seq<Chunk>,
                              n: nat)
    requires n <= |p|
  {
    && |acks| == |answers| == |RunEnds(p, id, n)|
    && forall j :: 0 <= j < |acks| ==>
         Answers(acks[j], id, mute, StateAfter(r, p, id, RunEnds(p, id, n)[j]), answers[j])
  }

  lemma AnswerOne(acks: seq<seq<byte>>, answers: seq<Ack>, id: nat, mute: bool, r: Rcv, p: seq<Chunk>, n: nat,
                  ack: seq<byte>, a: Ack)
    requires n < |p| && AllAnswered(acks, answers, id, mute, r, p, n)
    requires EndsRun(p, id, n) && Answers(ack, id, mute, StateAfter(r, p, id, n), a)
    ensures AllAnswered(acks + [ack], answers + [a], id, mute, r, p, n + 1)
  {
    hide Answers, StateAfter, EndsRun;
  }

  lemma AnswerNone(acks: seq<seq<byte>>, answers: seq<Ack>, id: nat, mute: bool, r: Rcv, p: seq<Chunk>, n: nat)
    requires n < |p| && AllAnswered(acks, answers, id, mute, r, p, n) && !EndsRun(p, id, n)
    ensures AllAnswered(acks, answers, id, mute, r, p, n + 1)
  {
    hide Answers, StateAfter, EndsRun;
  }

  /** Takes the packet apart chunk by chunk. Each fragment of the flow reaches it with the stage and
      the delta its sender meant, and each run of fragments is answered by an acknowledgment of the
      state the flow is in after it. */
  method PacketHandler(packet: seq<byte>, pad: byte, flow: Flow) returns (acks: seq<seq<byte>>, ghost answers: seq<Ack>)
    requires flow.Valid()
    modifies flow
    ensures flow.Valid()
    ensures var p := Parse(packet, pad);
            && flow.State() == ReceiveAll(old(flow.State()), OfFlow(Segments(p), flow.id))
            && AllAnswered(acks, answers, flow.id, flow.mute, old(flow.State()), p, |p|)
  {
    hide ReceiveAll, OfFlow, Segments, ParseBody, Receive, Parse, Drop, Take, Tail, ReadWord, Advance, CursorOf,
         EndsRun, Answers, AllAnswered;
    acks, answers := [], [];
    var pFlow, stage, deltaNAck := false, 0, 0;
    var rest := packet;
    ghost var r0, p, done: seq<Chunk> := flow.State(), Parse(packet, pad), [];
    StartEmpty(r0, flow.id, flow.mute, p);
    ParseEnd(rest, pad);
    while rest != [] && rest[0] != 0xFF
      invariant flow.Valid() && p == done + Parse(rest, pad)
      invariant flow.State() == ReceiveAll(r0, OfFlow(Segments(done), flow.id))
      invariant if pFlow then Agrees(CursorOf(done), flow.id, pFlow, stage, deltaNAck)
                else CursorOf(done).At? && CursorOf(done).flow == flow.id ==> rest == [] || rest[0] != 0x11
      invariant AllAnswered(acks, answers, flow.id, flow.mute, r0, p, |done|)
      decreases |rest|
    {
      var size, s1 := ReadWord(Tail(rest), pad), Drop(Tail(rest), 2);
      var c := ParseBody(rest[0], Take(s1, size), pad);
      ParseStep(done, rest, pad);
      OneChunk(r0, done, c, flow.id);
      pFlow, stage, deltaNAck := HandleChunk(c, flow, pFlow, stage, deltaNAck, CursorOf(done));
      rest := Drop(s1, size);
      RunEndsHere(p, done, c, rest, pad, flow.id);
      if pFlow && (rest == [] || rest[0] != 0x11) {
        var ack;
        ghost var a;
        ack, a := Reply(flow);
        AnswerOne(acks, answers, flow.id, flow.mute, r0, p, |done|, ack, a);
        acks, answers := acks + [ack], answers + [a];
        pFlow := false;
      } else {
        AnswerNone(acks, answers, flow.id, flow.mute, r0, p, |done|);
      }
      done := done + [c];
    }
    ParseEnd(rest, pad);
    assert done + [] == done;
  }

  /** Whether a run ends is seen from the byte that follows. */
  lemma RunEndsHere(p: seq<Chunk>, done: seq<Chunk>, c: Chunk, rest: seq<byte>, pad: byte, id: nat)
    requires p == (done + [c]) + Parse(rest, pad)
    ensures |done| < |p| && p[..|done| + 1] == done + [c]
    ensures var at := CursorOf(done + [c]);
            EndsRun(p, id, |done|) <==> at.At? && at.flow == id && (rest == [] || rest[0] != 0x11)
  {
    assert p[..|done| + 1] == done + [c];
    if rest != [] && rest[0] != 0xFF {
      NotNext(rest[0], Take(Drop(Tail(rest), 2), ReadWord(Tail(rest), pad)), pad);
      ParseUnfold(rest, pad);
    }
    hide ParseBody, CursorOf;
  }

  /** Acknowledges what the flow received. */
  method Reply(flow: Flow) returns (ack: seq<byte>, ghost a: Ack)
    requires flow.Valid()
    ensures Answers(ack, flow.id, flow.mute, flow.State(), a)
  {
    var length;
    ack, length, a := flow.Commit();
  }

  lemma ParseEnd(rest: seq<byte>, pad: byte)
    ensures [] + Parse(rest, pad) == Parse(rest, pad)
    ensures rest == [] || rest[0] == 0xFF ==> Parse(rest, pad) == []
  {}

  lemma ParseStep(done: seq<Chunk>, rest: seq<byte>, pad: byte)
    requires rest != [] && rest[0] != 0xFF
    ensures var size, s1 := ReadWord(Tail(rest), pad), Drop(Tail(rest), 2);
            var c := ParseBody(rest[0], Take(s1, size), pad);
            && (c.Next? <==> rest[0] == 0x11)
            && |Drop(s1, size)| < |rest|
            && done + Parse(rest, pad) == (done + [c]) + Parse(Drop(s1, size), pad)
            && CursorOf(done + [c]) == Advance(CursorOf(done), c)
  {
    var size, s1 := ReadWord(Tail(rest), pad), Drop(Tail(rest), 2);
    var c := ParseBody(rest[0], Take(s1, size), pad);
    NotNext(rest[0], Take(s1, size), pad);
    AppendChunk(done, c);
    ParseUnfold(rest, pad);
    hide ParseBody, ReadWord, Take, Parse, Advance, CursorOf;
    InFront(done, c, Parse(Drop(s1, size), pad));
  }

  lemma ParseUnfold(rest: seq<byte>, pad: byte)
    requires rest != [] && rest[0] != 0xFF
    ensures var size, s1 := ReadWord(Tail(rest), pad), Drop(Tail(rest), 2);
            Parse(rest, pad) == [ParseBody(rest[0], Take(s1, size), pad)] + Parse(Drop(s1, size), pad)
  {
    hide ParseBody, ReadWord, Take;
  }

  lemma InFront(done: seq<Chunk>, c: Chunk, rest: seq<Chunk>)
    ensures done + ([c] + rest) == (done + [c]) + rest
  {}

  lemma StartEmpty(r: Rcv, id: nat, mute: bool, p: seq<Chunk>)
    ensures ReceiveAll(r, OfFlow(Segments([]), id)) == r && CursorOf([]).Nowhere?
    ensures AllAnswered([], [], id, mute, r, p, 0)
  {}

  /** A chunk of any other type does not carry on with the flow. */
  lemma NotNext(kind: byte, s: seq<byte>, pad: byte)
    ensures ParseBody(kind, s, pad).Next? <==> kind == 0x11
  {}

  /** One chunk: 0x10 selects a flow, a stage and a delta, 0x11 counts both up. */
  method HandleChunk(c: Chunk, flow: Flow, pFlow0: bool, stage0: int, delta0: int, ghost at: Cursor)
    returns (pFlow: bool, stage: int, deltaNAck: int)
    requires flow.Valid() && (pFlow0 || c.Next? ==> Agrees(at, flow.id, pFlow0, stage0, delta0))
    modifies flow
    ensures flow.Valid() && Agrees(Advance(at, c), flow.id, pFlow, stage, deltaNAck)
    ensures var to := Advance(at, c);
            flow.State() == if to.At? && to.flow == flow.id
                            then Receive(old(flow.State()), to.stage, to.delta, Piece(c.flags, c.payload))
                            else old(flow.State())
  {
    hide Receive;
    pFlow, stage, deltaNAck := pFlow0, stage0, delta0;
    if c.Other? {
      pFlow := false;
      return;
    }
    if c.Data? {
      stage := c.stage - 1;
      deltaNAck := c.delta - 1;
      pFlow := c.flow == flow.id;
    }
    stage := stage + 1;
    deltaNAck := deltaNAck + 1;
    if pFlow {
      flow.FragmentHandler(stage, deltaNAck, Piece(c.flags, c.payload));
    }
  }
}
