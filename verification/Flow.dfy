/** The receiving end of a flow as the session drives it. */
module Flows {
  import opened Codec
  import opened Wire
  import opened Acks
  import opened Receiver

  /** Handing in a piece does not look at the buffer, but the end of the flow empties it. */
  lemma SortedBuffer(r: Rcv, b: map<nat, Piece>, s: nat, p: Piece)
    requires !r.completed
    ensures var r1 := Sorted(r, s, p);
            Sorted(r.(buffer := b), s, p) == if r1.completed then r1 else r1.(buffer := b)
  {
    hide Content;
    ContentBuffer(Arrived(r, s, p), b, p);
    var r1 := Arrived(r, s, p).(partial := None, discarded := r.discarded + Held(r));
    if s > r.stage { ContentBuffer(r1.(lost := r1.lost + (s - r.stage - 1)), b, p); }
  }

  lemma FinishBuffer(r: Rcv, b: map<nat, Piece>, bytes: seq<byte>, n: nat, end: bool)
    ensures var r1 := Finish(r, bytes, n, end);
            Finish(r.(buffer := b), bytes, n, end) == (if end then r1 else r1.(buffer := b))
            && r1.completed == (r.completed || end)
  {}

  lemma ContentBuffer(r: Rcv, b: map<nat, Piece>, p: Piece)
    requires !r.completed
    ensures var r1 := Content(r, p);
            Content(r.(buffer := b), p) == if r1.completed then r1 else r1.(buffer := b)
  {
    hide Finish;
    if p.flags.before && r.partial.Some? {
      var n := (r.partial.value.fragments + 1) % 0x1_0000;
      var r1 := if n == 0 then r.(wraps := r.wraps + 1) else r;
      FinishBuffer(r1.(partial := None), b, r.partial.value.bytes + p.payload, n, p.flags.end);
    } else {
      FinishBuffer(r.(partial := None, discarded := r.discarded + Held(r)), b, p.payload, 1, p.flags.end);
    }
  }

  lemma {:induction false} SkipGap(r: Rcv, s: nat, t: nat, upto: nat)
    requires s <= t && forall k :: k in r.buffer ==> t <= k
    ensures Skip(r, s, upto) == if t <= upto then Skip(r, t, upto) else r
    decreases t - s
  {
    if s == t || s > upto || r.completed {
    } else {
      SkipGap(r, s + 1, t, upto);
    }
  }

  lemma LeastExists(keys: set<nat>)
    requires keys != {}
    ensures exists k :: k in keys && forall j :: j in keys ==> k <= j
  {
    var k :| k in keys;
    if exists j :: j in keys && j < k {
      var j :| j in keys && j < k;
      LeastBelow(keys, k);
    }
  }

  lemma {:induction false} LeastBelow(keys: set<nat>, bound: nat)
    requires exists j :: j in keys && j < bound
    ensures exists k :: k in keys && forall j :: j in keys ==> k <= j
    decreases bound
  {
    var j :| j in keys && j < bound;
    if exists i :: i in keys && i < j {
      LeastBelow(keys, j);
    }
  }

  /** The first key in order, where an ordered map begins. */
  method Begin(keys: set<nat>) returns (k: nat)
    requires keys != {}
    ensures k in keys && forall j :: j in keys ==> k <= j
  {
    LeastExists(keys);
    k :| k in keys && forall j :: j in keys ==> k <= j;
  }

  function RoomOf(packet: Option<Partial>): nat
  {
    if packet.None? then 0x7F
    else if packet.value.fragments > 0x3F00 then 0
    else 0x3F00 - packet.value.fragments
  }

  class Flow {
    const id: nat
    const mute: bool  // whether its writer has no signature, as that of an unknown flow
    var stage: nat
    var fragments: map<nat, Piece>
    var packet: Option<Partial>
    var completed: bool
    ghost var delivered: seq<Delivery>
    ghost var lost: nat
    ghost var discarded: nat
    ghost var wraps: nat
    ghost var handled: seq<Step>

    ghost function State(): Rcv
      reads this
    {
      Rcv(stage, fragments, packet, completed, delivered, lost, discarded, wraps, handled)
    }

    /** Between two fragments the buffer holds only stages behind a gap. */
    ghost predicate Valid()
      reads this
    {
      if completed then fragments == map[] else forall k :: k in fragments ==> k > stage + 1
    }

    constructor (id: nat, mute: bool)
      ensures Valid() && State() == INIT && this.id == id && this.mute == mute
    {
      this.id, this.mute := id, mute;
      stage, fragments, packet, completed := 0, map[], None, false;
      delivered, lost, discarded, wraps, handled := [], 0, 0, 0, [];
    }

    method Complete()
      modifies this
      ensures State() == old(State()).(completed := true, buffer := map[], partial := None)
    {
      fragments := map[];
      packet := None;
      completed := true;
    }

    /** Reports fragments lost. */
    ghost method LostFragments(count: nat)
      modifies `lost
      ensures lost == old(lost) + count
    {
      lost := lost + count;
    }

    /** Passes a whole message to its handler, unless it is empty or of the empty type. */
    method Dispatch(bytes: seq<byte>, ghost fragmentCount: nat)
      modifies `delivered, `discarded
      ensures Dispatchable(bytes) ==>
                delivered == old(delivered) + [Delivery(stage, bytes, fragmentCount)] && discarded == old(discarded)
      ensures !Dispatchable(bytes) ==> delivered == old(delivered) && discarded == old(discarded) + fragmentCount
    {
      if bytes != [] && bytes[0] != 0 {
        delivered := delivered + [Delivery(stage, bytes, fragmentCount)];
      } else {
        discarded := discarded + fragmentCount;
      }
    }

    /** Forgets the message under way. */
    method DropPacket()
      modifies `packet, `discarded
      ensures packet.None? && discarded == old(discarded) + Held(old(State()))
    {
      if packet.Some? {
        discarded := discarded + packet.value.fragments;
        packet := None;
      }
    }

    method FragmentSortedHandler(s: nat, p: Piece)
      requires !completed
      modifies this
      ensures State() == Sorted(old(State()), s, p)
    {
      if s <= stage {
        return;
      }
      handled := handled + [Step(s, p)];
      if s > stage + 1 {
        var lostCount := s - stage - 1;
        stage := s;
        DropPacket();
        if p.flags.before {
          LostFragments(lostCount + 1);
          return;
        }
        LostFragments(lostCount);
      } else {
        stage := s;
      }
      Process(p);
    }

    /** Treats the content of the stage just reached. */
    method Process(p: Piece)
      requires !completed
      modifies this
      ensures State() == Content(old(State()), p)
    {
      if p.flags.abandon {
        DropPacket();
        discarded := discarded + 1;
        return;
      }
      var message := p.payload;
      ghost var fragmentCount := 1;
      if p.flags.before {
        if packet.None? {
          LostFragments(1);
          return;
        }
        packet := Some(Partial(packet.value.bytes + p.payload, (packet.value.fragments + 1) % 0x1_0000));
        if packet.value.fragments == 0 {
          wraps := wraps + 1;
        }
        if p.flags.after {
          return;
        }
        message, fragmentCount := packet.value.bytes, packet.value.fragments;
      } else if p.flags.after {
        if packet.Some? {
          LostFragments(packet.value.fragments);
        }
        packet := Some(Partial(p.payload, 1));
        return;
      }
      Dispatch(message, fragmentCount);
      if p.flags.before {
        packet := None;
      } else {
        DropPacket();
      }
      if p.flags.end {
        Complete();
      }
    }

    /** Processes the buffered stages up to `s`, in order and with gaps. */
    method SkipTo(s: nat)
      requires Valid() && !completed && stage < s
      modifies this
      ensures stage <= s && State() == Skip(old(State()), old(stage) + 1, s)
      ensures completed ==> fragments == map[]
      ensures !completed ==> forall k :: k in fragments ==> k > s && k > stage
    {
      Fields();
      hide *;
      ghost var r0, low: nat := State(), stage + 1;
      while fragments != map[]
        invariant !completed && stage < low && stage <= s
        invariant forall k :: k in fragments ==> low <= k
        invariant Skip(State(), low, s) == Skip(r0, r0.stage + 1, s)
        decreases |fragments|
      {
        var it := Begin(fragments.Keys);
        Fields();
        SkipGap(State(), low, it, s);
        if it > s {
          break;
        }
        PullInOrder(it, s);
        if completed {
          return;
        }
        low := it + 1;
      }
      Fields();
      if fragments == map[] { SkipGap(State(), low, s + 1 + low, s); }
    }

    /** The fields the loops go by. */
    lemma Fields()
      ensures State().buffer == fragments && State().stage == stage
      ensures Valid() && !completed ==> forall k :: k in fragments ==> k > stage
    {}

    /** Processes the first buffered stage and removes it. */
    method PullInOrder(it: nat, ghost upto: nat)
      requires !completed && it in fragments && stage < it <= upto
      requires forall k :: k in fragments ==> it <= k
      modifies this
      ensures State() == Pull(old(State()), it)
      ensures Skip(State(), it + 1, upto) == Skip(old(State()), it, upto)
      ensures stage == it && (completed ==> fragments == map[] && State() == Skip(old(State()), it, upto))
      ensures !completed ==> fragments == old(fragments) - {it} && |fragments| < |old(fragments)|
    {
      hide Sorted;
      ghost var r := State();
      SortedBuffer(r, fragments - {it}, it, fragments[it]);
      SortedShape(r, it, fragments[it]);
      PullShrinks(r, it);
      FragmentSortedHandler(it, fragments[it]);
      if completed {
        SkipCompleted(State(), it + 1, upto);
        return;
      }
      fragments := fragments - {it};
    }

    lemma SkipCompleted(r: Rcv, s: nat, upto: nat)
      requires r.completed
      ensures Skip(r, s, upto) == r
    {}

    /** Processes the buffered stages that follow on without a gap. */
    method DrainFrom(next: nat)
      requires !completed ==> next == stage + 1 && forall k :: k in fragments ==> next <= k
      requires completed ==> fragments == map[]
      modifies this
      ensures State() == Drain(old(State())) && Valid()
    {
      hide Sorted, Skip;
      ghost var r0 := State();
      var nextStage := next;
      while fragments != map[]
        invariant completed ==> fragments == map[]
        invariant !completed ==> nextStage == stage + 1 && forall k :: k in fragments ==> nextStage <= k
        invariant Drain(State()) == Drain(r0)
        decreases |fragments|
      {
        var it := Begin(fragments.Keys);
        if it > nextStage {
          break;
        }
        PullInOrder(it, it);
        nextStage := nextStage + 1;
        if completed {
          break;
        }
      }
    }

    method FragmentHandler(s: nat, delta: nat, p: Piece)
      requires Valid()
      modifies this
      ensures Valid() && State() == Receive(old(State()), s, delta, p)
    {
      hide Sorted, Skip, Drain;
      if completed {
        return;
      }
      ghost var r0 := State();
      var nextStage := stage + 1;
      if s < nextStage {
        return;
      }
      var deltaNAck := delta;
      if deltaNAck > s {
        deltaNAck := s;
      }
      if stage < s - deltaNAck {
        SkipTo(s);
        if completed {
          return;
        }
        nextStage := s;
      }
      if s > nextStage {
        if s !in fragments {
          fragments := fragments[s := p];
        }
      } else {
        SortedShape(State(), nextStage, p);
        FragmentSortedHandler(nextStage, p);
        DrainFrom(nextStage + 1);
      }
    }

    /** Behind `it`, the first `count` stages are all among `rest0`, and the others follow behind a hole. */
    ghost predicate RunBehind(it: nat, rest0: set<nat>, rest: set<nat>, count: nat)
    {
      && rest <= rest0 && (forall k :: k in rest0 && k !in rest ==> k <= it + count)
      && (forall k :: k in rest ==> it + count + 1 < k)
      && forall s :: it < s <= it + count ==> s in rest0
    }

    /** The stages between `top` and `it` are missing, and `it` with the next `count` are not. */
    ghost predicate HoleThenRun(keys: set<nat>, top: nat, it: nat, count: nat)
    {
      (forall s :: top < s < it ==> s !in keys) && forall s :: it <= s <= it + count ==> s in keys
    }

    /** Follows the run of buffered stages that begins at `it`; `rest` are the buffered stages behind it. */
    method CountRun(it: nat, rest0: set<nat>) returns (rest: set<nat>, count: nat, current: int)
      requires forall k :: k in rest0 ==> it < k
      ensures RunBehind(it, rest0, rest, count) && (rest != {} ==> current == it + count)
    {
      rest, count, current := rest0, 0, it;
      while rest != {}
        invariant rest <= rest0 && current == it + count
        invariant forall k :: k in rest0 && k !in rest ==> k <= it + count
        invariant forall k :: k in rest ==> it + count < k
        invariant forall s :: it < s <= it + count ==> s in rest0
        decreases |rest|
      {
        var next := Begin(rest);
        current := current + 1;
        if next != current {
          break;
        }
        count := count + 1;
        rest := rest - {next};
      }
      current := current - 1;
    }

    /** Lists the missing and the buffered stages in turn, each less one, and the bytes they take. */
    method ListRanges() returns (lost: seq<nat>, size: nat, ghost pairs: seq<(nat, nat)>)
      requires Valid()
      ensures Describes(pairs, stage, fragments.Keys) && lost == Flatten(pairs) && size == SizeAll(lost)
    {
      var current: int, rest := stage, fragments.Keys;
      lost, size, pairs := [], 0, [];
      ListStart(stage, fragments.Keys);
      assert Beyond(rest, fragments.Keys, stage);
      hide *;
      ghost var top: nat := stage;
      while rest != {}
        invariant Beyond(rest, fragments.Keys, top) && (rest != {} ==> current == top)
        invariant DescribesTo(pairs, stage, fragments.Keys, top)
        invariant lost == Flatten(pairs) && size == SizeAll(lost)
        decreases rest
      {
        ghost var lost0, rest0 := lost, rest;
        var it := Begin(rest);
        BehindHole(fragments.Keys, top, rest, it);
        var missing: nat := it - current - 2;
        size := size + Size7(missing);
        lost := lost + [missing];
        var count;
        rest, count, current := CountRun(it, rest - {it});
        size := size + Size7(count);
        lost := lost + [count];
        RangeFound(fragments.Keys, top, rest0, it, rest, count);
        RangeListed(pairs, stage, fragments.Keys, top, it, count, lost0);
        pairs := pairs + [(missing, count)];
        top := it + count;
      }
      BeyondNone(fragments.Keys, top);
      DescribesAll(pairs, stage, fragments.Keys, top);
    }

    /** The stages of the buffer behind stage `top`, which a hole follows. */
    ghost predicate Beyond(rest: set<nat>, keys: set<nat>, top: nat)
    {
      (forall k :: k in rest <==> k in keys && k > top) && top + 1 !in keys
    }

    lemma BehindHole(keys: set<nat>, top: nat, rest: set<nat>, it: nat)
      requires Beyond(rest, keys, top) && it in rest
      ensures top + 1 < it
    {
      assert it in keys;
    }

    lemma BeyondNone(keys: set<nat>, top: nat)
      requires Beyond({}, keys, top)
      ensures forall k :: k in keys ==> k <= top
    {
      forall k | k in keys ensures k <= top {
        assert k > top ==> k in {};
      }
    }

    /** What one step of the listing found: a hole from `top` to before `it`, then a run of `count` + 1 stages. */
    lemma RangeFound(keys: set<nat>, top: nat, rest0: set<nat>, it: nat, rest: set<nat>, count: nat)
      requires Beyond(rest0, keys, top)
      requires it in rest0 && (forall k :: k in rest0 ==> it <= k)
      requires RunBehind(it, rest0 - {it}, rest, count)
      ensures HoleThenRun(keys, top, it, count) && Beyond(rest, keys, it + count)
    {
      forall s | it <= s <= it + count ensures s in keys {
        assert s == it || s in rest0 - {it};
      }
      forall s | top < s < it ensures s !in keys {
        assert s in keys ==> s in rest0;
      }
      forall k | k in keys && k > it + count ensures k in rest && k > it + count + 1 {
        assert k in rest0 - {it};
      }
    }

    lemma ListStart(stage: nat, keys: set<nat>)
      ensures DescribesTo([], stage, keys, stage) && Flatten([]) == [] && SizeAll([]) == 0
    {}

    /** And how the lists grow by it. */
    lemma RangeListed(pairs: seq<(nat, nat)>, c: nat, keys: set<nat>, top: nat, it: nat, count: nat, lost: seq<nat>)
      requires DescribesTo(pairs, c, keys, top) && lost == Flatten(pairs) && top + 1 < it
      requires HoleThenRun(keys, top, it, count)
      ensures var missing, all := it - top - 2, lost + [it - top - 2] + [count];
              && DescribesTo(pairs + [(missing, count)], c, keys, it + count)
              && all == Flatten(pairs + [(missing, count)])
              && SizeAll(all) == SizeAll(lost) + Size7(missing) + Size7(count)
    {
      hide DescribesTo, Flatten, SizeAll, Size7;
      var missing := it - top - 2;
      assert lost + [missing] + [count] == lost + [missing, count];
      DescribesMore(pairs, c, keys, top, missing, count);
      FlattenMore(pairs, missing, count);
      TwoSizes(lost, missing, count);
    }

    lemma TwoSizes(lost: seq<nat>, a: nat, b: nat)
      ensures SizeAll(lost + [a, b]) == SizeAll(lost) + Size7(a) + Size7(b)
    {
      EncodeAllAppend(lost, [a, b]);
      assert [a, b][1..] == [b] && [b][1..] == [];
      assert SizeAll([a, b]) == Size7(a) + SizeAll([b]) && SizeAll([b]) == Size7(b) + SizeAll([]);
    }

    /** Fragments the message under way may still grow by, or 127 when there is none. */
    function BufferSize(): nat
      reads `packet
    {
      if mute then 0 else RoomOf(packet)
    }

    /** Writes an acknowledgment: its body takes the announced length, and says the stage reached and
        the ranges of the buffer. */
    method Commit() returns (body: seq<byte>, length: nat, ghost a: Ack)
      requires Valid()
      ensures a.stage == stage && Describes(a.pairs, stage, fragments.Keys) && TellsRoom(a.room, mute, State())
      ensures body == Encode7(id) + AckBytes(a) && length == |body|
    {
      hide Encode7, Size7, Describes, SizeAll;
      var lost, size;
      ghost var pairs;
      lost, size, pairs := ListRanges();
      var bufferSize := BufferSize();
      length := Size7(id) + Size7(bufferSize) + Size7(stage) + size;
      a := Ack(bufferSize, stage, pairs);
      var ack := new BinaryWriter();
      ack.Write7BitValue(id);
      ack.Write7BitValue(bufferSize);
      ack.Write7BitValue(stage);
      WriteAll(ack, lost);
      body := ack.out;
      TwoValues(bufferSize, stage, lost);
      Encode7Length(id);
      Encode7Length(bufferSize);
      Encode7Length(stage);
      EncodeAllLength(lost);
      assert body == Encode7(id) + AckBytes(a);
    }

    method WriteAll(ack: BinaryWriter, values: seq<nat>)
      modifies ack
      ensures ack.out == old(ack.out) + EncodeAll(values)
    {
      hide Encode7;
      for i := 0 to |values|
        invariant ack.out == old(ack.out) + EncodeAll(values[..i])
      {
        ack.Write7BitValue(values[i]);
        EncodeAllAppend(values[..i], [values[i]]);
        assert values[..i + 1] == values[..i] + [values[i]];
        assert EncodeAll([values[i]]) == Encode7(values[i]) + EncodeAll([]);
      }
      assert values[..|values|] == values;
    }
  }
}
