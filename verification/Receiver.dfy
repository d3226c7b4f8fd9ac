/** The receiving end of a flow: what one fragment does to its state, and what any run of fragments
    leaves it in. */
module Receiver {
  import opened Codec
  import opened Wire
  import opened Reassembly

  /** A fragment received. */
  datatype Piece = Piece(flags: Flags, payload: seq<byte>)

  /** A message under way, with its 16-bit count of fragments. */
  datatype Partial = Partial(bytes: seq<byte>, fragments: nat)

  /** A message handed to its handler when stage `stage` was processed. */
  datatype Delivery = Delivery(stage: nat, bytes: seq<byte>, fragments: nat)

  /** A stage processed, with the fragment it brought. */
  datatype Step = Step(stage: nat, piece: Piece)

  /** The state of a flow; `lost` adds up what was reported lost. The last three fields only serve to
      account for every stage: fragments discarded without a word, overflows of the 16-bit count, and the
      stages processed. */
  datatype Rcv = Rcv(
    stage: nat, buffer: map<nat, Piece>, partial: Option<Partial>, completed: bool,
    delivered: seq<Delivery>, lost: nat, discarded: nat, wraps: nat, handled: seq<Step>)

  const INIT := Rcv(0, map[], None, false, [], 0, 0, 0, [])

  /** A message is handed over unless it is empty or has the empty type. */
  predicate Dispatchable(m: seq<byte>) { m != [] && m[0] != 0 }

  function Held(r: Rcv): nat { if r.partial.Some? then r.partial.value.fragments else 0 }

  /** What an acknowledgment tells of the room left for the message under way. Nothing is what the sender takes
      for a refusal: so it is told by a flow without a writer of its own, and from 0x3F00 fragments on. */
  predicate TellsRoom(room: nat, mute: bool, r: Rcv)
  {
    && (room == 0 <==> mute || Held(r) >= 0x3F00)
    && (!mute && r.partial.Some? && Held(r) < 0x3F00 ==> room + Held(r) == 0x3F00)
    && (!mute && r.partial.None? ==> room == 0x7F)
  }

  function Finish(r: Rcv, bytes: seq<byte>, fragments: nat, end: bool): Rcv
  {
    var r1 := if Dispatchable(bytes) then r.(delivered := r.delivered + [Delivery(r.stage, bytes, fragments)])
              else r.(discarded := r.discarded + fragments);
    if end then r1.(completed := true, buffer := map[]) else r1
  }

  function Content(r: Rcv, p: Piece): Rcv
  {
    if p.flags.abandon then r.(partial := None, discarded := r.discarded + Held(r) + 1)
    else if p.flags.before then
      if r.partial.None? then r.(lost := r.lost + 1)
      else
        var q := Partial(r.partial.value.bytes + p.payload, (r.partial.value.fragments + 1) % 0x1_0000);
        var r1 := if q.fragments == 0 then r.(wraps := r.wraps + 1) else r;
        if p.flags.after then r1.(partial := Some(q))
        else Finish(r1.(partial := None), q.bytes, q.fragments, p.flags.end)
    else if p.flags.after then r.(partial := Some(Partial(p.payload, 1)), lost := r.lost + Held(r))
    else Finish(r.(partial := None, discarded := r.discarded + Held(r)), p.payload, 1, p.flags.end)
  }

  function Arrived(r: Rcv, s: nat, p: Piece): Rcv { r.(stage := s, handled := r.handled + [Step(s, p)]) }

  /** Processes stage `s`, every stage skipped before it being lost. */
  function Sorted(r: Rcv, s: nat, p: Piece): Rcv
  {
    if s <= r.stage then r
    else if s == r.stage + 1 then Content(Arrived(r, s, p), p)
    else
      var r1 := Arrived(r, s, p).(partial := None, discarded := r.discarded + Held(r));
      if p.flags.before then r1.(lost := r1.lost + (s - r.stage))
      else Content(r1.(lost := r1.lost + (s - r.stage - 1)), p)
  }

  /** Takes stage `s` out of the buffer and processes it. */
  function Pull(r: Rcv, s: nat): Rcv
    requires s in r.buffer
  {
    Sorted(r.(buffer := r.buffer - {s}), s, r.buffer[s])
  }

  /** Processes the buffered stages from `s` to `upto`, whatever is missing between them. */
  function Skip(r: Rcv, s: nat, upto: nat): Rcv
    decreases upto + 1 - s
  {
    if s > upto || r.completed then r else Skip(if s in r.buffer then Pull(r, s) else r, s + 1, upto)
  }

  lemma SortedShape(r: Rcv, s: nat, p: Piece)
    requires !r.completed
    ensures Sorted(r, s, p).buffer == if Sorted(r, s, p).completed then map[] else r.buffer
    ensures Sorted(r, s, p).stage == if s <= r.stage then r.stage else s
  {}

  lemma SortedStale(r: Rcv, s: nat, p: Piece)
    requires s <= r.stage
    ensures Sorted(r, s, p) == r
  {}

  lemma PullShrinks(r: Rcv, s: nat)
    requires s in r.buffer && !r.completed
    ensures |Pull(r, s).buffer| < |r.buffer|
  {
    hide Sorted;
    SortedShape(r.(buffer := r.buffer - {s}), s, r.buffer[s]);
    assert (r.buffer - {s}).Keys == r.buffer.Keys - {s};
    assert |r.buffer - {s}| == |(r.buffer - {s}).Keys| && |r.buffer| == |r.buffer.Keys|;
  }

  /** Processes the buffered stages that follow on. */
  function Drain(r: Rcv): Rcv
    decreases |r.buffer|
  {
    if r.completed || r.stage + 1 !in r.buffer then r
    else
      PullShrinks(r, r.stage + 1);
      Drain(Pull(r, r.stage + 1))
  }

  /** What receiving one fragment does; stages up to `s - delta` are no longer to be waited for. */
  function Receive(r: Rcv, s: nat, delta: nat, p: Piece): Rcv
  {
    if r.completed || s <= r.stage then r
    else if r.stage < s - (if delta > s then s else delta) then
      var r1 := Skip(r, r.stage + 1, s);
      if r1.completed then r1 else Drain(Sorted(r1, s, p))
    else if s == r.stage + 1 then Drain(Sorted(r, s, p))
    else if s in r.buffer then r
    else r.(buffer := r.buffer[s := p])
  }

  /** What a run of fragments does. */
  function ReceiveAll(r: Rcv, segs: seq<Segment>): Rcv
  {
    if segs == [] then r
    else
      var r1, g := ReceiveAll(r, segs[..|segs| - 1]), segs[|segs| - 1];
      Receive(r1, g.stage, g.delta, Piece(g.flags, g.payload))
  }

  // --- every stage is accounted for ---

  function Handed(ds: seq<Delivery>): nat
  {
    if ds == [] then 0 else Handed(ds[..|ds| - 1]) + ds[|ds| - 1].fragments
  }

  /** Delivered, reported lost, discarded or held: all stages so far, up to overflows of the 16-bit count. */
  ghost predicate Balanced(r: Rcv)
  {
    Handed(r.delivered) + r.lost + r.discarded + Held(r) + 0x1_0000 * r.wraps == r.stage
    && Held(r) < 0x1_0000
  }

  /** The sum of all counts but the held one, short of the overflows. */
  ghost function Counted(r: Rcv): nat { Handed(r.delivered) + r.lost + r.discarded + 0x1_0000 * r.wraps }

  lemma FinishBalance(r: Rcv, bytes: seq<byte>, n: nat, end: bool)
    ensures Counted(Finish(r, bytes, n, end)) == Counted(r) + n
    ensures Finish(r, bytes, n, end).stage == r.stage && Finish(r, bytes, n, end).partial == r.partial
  {
    assert (r.delivered + [Delivery(r.stage, bytes, n)])[..|r.delivered|] == r.delivered;
  }

  lemma ContentBalance(r: Rcv, p: Piece)
    requires Counted(r) + Held(r) + 1 == r.stage && Held(r) < 0x1_0000
    ensures Balanced(Content(r, p))
  {
    hide Finish, Handed;
    if !p.flags.abandon && !p.flags.after {
      if !p.flags.before {
        FinishBalance(r.(partial := None, discarded := r.discarded + Held(r)), p.payload, 1, p.flags.end);
      } else if r.partial.Some? {
        var n := (r.partial.value.fragments + 1) % 0x1_0000;
        var r1 := if n == 0 then r.(wraps := r.wraps + 1) else r;
        FinishBalance(r1.(partial := None), r.partial.value.bytes + p.payload, n, p.flags.end);
      }
    }
  }

  lemma SortedBalance(r: Rcv, s: nat, p: Piece)
    requires Balanced(r)
    ensures Balanced(Sorted(r, s, p))
  {
    hide Content, Handed;
    if s == r.stage + 1 {
      ContentBalance(Arrived(r, s, p), p);
    } else if s > r.stage + 1 {
      var lost := r.lost + (s - r.stage - 1);
      ContentBalance(Arrived(r, s, p).(partial := None, discarded := r.discarded + Held(r), lost := lost), p);
    }
  }

  lemma {:induction false} SkipBalance(r: Rcv, s: nat, upto: nat)
    requires Balanced(r)
    ensures Balanced(Skip(r, s, upto))
    decreases upto + 1 - s
  {
    hide Sorted, Handed;
    if s > upto || r.completed {
    } else {
      if s in r.buffer { SortedBalance(r.(buffer := r.buffer - {s}), s, r.buffer[s]); }
      SkipBalance(if s in r.buffer then Pull(r, s) else r, s + 1, upto);
    }
  }

  lemma {:induction false} DrainBalance(r: Rcv)
    requires Balanced(r)
    ensures Balanced(Drain(r))
    decreases |r.buffer|
  {
    hide Sorted, Handed;
    if r.completed || r.stage + 1 !in r.buffer {
    } else {
      PullShrinks(r, r.stage + 1);
      SortedBalance(r.(buffer := r.buffer - {r.stage + 1}), r.stage + 1, r.buffer[r.stage + 1]);
      DrainBalance(Pull(r, r.stage + 1));
    }
  }

  lemma ReceiveBalance(r: Rcv, s: nat, delta: nat, p: Piece)
    requires Balanced(r)
    ensures Balanced(Receive(r, s, delta, p))
  {
    hide Sorted, Skip, Drain, Handed;
    if !r.completed && s > r.stage {
      SkipBalance(r, r.stage + 1, s);
      SortedBalance(Skip(r, r.stage + 1, s), s, p);
      DrainBalance(Sorted(Skip(r, r.stage + 1, s), s, p));
      SortedBalance(r, s, p);
      DrainBalance(Sorted(r, s, p));
    }
  }

  /** Conservation: over any run of fragments whatever, in any order and with any flags, the stages
      delivered, reported lost, discarded and held add up to the stage reached, short of 65536 for each
      overflow of the fragment count; exactly so if and only if it never overflowed. */
  lemma {:induction false} StagesConserved(segs: seq<Segment>)
    ensures var r := ReceiveAll(INIT, segs);
            && Balanced(r)
            && (Handed(r.delivered) + r.lost + r.discarded + Held(r) == r.stage <==> r.wraps == 0)
  {
    if segs == [] {
    } else {
      var g := segs[|segs| - 1];
      StagesConserved(segs[..|segs| - 1]);
      ReceiveBalance(ReceiveAll(INIT, segs[..|segs| - 1]), g.stage, g.delta, Piece(g.flags, g.payload));
    }
  }

  // --- when the fragment count overflows ---

  /** No overflow so far, and at most `n` fragments that a message under way could be made of. */
  ghost predicate Few(r: Rcv, n: nat)
  {
    r.wraps == 0 && Held(r) + |r.buffer| <= n
  }

  lemma ContentFew(r: Rcv, p: Piece, n: nat)
    requires Few(r, n) && n < 0xFFFF
    ensures Few(Content(r, p), n + 1)
  {
  }

  lemma SortedFew(r: Rcv, s: nat, p: Piece, n: nat)
    requires Few(r, n) && n < 0xFFFF
    ensures Few(Sorted(r, s, p), n + 1)
  {
    hide Content;
    if s == r.stage + 1 {
      ContentFew(Arrived(r, s, p), p, n);
    } else if s > r.stage + 1 {
      var lost := r.lost + (s - r.stage - 1);
      ContentFew(Arrived(r, s, p).(partial := None, discarded := r.discarded + Held(r), lost := lost), p, n);
    }
  }

  lemma PullFew(r: Rcv, s: nat, n: nat)
    requires Few(r, n) && n < 0x1_0000 && s in r.buffer
    ensures Few(Pull(r, s), n)
  {
    hide Sorted;
    assert (r.buffer - {s}).Keys == r.buffer.Keys - {s};
    assert |r.buffer - {s}| == |(r.buffer - {s}).Keys| && |r.buffer| == |r.buffer.Keys|;
    SortedFew(r.(buffer := r.buffer - {s}), s, r.buffer[s], n - 1);
  }

  lemma {:induction false} SkipFew(r: Rcv, s: nat, upto: nat, n: nat)
    requires Few(r, n) && n < 0x1_0000
    ensures Few(Skip(r, s, upto), n)
    decreases upto + 1 - s
  {
    hide Pull, Few;
    if s > upto || r.completed {
    } else {
      if s in r.buffer { PullFew(r, s, n); }
      SkipFew(if s in r.buffer then Pull(r, s) else r, s + 1, upto, n);
    }
  }

  lemma {:induction false} DrainFew(r: Rcv, n: nat)
    requires Few(r, n) && n < 0x1_0000
    ensures Few(Drain(r), n)
    decreases |r.buffer|
  {
    hide Pull, Few;
    if r.completed || r.stage + 1 !in r.buffer {
    } else {
      PullShrinks(r, r.stage + 1);
      PullFew(r, r.stage + 1, n);
      DrainFew(Pull(r, r.stage + 1), n);
    }
  }

  lemma ReceiveFew(r: Rcv, s: nat, delta: nat, p: Piece, n: nat)
    requires Few(r, n) && n < 0xFFFF
    ensures Few(Receive(r, s, delta, p), n + 1)
  {
    if s !in r.buffer {
      assert r.buffer[s := p].Keys == r.buffer.Keys + {s};
      assert |r.buffer[s := p]| == |r.buffer[s := p].Keys| && |r.buffer| == |r.buffer.Keys|;
    }
    assert Few(r, n + 1) && Few(r.(buffer := r.buffer[s := p]), n + 1);
    hide Sorted, Skip, Drain, Few;
    SkipFew(r, r.stage + 1, s, n);
    SortedFew(Skip(r, r.stage + 1, s), s, p, n);
    DrainFew(Sorted(Skip(r, r.stage + 1, s), s, p), n + 1);
    SortedFew(r, s, p, n);
    DrainFew(Sorted(r, s, p), n + 1);
    FewMore(Skip(r, r.stage + 1, s), n);
  }

  lemma FewMore(r: Rcv, n: nat)
    requires Few(r, n)
    ensures Few(r, n + 1)
  {
  }

  /** Fewer than 65536 fragments in all never overflow the count, whatever they are; so every stage is
      accounted for. */
  lemma {:induction false} FewFragmentsConserved(segs: seq<Segment>)
    requires |segs| < 0x1_0000
    ensures var r := ReceiveAll(INIT, segs);
            Few(r, |segs|) && Handed(r.delivered) + r.lost + r.discarded + Held(r) == r.stage
  {
    StagesConserved(segs);
    if segs == [] {
    } else {
      var g := segs[|segs| - 1];
      FewFragmentsConserved(segs[..|segs| - 1]);
      ReceiveFew(ReceiveAll(INIT, segs[..|segs| - 1]), g.stage, g.delta, Piece(g.flags, g.payload), |segs| - 1);
    }
  }

  /** Fragment `n` of a message that has no end. */
  function Going(n: nat): Segment { Segment(1, n, n, Flags(false, n > 1, true, false, false), [1]) }

  /** The first `n` of them, in order. */
  function Endless(n: nat): seq<Segment>
  {
    if n == 0 then [] else Endless(n - 1) + [Going(n)]
  }

  /** A receiver in the middle of a message, after `n` fragments of it. */
  ghost predicate Amid(r: Rcv, n: nat)
  {
    && r.stage == n && !r.completed && r.buffer == map[] && (r.partial.Some? <==> n > 0)
    && Held(r) == n % 0x1_0000 && r.wraps == n / 0x1_0000
  }

  lemma OneLonger(r: Rcv, p: Piece)
    requires r.buffer == map[] && !r.completed && p.flags == Flags(false, r.stage > 0, true, false, false)
    requires r.partial.Some? <==> r.stage > 0
    ensures Receive(r, r.stage + 1, r.stage + 1, p) == Content(Arrived(r, r.stage + 1, p), p)
  {
  }

  lemma AmidNext(r: Rcv, n: nat)
    requires Amid(r, n)
    ensures var p := Piece(Going(n + 1).flags, [1]);
            Amid(Content(Arrived(r, n + 1, p), p), n + 1)
  {
  }

  /** 65536 fragments of one message do overflow: the count starts again at zero each time. */
  lemma {:induction false} EndlessOverflows(n: nat)
    ensures Amid(ReceiveAll(INIT, Endless(n)), n)
  {
    if n == 0 {
    } else {
      hide *;
      EndlessOverflows(n - 1);
      EndlessStep(n - 1);
      AmidStep(ReceiveAll(INIT, Endless(n - 1)), n - 1);
    }
  }

  lemma EndlessStep(n: nat)
    ensures ReceiveAll(INIT, Endless(n + 1))
         == Receive(ReceiveAll(INIT, Endless(n)), n + 1, n + 1, Piece(Going(n + 1).flags, [1]))
  {
    hide Receive;
    var segs := Endless(n + 1);
    assert segs[..|segs| - 1] == Endless(n) && segs[|segs| - 1] == Going(n + 1);
  }

  lemma AmidStep(r: Rcv, n: nat)
    requires Amid(r, n)
    ensures Amid(Receive(r, n + 1, n + 1, Piece(Going(n + 1).flags, [1])), n + 1)
  {
    OneLonger(r, Piece(Going(n + 1).flags, [1]));
    hide Receive, Content;
    AmidNext(r, n);
  }

  // --- what is delivered is what was sent ---

  /** A piece is the fragment sent, apart from the end flag. */
  predicate Matches(p: Piece, f: Fragment)
  {
    f == Fragment(p.payload, p.flags.before, p.flags.after) && !p.flags.abandon
  }

  /** The buffer holds later stages, as they were sent. */
  ghost predicate Ahead(r: Rcv, log: seq<Fragment>)
  {
    forall s :: s in r.buffer ==> r.stage < s <= |log| && Matches(r.buffer[s], log[s - 1])
  }

  /** Deliveries come from ever later stages, and each is the message its stage completes. */
  ghost predicate Rightful(ds: seq<Delivery>, log: seq<Fragment>, upto: nat)
  {
    && (forall i :: 0 <= i < |ds| ==>
          1 <= ds[i].stage <= upto && ds[i].stage <= |log| && MessageAt(log, ds[i].stage) == Some(ds[i].bytes))
    && (forall i, j :: 0 <= i < j < |ds| ==> ds[i].stage < ds[j].stage)
  }

  /** A message under way is under way in the stages sent, with the same content so far. */
  ghost predicate OpenRight(r: Rcv, log: seq<Fragment>)
  {
    r.stage <= |log| && (r.partial.Some? ==> Assemble(log[..r.stage]).open == Some(r.partial.value.bytes))
  }

  ghost predicate Honest(r: Rcv, log: seq<Fragment>)
  {
    OpenRight(r, log) && Ahead(r, log) && Rightful(r.delivered, log, r.stage)
  }

  /** Between two fragments, the next stage is never waiting in the buffer. */
  predicate AtRest(r: Rcv) { r.completed || r.stage + 1 !in r.buffer }

  lemma RightfulMore(ds: seq<Delivery>, log: seq<Fragment>, s: nat, bytes: seq<byte>, n: nat)
    requires 1 <= s <= |log| && Rightful(ds, log, s - 1) && MessageAt(log, s) == Some(bytes)
    ensures Rightful(ds + [Delivery(s, bytes, n)], log, s)
  {}

  /** The last step of Assemble at stage `s`, read off the flags. */
  lemma StepAt(log: seq<Fragment>, s: nat)
    requires Sensible(log) && 1 <= s <= |log|
    ensures var f, a := log[s - 1], Assemble(log[..s - 1]);
            && (f.before <==> a.open.Some?)
            && var content := if f.before then a.open.value + f.payload else f.payload;
               if f.after then Assemble(log[..s]) == Assembly(a.done, Some(content)) && MessageAt(log, s).None?
               else Assemble(log[..s]) == Assembly(a.done + [content], None) && MessageAt(log, s) == Some(content)
  {
    assert SensibleAt(log, s - 1);
    AssembleNext(log, s - 1);
  }

  /** The content stage `s` completes or carries on with, `open` being what was under way before it. */
  function Joined(open: Option<seq<byte>>, p: Piece): seq<byte>
  {
    if p.flags.before && open.Some? then open.value + p.payload else p.payload
  }

  /** One piece in order: it opens or carries on nothing but the message under way, and delivers at
      most that message. */
  lemma SortedEffect(r: Rcv, s: nat, p: Piece, open: Option<seq<byte>>)
    requires r.stage < s && !p.flags.abandon && (p.flags.before <==> open.Some?)
    requires r.partial.Some? && s == r.stage + 1 ==> open == Some(r.partial.value.bytes)
    ensures var r1 := Sorted(r, s, p);
            && r1.stage == s
            && (r1.partial.Some? ==> p.flags.after && r1.partial.value.bytes == Joined(open, p))
            && (r1.delivered == r.delivered
                || (!p.flags.after && exists n :: r1.delivered == r.delivered + [Delivery(s, Joined(open, p), n)]))
  {
    var r1 := Sorted(r, s, p);
    if r1.delivered != r.delivered {
      assert r1.delivered == r.delivered + [Delivery(s, Joined(open, p), r1.delivered[|r.delivered|].fragments)];
    }
  }

  /** Processing the next or a later stage, as it was sent, keeps all deliveries rightful. */
  lemma SortedHonest(r: Rcv, log: seq<Fragment>, s: nat, p: Piece)
    requires Sensible(log) && OpenRight(r, log) && Rightful(r.delivered, log, r.stage)
    requires r.stage < s <= |log| && Matches(p, log[s - 1])
    ensures OpenRight(Sorted(r, s, p), log) && Rightful(Sorted(r, s, p).delivered, log, s)
  {
    var open, r1 := Assemble(log[..s - 1]).open, Sorted(r, s, p);
    StepAt(log, s);
    SortedEffect(r, s, p, open);
    hide Sorted, Assemble, MessageAt, Rightful;
    RightfulLater(r.delivered, log, r.stage, s - 1);
    RightfulLater(r.delivered, log, r.stage, s);
    if r1.delivered != r.delivered {
      var n :| r1.delivered == r.delivered + [Delivery(s, Joined(open, p), n)];
      RightfulMore(r.delivered, log, s, Joined(open, p), n);
    }
  }

  lemma RightfulLater(ds: seq<Delivery>, log: seq<Fragment>, a: nat, b: nat)
    requires Rightful(ds, log, a) && a <= b
    ensures Rightful(ds, log, b)
  {}

  lemma PullHonest(r: Rcv, log: seq<Fragment>, s: nat)
    requires Sensible(log) && Honest(r, log) && s in r.buffer
    requires !r.completed && forall t :: t in r.buffer ==> s <= t
    ensures Honest(Pull(r, s), log) && Pull(r, s).stage == s
    ensures forall t :: t in Pull(r, s).buffer ==> s < t
  {
    hide Sorted, Rightful, Assemble;
    SortedShape(r.(buffer := r.buffer - {s}), s, r.buffer[s]);
    SortedHonest(r.(buffer := r.buffer - {s}), log, s, r.buffer[s]);
  }

  lemma {:induction false} SkipHonest(r: Rcv, log: seq<Fragment>, s: nat, upto: nat)
    requires Sensible(log) && Honest(r, log) && r.stage < s && forall t :: t in r.buffer ==> s <= t
    ensures Honest(Skip(r, s, upto), log)
    ensures Skip(r, s, upto).stage < s || Skip(r, s, upto).stage <= upto
    ensures !Skip(r, s, upto).completed ==> forall t :: t in Skip(r, s, upto).buffer ==> upto < t
    decreases upto + 1 - s
  {
    hide Pull, Honest;
    if s > upto || r.completed {
    } else {
      if s in r.buffer { PullHonest(r, log, s); }
      SkipHonest(if s in r.buffer then Pull(r, s) else r, log, s + 1, upto);
    }
  }

  lemma {:induction false} DrainHonest(r: Rcv, log: seq<Fragment>)
    requires Sensible(log) && Honest(r, log)
    ensures Honest(Drain(r), log) && AtRest(Drain(r))
    decreases |r.buffer|
  {
    hide Pull, OpenRight, Rightful;
    if r.completed || r.stage + 1 !in r.buffer {
    } else {
      PullShrinks(r, r.stage + 1);
      PullHonest(r, log, r.stage + 1);
      DrainHonest(Pull(r, r.stage + 1), log);
    }
  }

  /** Whatever fragment of the log arrives next, however old or new, the receiver stays honest. */
  lemma ReceiveHonest(r: Rcv, log: seq<Fragment>, s: nat, delta: nat, p: Piece)
    requires Sensible(log) && Honest(r, log) && AtRest(r) && 1 <= s <= |log| && Matches(p, log[s - 1])
    ensures Honest(Receive(r, s, delta, p), log) && AtRest(Receive(r, s, delta, p))
  {
    hide Sorted, Skip, Drain, Assemble, Rightful;
    if !r.completed { SortedShape(r, s, p); }
    if !r.completed && s > r.stage {
      if r.stage < s - (if delta > s then s else delta) {
        var r1 := Skip(r, r.stage + 1, s);
        SkipHonest(r, log, r.stage + 1, s);
        if !r1.completed {
          SortedShape(r1, s, p);
          if r1.stage < s { SortedHonest(r1, log, s, p); } else { SortedStale(r1, s, p); }
          DrainHonest(Sorted(r1, s, p), log);
        }
      } else if s == r.stage + 1 {
        SortedHonest(r, log, s, p);
        DrainHonest(Sorted(r, s, p), log);
      }
    }
  }
}
