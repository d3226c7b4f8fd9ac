/** Acknowledgments with ranges (section 2.3.14 of RFC 7016): their bytes, what they say of each
    stage, and what they do to a sender's window. */
module Acks {
  import opened Codec
  import opened Wire
  import opened Reassembly

  /** `pairs` holds, in turn, the missing stages less one and the received stages less one. */
  datatype Ack = Ack(room: nat, stage: nat, pairs: seq<(nat, nat)>)

  function ParsePairs(s: seq<byte>, pad: byte): seq<(nat, nat)>
    decreases |s|
  {
    if s == [] then []
    else
      DecodeProgress(s, pad, 0, 0);
      var (a, s1) := Decode7(s, pad);
      DecodeProgress(s1, pad, 0, 0);
      var (b, s2) := Decode7(s1, pad);
      [(a, b)] + ParsePairs(s2, pad)
  }

  function ParseAck(s: seq<byte>, pad: byte): Ack
  {
    var (room, s1) := Decode7(s, pad);
    var (stage, s2) := Decode7(s1, pad);
    Ack(room, stage, ParsePairs(s2, pad))
  }

  function Flatten(pairs: seq<(nat, nat)>): seq<nat>
  {
    if pairs == [] then [] else [pairs[0].0, pairs[0].1] + Flatten(pairs[1..])
  }

  function AckBytes(a: Ack): seq<byte> { EncodeAll([a.room, a.stage] + Flatten(a.pairs)) }

  predicate Small(pairs: seq<(nat, nat)>)
  {
    forall i :: 0 <= i < |pairs| ==> pairs[i].0 < LIMIT && pairs[i].1 < LIMIT
  }

  lemma TwoValues(a: nat, b: nat, rest: seq<nat>)
    ensures EncodeAll([a, b] + rest) == Encode7(a) + (Encode7(b) + EncodeAll(rest))
  {
    assert ([a, b] + rest)[1..] == [b] + rest && ([b] + rest)[1..] == rest;
  }

  lemma DecodeTwoValues(a: nat, b: nat, rest: seq<byte>, pad: byte)
    requires a < LIMIT && b < LIMIT
    ensures var s := Encode7(a) + (Encode7(b) + rest);
            s != [] && Decode7(s, pad).0 == a && Decode7(Decode7(s, pad).1, pad) == (b, rest)
  {
    hide Decode7, Encode7;
    DecodeEncode(a, Encode7(b) + rest, pad);
    DecodeEncode(b, rest, pad);
    Encode7Length(a);
  }

  lemma ParsePairsStep(s: seq<byte>, pad: byte, a: nat, b: nat, rest: seq<byte>)
    requires s != [] && Decode7(s, pad).0 == a && Decode7(Decode7(s, pad).1, pad) == (b, rest)
    ensures ParsePairs(s, pad) == [(a, b)] + ParsePairs(rest, pad)
  {}

  lemma {:induction false} PairsRoundTrip(pairs: seq<(nat, nat)>, pad: byte)
    requires Small(pairs)
    ensures ParsePairs(EncodeAll(Flatten(pairs)), pad) == pairs
  {
    if pairs == [] {
    } else {
      var a, b, rest := pairs[0].0, pairs[0].1, Flatten(pairs[1..]);
      PairsRoundTrip(pairs[1..], pad);
      TwoValues(a, b, rest);
      DecodeTwoValues(a, b, EncodeAll(rest), pad);
      ParsePairsStep(EncodeAll(Flatten(pairs)), pad, a, b, EncodeAll(rest));
    }
  }

  /** The sender reads back the acknowledgment the receiver wrote. */
  lemma AckRoundTrip(a: Ack, pad: byte)
    requires a.room < LIMIT && a.stage < LIMIT && Small(a.pairs)
    ensures ParseAck(AckBytes(a), pad) == a
  {
    TwoValues(a.room, a.stage, Flatten(a.pairs));
    DecodeTwoValues(a.room, a.stage, EncodeAll(Flatten(a.pairs)), pad);
    PairsRoundTrip(a.pairs, pad);
  }

  /** The room, the stage reached, then each hole and each run less one. */
  lemma AckExample()
    ensures Describes([(0, 2), (4, 0)], 6, {8, 9, 10, 16})
    ensures AckBytes(Ack(0x7F, 6, [(0, 2), (4, 0)])) == [0x7F, 6, 0, 2, 4, 0]
  {
    assert [(0, 2), (4, 0)][1..] == [(4, 0)] && [(4, 0)][1..] == [];
    assert Flatten([(4, 0)]) == [4, 0] && Flatten([(0, 2), (4, 0)]) == [0, 2, 4, 0];
    BytesExample();
  }

  lemma BytesExample()
    ensures EncodeAll([0x7F, 6] + [0, 2, 4, 0]) == [0x7F, 6, 0, 2, 4, 0]
  {
    hide EncodeAll, Describes;
    TwoValues(0x7F, 6, [0, 2, 4, 0]);
    TwoValues(0, 2, [4, 0]);
    TwoValues(4, 0, []);
    assert [0, 2] + [4, 0] == [0, 2, 4, 0] && [4, 0] + [] == [4, 0];
    assert EncodeAll([]) == [] by { NoBytes(); }
  }

  lemma NoBytes()
    ensures EncodeAll([]) == []
  {}

  // --- what the ranges say ---

  /** The ranges after stage `c` are exactly the maximal runs of missing and of buffered stages. */
  ghost predicate Describes(pairs: seq<(nat, nat)>, c: nat, kept: set<nat>)
    decreases |pairs|
  {
    if pairs == [] then forall s :: s in kept ==> s <= c
    else
      var missing, top := c + pairs[0].0 + 1, c + pairs[0].0 + pairs[0].1 + 2;
      && (forall s :: c < s <= missing ==> s !in kept)
      && (forall s :: missing < s <= top ==> s in kept)
      && Describes(pairs[1..], top, kept)
  }

  /** The ranges after `c` describe the buffer up to stage `top`. */
  ghost predicate DescribesTo(pairs: seq<(nat, nat)>, c: nat, kept: set<nat>, top: nat)
    decreases |pairs|
  {
    if pairs == [] then c == top
    else
      var missing, next := c + pairs[0].0 + 1, c + pairs[0].0 + pairs[0].1 + 2;
      && (forall s :: c < s <= missing ==> s !in kept)
      && (forall s :: missing < s <= next ==> s in kept)
      && DescribesTo(pairs[1..], next, kept, top)
  }

  lemma {:induction false} DescribesMore(pairs: seq<(nat, nat)>, c: nat, kept: set<nat>, top: nat, a: nat, b: nat)
    requires DescribesTo(pairs, c, kept, top)
    requires forall s :: top < s <= top + a + 1 ==> s !in kept
    requires forall s :: top + a + 1 < s <= top + a + b + 2 ==> s in kept
    ensures DescribesTo(pairs + [(a, b)], c, kept, top + a + b + 2)
    decreases |pairs|
  {
    var all := pairs + [(a, b)];
    if pairs == [] {
      assert all[0] == (a, b) && all[1..] == [];
    } else {
      DescribesMore(pairs[1..], c + pairs[0].0 + pairs[0].1 + 2, kept, top, a, b);
      assert all[0] == pairs[0] && all[1..] == pairs[1..] + [(a, b)];
    }
  }

  lemma {:induction false} DescribesAll(pairs: seq<(nat, nat)>, c: nat, kept: set<nat>, top: nat)
    requires DescribesTo(pairs, c, kept, top) && forall s :: s in kept ==> s <= top
    ensures Describes(pairs, c, kept)
    decreases |pairs|
  {
    if pairs == [] {
    } else {
      DescribesAll(pairs[1..], c + pairs[0].0 + pairs[0].1 + 2, kept, top);
    }
  }

  /** The numbers of an honest acknowledgment are below what its buffer is. */
  lemma {:induction false} DescribedSmall(pairs: seq<(nat, nat)>, c: nat, kept: set<nat>)
    requires Describes(pairs, c, kept) && forall s :: s in kept ==> s < LIMIT
    ensures Small(pairs)
    decreases |pairs|
  {
    if pairs == [] {
    } else {
      var next := c + pairs[0].0 + pairs[0].1 + 2;
      assert next in kept;
      DescribedSmall(pairs[1..], next, kept);
    }
  }

  lemma {:induction false} FlattenMore(pairs: seq<(nat, nat)>, a: nat, b: nat)
    ensures Flatten(pairs + [(a, b)]) == Flatten(pairs) + [a, b]
  {
    var all := pairs + [(a, b)];
    if pairs == [] {
      assert all[0] == (a, b) && all[1..] == [];
    } else {
      FlattenMore(pairs[1..], a, b);
      assert all[0] == pairs[0] && all[1..] == pairs[1..] + [(a, b)];
    }
  }

  /** Stages counted by the ranges: the last one reported is `c + Span`. */
  function Span(pairs: seq<(nat, nat)>): nat
  {
    if pairs == [] then 0 else pairs[0].0 + pairs[0].1 + 2 + Span(pairs[1..])
  }

  /** `Lost` carries the last stage of the received run behind the hole. */
  datatype Verdict = Received | Lost(until: nat) | Unknown

  /** What the ranges after `c` let a sender that sent `limit` stages conclude about stage `s`.
      Stages behind the last hole are left open, and so is all from a hole never sent. */
  function Judge(c: nat, pairs: seq<(nat, nat)>, limit: nat, s: nat): Verdict
    decreases |pairs|
  {
    if pairs == [] || c + 1 > limit then Unknown
    else if s <= c then Received
    else if s <= c + pairs[0].0 + 1 then Lost(c + pairs[0].0 + pairs[0].1 + 2)
    else Judge(c + pairs[0].0 + pairs[0].1 + 2, pairs[1..], limit, s)
  }

  lemma {:induction false} TopIsGreatest(pairs: seq<(nat, nat)>, c: nat, kept: set<nat>)
    requires Describes(pairs, c, kept)
    ensures forall s :: s in kept ==> s <= c + Span(pairs)
    ensures pairs != [] ==> c + Span(pairs) in kept
    decreases |pairs|
  {
    if pairs == [] {
    } else {
      TopIsGreatest(pairs[1..], c + pairs[0].0 + pairs[0].1 + 2, kept);
    }
  }

  /** Stage `s` or a later one the sender sent is missing while a still later one, up to `top`, was received. */
  ghost predicate BelowHole(s: nat, kept: set<nat>, top: nat, limit: nat)
  {
    exists t :: s <= t < top && t <= limit && t !in kept
  }

  /** The verdicts, told by the buffer described: lost are exactly the stages missing below the highest one
      buffered, received exactly the buffered ones below the last hole, and nothing is known of the others. */
  lemma {:induction false} VerdictsAreTrue(pairs: seq<(nat, nat)>, c: nat, kept: set<nat>, limit: nat, s: nat)
    requires Describes(pairs, c, kept) && c < s <= limit
    ensures Judge(c, pairs, limit, s).Lost? <==> s !in kept && s < c + Span(pairs)
    ensures Judge(c, pairs, limit, s).Received? <==> s in kept && BelowHole(s, kept, c + Span(pairs), limit)
    ensures Judge(c, pairs, limit, s).Unknown? <==> !BelowHole(s, kept, c + Span(pairs), limit)
    decreases |pairs|
  {
    if pairs == [] {
    } else {
      var missing, top := c + pairs[0].0 + 1, c + pairs[0].0 + pairs[0].1 + 2;
      TopIsGreatest(pairs, c, kept);
      if s <= missing {
        assert s !in kept && s < c + Span(pairs);
      } else if s > top {
        VerdictsAreTrue(pairs[1..], top, kept, limit, s);
      } else if pairs[1..] == [] {
        assert Judge(c, pairs, limit, s) == Judge(top, [], limit, s);
      } else {
        NothingRightAfter(pairs[1..], top, kept);
        assert top + 1 < c + Span(pairs);
        assert top + 1 <= limit ==> BelowHole(s, kept, c + Span(pairs), limit);
      }
    }
  }

  /** The round trip of the ranges: what comes off the wire for a buffer lets the sender conclude that exactly
      the stages missing below the highest one buffered are lost, and that one is the highest it counts. */
  lemma RangesRoundTrip(a: Ack, kept: set<nat>, limit: nat, s: nat, pad: byte)
    requires a.room < LIMIT && a.stage < LIMIT && Small(a.pairs)
    requires Describes(a.pairs, a.stage, kept) && a.stage < s <= limit
    requires forall t :: t in kept ==> a.stage < t <= limit
    ensures var b := ParseAck(AckBytes(a), pad);
            && b == a
            && (Judge(b.stage, b.pairs, limit, s).Lost? <==> s !in kept && exists t :: t in kept && s < t)
            && (forall t :: t in kept ==> t <= b.stage + Span(b.pairs))
            && (kept != {} ==> b.stage + Span(b.pairs) in kept)
  {
    AckRoundTrip(a, pad);
    TopIsGreatest(a.pairs, a.stage, kept);
    VerdictsAreTrue(a.pairs, a.stage, kept, limit, s);
  }

  /** Stage `t` is in one of the received runs the ranges after `c` list. */
  predicate InRuns(c: nat, pairs: seq<(nat, nat)>, t: nat)
    decreases |pairs|
  {
    pairs != [] &&
    var missing, top := c + pairs[0].0 + 1, c + pairs[0].0 + pairs[0].1 + 2;
    (missing < t <= top || InRuns(top, pairs[1..], t))
  }

  lemma {:induction false} RunsAreKept(c: nat, pairs: seq<(nat, nat)>, kept: set<nat>, t: nat)
    requires Describes(pairs, c, kept) && InRuns(c, pairs, t)
    ensures t in kept
    decreases |pairs|
  {
    var missing, top := c + pairs[0].0 + 1, c + pairs[0].0 + pairs[0].1 + 2;
    if missing < t <= top {
    } else {
      RunsAreKept(top, pairs[1..], kept, t);
    }
  }

  lemma {:induction false} ReceivedInRuns(c: nat, pairs: seq<(nat, nat)>, limit: nat, s: nat)
    requires s > c && Judge(c, pairs, limit, s).Received?
    ensures InRuns(c, pairs, s)
    decreases |pairs|
  {
    var missing, top := c + pairs[0].0 + 1, c + pairs[0].0 + pairs[0].1 + 2;
    if missing < s <= top {
    } else {
      ReceivedInRuns(top, pairs[1..], limit, s);
    }
  }

  /** The ranges of a buffer are determined by it. */
  lemma {:induction false} DescriptionUnique(p: seq<(nat, nat)>, q: seq<(nat, nat)>, c: nat, kept: set<nat>)
    requires Describes(p, c, kept) && Describes(q, c, kept)
    ensures p == q
    decreases |p|
  {
    TopIsGreatest(p, c, kept);
    TopIsGreatest(q, c, kept);
    if p == [] || q == [] {
    } else {
      assert c + p[0].0 + 2 in kept && c + q[0].0 + 2 in kept;
      assert p[0].0 == q[0].0;
      var x, y := c + p[0].0 + p[0].1 + 2, c + q[0].0 + q[0].1 + 2;
      NothingRightAfter(p[1..], x, kept);
      NothingRightAfter(q[1..], y, kept);
      assert x == y;
      DescriptionUnique(p[1..], q[1..], x, kept);
    }
  }

  lemma NothingRightAfter(p: seq<(nat, nat)>, c: nat, kept: set<nat>)
    requires Describes(p, c, kept)
    ensures c + 1 !in kept
  {}

  // --- the window of a sender, and what an acknowledgment does to it ---

  datatype Item = Item(bytes: seq<byte>, repeatable: bool)

  /** A sender: all fragments ever sent by stage, the stages acknowledged, the outstanding
      fragments, the messages sent, and those still queued. */
  datatype Link = Link(log: seq<Fragment>, acked: nat, window: seq<Out>, history: seq<seq<byte>>, pending: seq<Item>)

  /** The outstanding fragments, counted from the first unacknowledged stage, are what was first
      sent under those stages; and the stages read in order give the messages sent. */
  ghost predicate Consistent(v: Link)
  {
    && |v.log| == v.acked + |v.window|
    && Outstanding(v.window, v.log, v.acked)
    && Sensible(v.log)
    && Assemble(v.log) == Assembly(v.history, None)
    && NonEmpty(v.pending)
  }

  /** The window, counted from the first unacknowledged stage, is what was first sent under those stages. */
  ghost predicate Outstanding(w: seq<Out>, log: seq<Fragment>, acked: nat)
    requires |log| == acked + |w|
  {
    forall i :: 0 <= i < |w| ==> w[i].frag == log[acked + i]
  }

  predicate NonEmpty(items: seq<Item>) { forall i :: 0 <= i < |items| ==> items[i].bytes != [] }

  /** No hole that begins below the last stage acknowledged is wider than one stage. So it is for every
      acknowledgment at least as new as that stage. */
  predicate Legible(c: nat, pairs: seq<(nat, nat)>, acked: nat)
    decreases |pairs|
  {
    c + 1 >= acked || pairs == [] || (pairs[0].0 == 0 && Legible(c + pairs[0].1 + 2, pairs[1..], acked))
  }

  /** Said of the receiver's buffer: below the last stage acknowledged since, the receiver never missed a
      stage together with the next one while it held a later one. */
  lemma {:induction false} LegibleIff(c: nat, pairs: seq<(nat, nat)>, kept: set<nat>, acked: nat)
    requires Describes(pairs, c, kept)
    ensures Legible(c, pairs, acked) <==>
              forall s :: c < s < acked && s !in kept && s + 1 !in kept ==> s + 1 >= c + Span(pairs)
    decreases |pairs|
  {
    TopIsGreatest(pairs, c, kept);
    if c + 1 < acked && pairs != [] {
      var missing, top := c + pairs[0].0 + 1, c + pairs[0].0 + pairs[0].1 + 2;
      assert c + Span(pairs) == top + Span(pairs[1..]);
      if pairs[0].0 > 0 {
        assert c + 1 !in kept && c + 1 + 1 !in kept && c + 2 < c + Span(pairs);
      } else {
        LegibleIff(top, pairs[1..], kept, acked);
        assert top in kept && c + 1 + 1 in kept;
      }
    }
  }

  /** The highest stage the sender takes an acknowledgment to report. */
  function Top(v: Link, a: Ack): nat
  {
    (if a.stage > v.acked then a.stage else v.acked) + Span(a.pairs)
  }

  /** About stages the sender sent, legible to it, and without 32-bit overflow. */
  predicate Current(v: Link, a: Ack)
  {
    a.stage <= |v.log| && Top(v, a) < 0x1_0000_0000 && Legible(a.stage, a.pairs, v.acked)
  }

  /** An acknowledgment of stages never sent, or a stale one the sender misreads. */
  predicate Astray(v: Link, a: Ack)
  {
    a.stage > |v.log| || (Top(v, a) < 0x1_0000_0000 && !Legible(a.stage, a.pairs, v.acked))
  }

  predicate Releasable(a: Ack, limit: nat, s: nat, o: Out)
  {
    var j := Judge(a.stage, a.pairs, limit, s);
    s <= a.stage || j.Received? || (j.Lost? && !o.repeatable)
  }

  predicate Resent(a: Ack, top: nat, limit: nat, s: nat, o: Out)
  {
    var j := Judge(a.stage, a.pairs, limit, s);
    j.Lost? && o.repeatable && o.sentAt < top && j.until != s + 2
  }

  function Treated(a: Ack, top: nat, limit: nat, s: nat, o: Out): Out
  {
    if Resent(a, top, limit, s, o) then o.(sentAt := limit) else o
  }

  /** The stages repeated among window positions lo to hi - 1, position i being stage base + 1 + i. */
  function Repeats(a: Ack, top: nat, limit: nat, w: seq<Out>, base: nat, lo: nat, hi: nat): seq<nat>
    requires lo <= hi <= |w|
    decreases hi - lo
  {
    if lo == hi then []
    else
      Repeats(a, top, limit, w, base, lo, hi - 1)
      + if Resent(a, top, limit, base + hi, w[hi - 1]) then [base + hi] else []
  }

  /** The stages judged lost among the `n` behind stage `base`. */
  function GivenUp(a: Ack, limit: nat, base: nat, n: nat): seq<nat>
  {
    if n == 0 then []
    else
      GivenUp(a, limit, base, n - 1)
      + if base + n > a.stage && Judge(a.stage, a.pairs, limit, base + n).Lost? then [base + n] else []
  }

  function Stages(segs: seq<Segment>): seq<nat> { seq(|segs|, i requires 0 <= i < |segs| => segs[i].stage) }

  /** What a current acknowledgment does, stage by stage: the longest run of releasable fragments
      leaves the window, and exactly the fragments to be repeated are, in stage order. */
  ghost predicate Settled(v: Link, v': Link, a: Ack, segs: seq<Segment>)
  {
    var top, limit, k := Top(v, a), |v.log|, v'.acked - v.acked;
    && 0 <= k <= |v.window|
    && (forall i :: 0 <= i < k ==> Releasable(a, limit, v.acked + 1 + i, v.window[i]))
    && (k < |v.window| ==> !Releasable(a, limit, v.acked + 1 + k, v.window[k]))
    && |v'.window| == |v.window| - k
    && (forall i :: 0 <= i < |v'.window| ==>
          v'.window[i] == Treated(a, top, limit, v.acked + k + 1 + i, v.window[k + i]))
    && Stages(segs) == Repeats(a, top, limit, v.window, v.acked, k, |v.window|)
  }

  /** What any acknowledgment at all does: some fragments leave in front, the others only change date. */
  ghost predicate Shifted(v: Link, v': Link)
  {
    var k := v'.acked - v.acked;
    && 0 <= k <= |v.window|
    && |v'.window| == |v.window| - k
    && (forall i :: 0 <= i < |v'.window| ==> v'.window[i].(sentAt := 0) == v.window[k + i].(sentAt := 0))
    && v'.log == v.log && v'.history == v.history && v'.pending == v.pending
  }

  lemma ShiftKeepsConsistent(v: Link, v': Link)
    requires Consistent(v) && Shifted(v, v')
    ensures Consistent(v')
  {
    var k := v'.acked - v.acked;
    forall i | 0 <= i < |v'.window| ensures v'.window[i].frag == v'.log[v'.acked + i] {
      assert v'.window[i].(sentAt := 0).frag == v.window[k + i].(sentAt := 0).frag;
    }
  }

  // --- the same, said of the receiver's buffer ---

  /** A stage judged lost stands two stages before the end of the run behind its hole exactly when the second
      stage after it is buffered and the third is not. */
  lemma {:induction false} LostUntil(pairs: seq<(nat, nat)>, c: nat, kept: set<nat>, limit: nat, s: nat)
    requires Describes(pairs, c, kept) && s > c && Judge(c, pairs, limit, s).Lost?
    ensures Judge(c, pairs, limit, s).until == s + 2 <==> s + 2 in kept && s + 3 !in kept
    decreases |pairs|
  {
    var missing, top := c + pairs[0].0 + 1, c + pairs[0].0 + pairs[0].1 + 2;
    NothingRightAfter(pairs[1..], top, kept);
    if s <= missing {
      assert top in kept && top + 1 !in kept;
    } else {
      LostUntil(pairs[1..], top, kept, limit, s);
    }
  }

  lemma {:induction false} RepeatsHas(a: Ack, top: nat, limit: nat, w: seq<Out>, base: nat, lo: nat, hi: nat, s: nat)
    requires lo <= hi <= |w|
    ensures var all := Repeats(a, top, limit, w, base, lo, hi);
            && (s in all <==> base + lo < s <= base + hi && Resent(a, top, limit, s, w[s - base - 1]))
            && (forall i :: 0 <= i < |all| ==> all[i] <= base + hi)
            && forall i, j :: 0 <= i < j < |all| ==> all[i] < all[j]
    decreases hi - lo
  {
    if lo == hi {
    } else {
      RepeatsHas(a, top, limit, w, base, lo, hi - 1, s);
    }
  }

  /** What an acknowledgment repeats, told by the buffer it describes: exactly the fragments due, in order and once
      each, whose dates are renewed; all others stay as they were. */
  lemma RepeatedIff(v: Link, v': Link, a: Ack, segs: seq<Segment>, kept: set<nat>, s: nat)
    requires Current(v, a) && Settled(v, v', a, segs) && |v.log| == v.acked + |v.window|
    requires Describes(a.pairs, a.stage, kept)
    requires v'.acked < s <= |v.log|
    ensures var o, n := v.window[s - v.acked - 1], v'.window[s - v'.acked - 1];
            && (s in Stages(segs) <==>
                  && s > a.stage && s !in kept && s < a.stage + Span(a.pairs)
                  && o.repeatable && o.sentAt < Top(v, a) && !(s + 2 in kept && s + 3 !in kept))
            && n == (if s in Stages(segs) then o.(sentAt := |v.log|) else o)
            && forall i, j :: 0 <= i < j < |segs| ==> Stages(segs)[i] < Stages(segs)[j]
  {
    var limit, k := |v.log|, v'.acked - v.acked;
    var o := v.window[s - v.acked - 1];
    RepeatsHas(a, Top(v, a), limit, v.window, v.acked, k, |v.window|, s);
    assert v'.window[s - v'.acked - 1] == Treated(a, Top(v, a), limit, v.acked + k + 1 + (s - v'.acked - 1), o);
    if s > a.stage {
      VerdictsAreTrue(a.pairs, a.stage, kept, limit, s);
      if Judge(a.stage, a.pairs, limit, s).Lost? { LostUntil(a.pairs, a.stage, kept, limit, s); }
    }
  }

  /** Stage `s` may go: it is acknowledged, or lies below the last hole and was received or cannot be repeated. */
  ghost predicate MayGo(v: Link, a: Ack, kept: set<nat>, s: nat)
    requires v.acked < s <= v.acked + |v.window|
  {
    || s <= a.stage
    || (BelowHole(s, kept, a.stage + Span(a.pairs), |v.log|) && (s in kept || !v.window[s - v.acked - 1].repeatable))
  }

  /** What an acknowledgment releases, told by the buffer it describes: exactly the longest run of stages that
      may go. */
  lemma ReleasedIff(v: Link, v': Link, a: Ack, segs: seq<Segment>, kept: set<nat>, s: nat)
    requires Current(v, a) && Settled(v, v', a, segs) && |v.log| == v.acked + |v.window|
    requires Describes(a.pairs, a.stage, kept)
    requires v.acked < s <= |v.log|
    ensures s <= v'.acked <==> forall u :: v.acked < u <= s ==> MayGo(v, a, kept, u)
  {
    forall u | v.acked < u <= |v.log|
      ensures MayGo(v, a, kept, u) <==> Releasable(a, |v.log|, u, v.window[u - v.acked - 1])
    {
      if u > a.stage {
        VerdictsAreTrue(a.pairs, a.stage, kept, |v.log|, u);
      }
    }
    hide MayGo, Releasable;
    if s <= v'.acked {
      forall u | v.acked < u <= s ensures MayGo(v, a, kept, u) {
        assert Releasable(a, |v.log|, v.acked + 1 + (u - v.acked - 1), v.window[u - v.acked - 1]);
      }
    } else {
      var u := v'.acked + 1;
      assert !Releasable(a, |v.log|, v.acked + 1 + (v'.acked - v.acked), v.window[v'.acked - v.acked]);
      assert !MayGo(v, a, kept, u);
    }
  }

  /** The stages released as lost are the missing ones behind the cumulative stage, each once and in order. */
  lemma LostIff(v: Link, v': Link, a: Ack, segs: seq<Segment>, kept: set<nat>, s: nat)
    requires Current(v, a) && Settled(v, v', a, segs) && |v.log| == v.acked + |v.window|
    requires Describes(a.pairs, a.stage, kept)
    ensures var up := GivenUp(a, |v.log|, v.acked, v'.acked - v.acked);
            && (s in up <==> v.acked < s <= v'.acked && s > a.stage && s !in kept)
            && forall i, j :: 0 <= i < j < |up| ==> up[i] < up[j]
  {
    var n := v'.acked - v.acked;
    GivenUpHas(a, |v.log|, v.acked, n, s);
    if v.acked < s <= v'.acked && s > a.stage {
      assert Releasable(a, |v.log|, v.acked + 1 + (s - v.acked - 1), v.window[s - v.acked - 1]);
      VerdictsAreTrue(a.pairs, a.stage, kept, |v.log|, s);
    }
  }

  lemma {:induction false} GivenUpHas(a: Ack, limit: nat, base: nat, n: nat, s: nat)
    ensures var up := GivenUp(a, limit, base, n);
            && (s in up <==> base < s <= base + n && s > a.stage && Judge(a.stage, a.pairs, limit, s).Lost?)
            && (forall i :: 0 <= i < |up| ==> up[i] <= base + n)
            && forall i, j :: 0 <= i < j < |up| ==> up[i] < up[j]
  {
    if n == 0 {
    } else {
      GivenUpHas(a, limit, base, n - 1, s);
    }
  }

  lemma {:induction false} GivenUpNone(a: Ack, limit: nat, base: nat, n: nat)
    requires n == 0 || base + n <= a.stage
    ensures GivenUp(a, limit, base, n) == []
  {
    if n == 0 {
    } else {
      GivenUpNone(a, limit, base, n - 1);
    }
  }

  /** Soundness: a repeatable fragment leaves the window only when the acknowledgment reports it
      received, an unrepeatable one only when it reports it received or lost. */
  lemma AckSoundness(v: Link, v': Link, a: Ack, segs: seq<Segment>, kept: set<nat>, s: nat)
    requires Current(v, a) && Settled(v, v', a, segs)
    requires Describes(a.pairs, a.stage, kept) && |v.log| == v.acked + |v.window|
    requires v.acked < s <= v'.acked
    ensures v.window[s - v.acked - 1].repeatable ==> s <= a.stage || s in kept
    ensures s <= a.stage || s in kept || s < a.stage + Span(a.pairs)
  {
    assert Releasable(a, |v.log|, v.acked + 1 + (s - v.acked - 1), v.window[s - v.acked - 1]);
    if s > a.stage {
      VerdictsAreTrue(a.pairs, a.stage, kept, |v.log|, s);
    }
  }

  ghost predicate AllRepeatable(w: seq<Out>) { forall i :: 0 <= i < |w| ==> w[i].repeatable }

  /** When every fragment is repeatable, an acknowledgment not older than what the sender knows releases
      exactly its cumulative part. */
  lemma RepeatableReleasesCumulative(v: Link, v': Link, a: Ack, segs: seq<Segment>)
    requires Current(v, a) && Settled(v, v', a, segs) && AllRepeatable(v.window)
    requires |v.log| == v.acked + |v.window| && v.acked <= a.stage
    ensures v'.acked == a.stage
  {
    var limit := |v.log|;
    var c := a.stage - v.acked;
    if c < |v.window| {
      assert !Releasable(a, limit, v.acked + 1 + c, v.window[c]);
    }
  }

  lemma {:induction false} NoRepeats(a: Ack, top: nat, limit: nat, w: seq<Out>, base: nat, lo: nat, hi: nat)
    requires lo <= hi <= |w|
    requires forall i :: lo <= i < hi ==> !Resent(a, top, limit, base + 1 + i, w[i])
    ensures Repeats(a, top, limit, w, base, lo, hi) == []
    decreases hi - lo
  {
    if lo == hi {
    } else {
      NoRepeats(a, top, limit, w, base, lo, hi - 1);
      assert !Resent(a, top, limit, base + 1 + (hi - 1), w[hi - 1]);
    }
  }

  /** After an acknowledgment that reports only stages already sent, no fragment is due again. */
  lemma NothingDueTwice(v: Link, v': Link, a: Ack, segs: seq<Segment>)
    requires Settled(v, v', a, segs) && Top(v, a) <= |v.log|
    ensures forall i :: 0 <= i < |v'.window| ==> !Resent(a, Top(v, a), |v.log|, v'.acked + 1 + i, v'.window[i])
  {
    var k := v'.acked - v.acked;
    forall i | 0 <= i < |v'.window| ensures !Resent(a, Top(v, a), |v.log|, v'.acked + 1 + i, v'.window[i]) {
      assert v'.window[i] == Treated(a, Top(v, a), |v.log|, v.acked + k + 1 + i, v.window[k + i]);
    }
  }

  /** Idempotence: the same honest acknowledgment a second time changes nothing and repeats nothing. */
  lemma AckIdempotent(v: Link, v1: Link, v2: Link, a: Ack, segs1: seq<Segment>, segs2: seq<Segment>)
    requires Current(v, a) && AllRepeatable(v.window) && |v.log| == v.acked + |v.window|
    requires v.acked <= a.stage && a.stage + Span(a.pairs) <= |v.log|
    requires Settled(v, v1, a, segs1) && Shifted(v, v1)
    requires Settled(v1, v2, a, segs2) && Shifted(v1, v2)
    ensures v2 == v1 && segs2 == []
  {
    RepeatableReleasesCumulative(v, v1, a, segs1);
    StillRepeatable(v, v1);
    RepeatableReleasesCumulative(v1, v2, a, segs2);
    NothingDueTwice(v, v1, a, segs1);
    NothingHappens(v1, v2, a, segs2);
  }

  lemma NothingHappens(v: Link, v': Link, a: Ack, segs: seq<Segment>)
    requires Settled(v, v', a, segs) && Shifted(v, v') && v'.acked == v.acked
    requires forall i :: 0 <= i < |v.window| ==> !Resent(a, Top(v, a), |v.log|, v.acked + 1 + i, v.window[i])
    ensures v' == v && segs == []
  {
    hide Resent, Repeats, Releasable;
    NoRepeats(a, Top(v, a), |v.log|, v.window, v.acked, 0, |v.window|);
    assert |Stages(segs)| == |segs|;
    forall i | 0 <= i < |v'.window| ensures v'.window[i] == v.window[i] {
      assert v'.window[i] == Treated(a, Top(v, a), |v.log|, v.acked + 0 + 1 + i, v.window[0 + i]);
    }
    assert v'.window == v.window;
  }

  lemma StillRepeatable(v: Link, v': Link)
    requires Shifted(v, v') && AllRepeatable(v.window)
    ensures AllRepeatable(v'.window)
  {
    var k := v'.acked - v.acked;
    forall i | 0 <= i < |v'.window| ensures v'.window[i].repeatable {
      assert v'.window[i].(sentAt := 0).repeatable == v.window[k + i].(sentAt := 0).repeatable;
    }
  }
}
