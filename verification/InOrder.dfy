/** Receiving when no stage is ever given up: everything is delivered in order, and the order of
    arrival does not matter. */
module InOrder {
  import opened Codec
  import opened Wire
  import opened Reassembly
  import opened Receiver

  /** The fragment does not ask for stages to be given up that have not arrived. */
  predicate Patient(r: Rcv, s: nat, delta: nat) { s <= r.stage + delta }

  // --- exactly what was sent so far ---

  function Dispatched(ms: seq<seq<byte>>): seq<seq<byte>>
  {
    if ms == [] then []
    else Dispatched(ms[..|ms| - 1]) + if Dispatchable(ms[|ms| - 1]) then [ms[|ms| - 1]] else []
  }

  function Bytes(ds: seq<Delivery>): seq<seq<byte>>
  {
    seq(|ds|, i requires 0 <= i < |ds| => ds[i].bytes)
  }

  lemma {:induction false} DispatchedPrefix(ms: seq<seq<byte>>, n: nat)
    requires n <= |ms|
    ensures Dispatched(ms[..n]) <= Dispatched(ms)
  {
    if n < |ms| {
      DispatchedPrefix(ms[..|ms| - 1], n);
      assert ms[..|ms| - 1][..n] == ms[..n];
    } else {
      assert ms[..n] == ms;
    }
  }

  /** The receiver has delivered all messages of its stages and is in the middle of the one under
      way; nothing was lost. */
  ghost predicate Exact(r: Rcv, log: seq<Fragment>)
  {
    && r.stage <= |log| && r.lost == 0
    && Assemble(log[..r.stage]).open == (if r.partial.Some? then Some(r.partial.value.bytes) else None)
    && Bytes(r.delivered) == Dispatched(Assemble(log[..r.stage]).done)
  }

  /** The next stage, handed in as it was sent. */
  lemma SortedInOrder(r: Rcv, p: Piece, open: Option<seq<byte>>)
    requires !p.flags.abandon && (p.flags.before <==> open.Some?)
    requires open == if r.partial.Some? then Some(r.partial.value.bytes) else None
    ensures var r1, content := Sorted(r, r.stage + 1, p), Joined(open, p);
            && r1.stage == r.stage + 1 && r1.lost == r.lost
            && (if r1.partial.Some? then Some(r1.partial.value.bytes) else None)
               == (if p.flags.after then Some(content) else None)
            && Bytes(r1.delivered)
               == Bytes(r.delivered) + if !p.flags.after && Dispatchable(content) then [content] else []
  {}

  lemma SortedExact(r: Rcv, log: seq<Fragment>, p: Piece)
    requires Sensible(log) && Exact(r, log) && r.stage < |log| && Matches(p, log[r.stage])
    ensures Exact(Sorted(r, r.stage + 1, p), log) && Sorted(r, r.stage + 1, p).stage == r.stage + 1
  {
    var a := Assemble(log[..r.stage]);
    StepAt(log, r.stage + 1);
    SortedInOrder(r, p, a.open);
    hide Sorted, Assemble;
    assert (a.done + [Joined(a.open, p)])[..|a.done|] == a.done;
  }

  lemma ExactIgnoresBuffer(r: Rcv, log: seq<Fragment>, b: map<nat, Piece>)
    requires Exact(r, log)
    ensures Exact(r.(buffer := b), log) && r.stage <= |log|
  {}

  /** The next stage, pulled from the buffer, is the next fragment of the log; the rest stays ahead. */
  lemma PullAhead(r: Rcv, log: seq<Fragment>)
    requires Ahead(r, log) && !r.completed && r.stage + 1 in r.buffer
    ensures r.stage < |log| && Matches(r.buffer[r.stage + 1], log[r.stage])
    ensures Ahead(Pull(r, r.stage + 1), log) && |Pull(r, r.stage + 1).buffer| < |r.buffer|
    ensures Pull(r, r.stage + 1) == Sorted(r.(buffer := r.buffer - {r.stage + 1}), r.stage + 1, r.buffer[r.stage + 1])
  {
    hide Sorted, Matches;
    PullShrinks(r, r.stage + 1);
    SortedShape(r.(buffer := r.buffer - {r.stage + 1}), r.stage + 1, r.buffer[r.stage + 1]);
  }

  lemma {:induction false} DrainExact(r: Rcv, log: seq<Fragment>)
    requires Sensible(log) && Exact(r, log) && Ahead(r, log)
    ensures Exact(Drain(r), log)
    decreases |r.buffer|
  {
    hide Sorted, Exact, Ahead, Matches, Sensible, Pull;
    if r.completed || r.stage + 1 !in r.buffer {
    } else {
      var s := r.stage + 1;
      PullAhead(r, log);
      ExactIgnoresBuffer(r, log, r.buffer - {s});
      SortedExact(r.(buffer := r.buffer - {s}), log, r.buffer[s]);
      DrainExact(Pull(r, s), log);
    }
  }

  /** Any fragment sent, at any time, keeps the deliveries exactly those of the stages reached. */
  lemma ReceiveExact(r: Rcv, log: seq<Fragment>, s: nat, delta: nat, p: Piece)
    requires Sensible(log) && Exact(r, log) && Ahead(r, log) && AtRest(r)
    requires 1 <= s <= |log| && Matches(p, log[s - 1]) && Patient(r, s, delta)
    ensures Exact(Receive(r, s, delta, p), log)
    ensures r.stage <= Receive(r, s, delta, p).stage
  {
    hide Sorted, Exact, Drain, Sensible, Assemble, Bytes, Matches;
    if s != r.stage + 1 {
      ReceiveAside(r, s, delta, p);
      ExactIgnoresBuffer(r, log, Receive(r, s, delta, p).buffer);
    } else if !r.completed {
      SortedExact(r, log, p);
      SortedShape(r, s, p);
      DrainExact(Sorted(r, s, p), log);
      DrainAdvances(Sorted(r, s, p));
    }
  }

  /** A patient fragment out of turn changes the buffer at most. */
  lemma ReceiveAside(r: Rcv, s: nat, delta: nat, p: Piece)
    requires Patient(r, s, delta) && AtRest(r) && s != r.stage + 1
    ensures Receive(r, s, delta, p) == r.(buffer := Receive(r, s, delta, p).buffer)
  {}

  /** Every stage the receiver has passed or holds, it still has after one more, unless the flow is completed. */
  ghost predicate Keeps(r: Rcv, r': Rcv)
  {
    r'.completed || forall t :: t <= r.stage || t in r.buffer ==> t <= r'.stage || t in r'.buffer
  }

  lemma {:induction false} DrainKeeps(r: Rcv)
    ensures Keeps(r, Drain(r))
    decreases |r.buffer|
  {
    hide Sorted;
    if r.completed || r.stage + 1 !in r.buffer {
    } else {
      var s := r.stage + 1;
      PullShrinks(r, s);
      SortedShape(r.(buffer := r.buffer - {s}), s, r.buffer[s]);
      DrainKeeps(Pull(r, s));
    }
  }

  lemma DrainCompleted(r: Rcv)
    requires r.completed
    ensures Drain(r) == r
  {}

  lemma ReceiveKeeps(r: Rcv, s: nat, delta: nat, p: Piece)
    requires Patient(r, s, delta) && AtRest(r)
    ensures Keeps(r, Receive(r, s, delta, p))
  {
    hide Sorted, Drain;
    if s != r.stage + 1 {
      ReceiveAside(r, s, delta, p);
    } else if !r.completed {
      SortedShape(r, s, p);
      DrainKeeps(Sorted(r, s, p));
      if Sorted(r, s, p).completed { DrainCompleted(Sorted(r, s, p)); }
    }
  }

  lemma {:induction false} DrainAdvances(r: Rcv)
    ensures r.stage <= Drain(r).stage
    decreases |r.buffer|
  {
    if r.completed || r.stage + 1 !in r.buffer {
    } else {
      PullShrinks(r, r.stage + 1);
      SortedShape(r.(buffer := r.buffer - {r.stage + 1}), r.stage + 1, r.buffer[r.stage + 1]);
      DrainAdvances(Pull(r, r.stage + 1));
    }
  }

  /** So the messages handed over are a prefix of the messages sent. */
  lemma ExactIsPrefix(r: Rcv, log: seq<Fragment>)
    requires Exact(r, log)
    ensures Bytes(r.delivered) <= Dispatched(Assemble(log).done)
    ensures r.stage == |log| ==> Bytes(r.delivered) == Dispatched(Assemble(log).done)
  {
    var all, some := Assemble(log).done, Assemble(log[..r.stage]).done;
    DonePrefix(log, r.stage, |log|);
    assert log[..|log|] == log;
    assert all[..|some|] == some;
    DispatchedPrefix(all, |some|);
  }

  // --- confluence ---

  /** Stages 1 to k processed in order. */
  function InTurn(log: seq<Piece>, k: nat): Rcv
    requires k <= |log|
  {
    if k == 0 then INIT else Sorted(InTurn(log, k - 1), k, log[k - 1])
  }

  /** The last stage up to `n` reached from `k` through stages of `have` without a gap. */
  function Reach(have: set<nat>, k: nat, n: nat): (m: nat)
    requires k <= n
    ensures k <= m <= n
    decreases n - k
  {
    if k < n && k + 1 in have then Reach(have, k + 1, n) else k
  }

  function Kept(log: seq<Piece>, have: set<nat>, k: nat): map<nat, Piece>
  {
    map s | s in have && k < s <= |log| :: log[s - 1]
  }

  /** The state that having received the stages of `have` means: those without a gap are processed,
      the others wait. */
  function StateOf(log: seq<Piece>, have: set<nat>): Rcv
  {
    var k := Reach(have, 0, |log|);
    InTurn(log, k).(buffer := Kept(log, have, k))
  }

  predicate NoEnd(log: seq<Piece>) { forall i :: 0 <= i < |log| ==> !log[i].flags.end }

  lemma FinishOpenEnded(r: Rcv, b: map<nat, Piece>, bytes: seq<byte>, n: nat)
    ensures Finish(r.(buffer := b), bytes, n, false) == Finish(r, bytes, n, false).(buffer := b)
    ensures Finish(r, bytes, n, false).completed == r.completed && Finish(r, bytes, n, false).stage == r.stage
  {}

  lemma ContentOpenEnded(r: Rcv, b: map<nat, Piece>, p: Piece)
    requires !p.flags.end
    ensures Content(r.(buffer := b), p) == Content(r, p).(buffer := b)
    ensures Content(r, p).completed == r.completed && Content(r, p).stage == r.stage
  {
    hide Finish;
    if p.flags.before && r.partial.Some? {
      var n := (r.partial.value.fragments + 1) % 0x1_0000;
      var r1 := if n == 0 then r.(wraps := r.wraps + 1) else r;
      FinishOpenEnded(r1.(partial := None), b, r.partial.value.bytes + p.payload, n);
    } else {
      FinishOpenEnded(r.(partial := None, discarded := r.discarded + Held(r)), b, p.payload, 1);
    }
  }

  lemma SortedOpenEnded(r: Rcv, b: map<nat, Piece>, s: nat, p: Piece)
    requires !p.flags.end
    ensures Sorted(r.(buffer := b), s, p) == Sorted(r, s, p).(buffer := b)
    ensures Sorted(r, s, p).completed == r.completed
    ensures Sorted(r, s, p).stage == if s <= r.stage then r.stage else s
  {
    hide Content;
    if s == r.stage + 1 {
      ContentOpenEnded(Arrived(r, s, p), b, p);
    } else if s > r.stage {
      var lost := r.lost + (s - r.stage - 1);
      ContentOpenEnded(Arrived(r, s, p).(partial := None, discarded := r.discarded + Held(r), lost := lost), b, p);
    }
  }

  lemma {:induction false} InTurnShape(log: seq<Piece>, k: nat)
    requires NoEnd(log) && k <= |log|
    ensures InTurn(log, k).stage == k && !InTurn(log, k).completed
  {
    hide Sorted;
    if k == 0 {
    } else {
      InTurnShape(log, k - 1);
      SortedOpenEnded(InTurn(log, k - 1), map[], k, log[k - 1]);
    }
  }

  lemma PullNext(log: seq<Piece>, have: set<nat>, k: nat)
    requires NoEnd(log) && k < |log| && k + 1 in have
    ensures var r := InTurn(log, k).(buffer := Kept(log, have, k));
            k + 1 in r.buffer && Pull(r, k + 1) == InTurn(log, k + 1).(buffer := Kept(log, have, k + 1))
  {
    hide Sorted;
    var r := InTurn(log, k).(buffer := Kept(log, have, k));
    assert r.buffer - {k + 1} == Kept(log, have, k + 1);
    SortedOpenEnded(InTurn(log, k), Kept(log, have, k + 1), k + 1, log[k]);
  }

  lemma {:induction false} DrainReaches(log: seq<Piece>, have: set<nat>, k: nat)
    requires NoEnd(log) && k <= |log|
    ensures var m := Reach(have, k, |log|);
            Drain(InTurn(log, k).(buffer := Kept(log, have, k))) == InTurn(log, m).(buffer := Kept(log, have, m))
    decreases |log| - k
  {
    hide Sorted, Pull;
    InTurnShape(log, k);
    if k == |log| || k + 1 !in have {
    } else {
      PullNext(log, have, k);
      DrainReaches(log, have, k + 1);
    }
  }

  lemma {:induction false} ReachStops(have: set<nat>, k: nat, n: nat)
    requires k <= n
    ensures Reach(have, k, n) < n ==> Reach(have, k, n) + 1 !in have
    ensures forall s :: k < s <= Reach(have, k, n) ==> s in have
    decreases n - k
  {
    if k == n || k + 1 !in have {
    } else {
      ReachStops(have, k + 1, n);
    }
  }

  lemma {:induction false} ReachMore(have: set<nat>, s: nat, k: nat, n: nat)
    requires k <= n
    ensures s != Reach(have, k, n) + 1 ==> Reach(have + {s}, k, n) == Reach(have, k, n)
    ensures s == Reach(have, k, n) + 1 <= n ==> Reach(have + {s}, k, n) == Reach(have + {s}, s, n)
    decreases n - k
  {
    if k == n || k + 1 !in have {
    } else {
      ReachMore(have, s, k + 1, n);
    }
  }

  lemma ReceiveNext(log: seq<Piece>, have: set<nat>, delta: nat)
    requires NoEnd(log)
    requires var k := Reach(have, 0, |log|); k < |log| && Patient(StateOf(log, have), k + 1, delta)
    ensures var k := Reach(have, 0, |log|);
            Receive(StateOf(log, have), k + 1, delta, log[k]) == StateOf(log, have + {k + 1})
  {
    hide Sorted, Drain, Reach;
    var r, k := StateOf(log, have), Reach(have, 0, |log|);
    InTurnShape(log, k);
    ReachStops(have, 0, |log|);
    ReachMore(have, k + 1, 0, |log|);
    assert r.buffer == Kept(log, have + {k + 1}, k + 1);
    SortedOpenEnded(InTurn(log, k), r.buffer, k + 1, log[k]);
    DrainReaches(log, have + {k + 1}, k + 1);
  }

  /** One more fragment takes the state of a set of stages to the state of the larger set. */
  lemma ReceiveOneMore(log: seq<Piece>, have: set<nat>, s: nat, delta: nat)
    requires NoEnd(log) && 1 <= s <= |log| && Patient(StateOf(log, have), s, delta)
    ensures Receive(StateOf(log, have), s, delta, log[s - 1]) == StateOf(log, have + {s})
  {
    hide Sorted, Drain, Reach;
    var k := Reach(have, 0, |log|);
    if s == k + 1 {
      ReceiveNext(log, have, delta);
    } else {
      InTurnShape(log, k);
      ReachStops(have, 0, |log|);
      ReachMore(have, s, 0, |log|);
      if s <= k {
        assert have + {s} == have;
      } else if s in have {
        assert have + {s} == have;
      } else {
        assert Kept(log, have + {s}, k) == Kept(log, have, k)[s := log[s - 1]];
      }
    }
  }

  function StagesIn(segs: seq<Segment>): set<nat> { set g | g in segs :: g.stage }

  /** The fragment is one of `log`, and gives up no stage when it arrives. */
  ghost predicate PatientAt(log: seq<Piece>, segs: seq<Segment>, i: nat)
    requires i < |segs|
  {
    && 1 <= segs[i].stage <= |log| && log[segs[i].stage - 1] == Piece(segs[i].flags, segs[i].payload)
    && Patient(ReceiveAll(INIT, segs[..i]), segs[i].stage, segs[i].delta)
  }

  ghost predicate PatientRun(log: seq<Piece>, segs: seq<Segment>)
  {
    forall i :: 0 <= i < |segs| ==> PatientAt(log, segs, i)
  }

  lemma RunStarts(log: seq<Piece>)
    ensures StateOf(log, StagesIn([])) == INIT
  {
    assert Kept(log, {}, 0) == map[];
  }

  lemma StagesSnoc(segs: seq<Segment>, g: Segment)
    ensures StagesIn(segs + [g]) == StagesIn(segs) + {g.stage}
  {
    assert forall h :: h in segs + [g] <==> h in segs || h == g;
  }

  lemma PatientInit(log: seq<Piece>, segs: seq<Segment>)
    requires PatientRun(log, segs) && segs != []
    ensures PatientRun(log, segs[..|segs| - 1]) && PatientAt(log, segs, |segs| - 1)
  {
    var init := segs[..|segs| - 1];
    forall i | 0 <= i < |init| ensures PatientAt(log, init, i) {
      assert PatientAt(log, segs, i) && init[..i] == segs[..i];
    }
  }

  lemma {:induction false} RunReaches(log: seq<Piece>, segs: seq<Segment>)
    requires NoEnd(log) && PatientRun(log, segs)
    ensures ReceiveAll(INIT, segs) == StateOf(log, StagesIn(segs))
  {
    hide Receive, InTurn, Reach;
    if segs == [] {
      RunStarts(log);
    } else {
      var init, g := segs[..|segs| - 1], segs[|segs| - 1];
      PatientInit(log, segs);
      RunReaches(log, init);
      StagesSnoc(init, g);
      assert segs == init + [g];
      hide StateOf;
      ReceiveOneMore(log, StagesIn(init), g.stage, g.delta);
    }
  }

  lemma StagesKnown(log: seq<Piece>, segs: seq<Segment>)
    requires PatientRun(log, segs)
    ensures forall s :: s in StagesIn(segs) ==> 1 <= s <= |log|
  {
    forall s | s in StagesIn(segs) ensures 1 <= s <= |log| {
      var i :| 0 <= i < |segs| && segs[i].stage == s;
      assert PatientAt(log, segs, i);
    }
  }

  /** Confluence: the state depends on which stages arrived, not on their order nor on duplicates. */
  lemma {:induction false} Confluence(log: seq<Piece>, segs: seq<Segment>, segs': seq<Segment>)
    requires NoEnd(log) && PatientRun(log, segs) && PatientRun(log, segs') && StagesIn(segs) == StagesIn(segs')
    ensures ReceiveAll(INIT, segs) == ReceiveAll(INIT, segs')
    ensures var r := ReceiveAll(INIT, segs);
            && r.stage == Reach(StagesIn(segs), 0, |log|)
            && (forall s :: s in r.buffer <==> s in StagesIn(segs) && s > r.stage + 1)
  {
    hide ReceiveAll, Sorted, Reach, InTurn;
    RunReaches(log, segs);
    RunReaches(log, segs');
    InTurnShape(log, Reach(StagesIn(segs), 0, |log|));
    ReachStops(StagesIn(segs), 0, |log|);
    StagesKnown(log, segs);
  }
}
