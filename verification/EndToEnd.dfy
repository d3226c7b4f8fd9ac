/** A sender, a receiver and the network between them: what is delivered over whole runs. */
module EndToEnd {
  import opened Codec
  import opened Wire
  import opened Reassembly
  import opened Acks
  import opened FlowWriters
  import opened Receiver
  import opened InOrder
  import opened History

  /** `net` holds all fragments ever put on the network and `acks` all acknowledgments ever written, oldest
      first; the network may drop, repeat and reorder both at will. `closed` says whether the sender was closed. */
  datatype System = System(closed: bool, v: Link, net: set<Segment>, acks: seq<Ack>, r: Rcv)

  const START := System(false, Link([], 0, [], [], []), {}, [], INIT)

  function Put(net: set<Segment>, segs: seq<Segment>): set<Segment> { net + set g | g in segs }

  // --- any traffic, any acknowledgments ---

  ghost predicate Enqueue(s: System, s': System, item: Item)
  {
    !s.closed && item.bytes != [] && s' == s.(v := s.v.(pending := s.v.pending + [item]))
  }

  ghost predicate Flush(id: nat, s: System, s': System, segs: seq<Segment>)
  {
    FlushStep(id, s.closed, s.v, s'.v, segs) && s' == s.(v := s'.v, net := Put(s.net, segs))
  }

  ghost predicate Raise(id: nat, s: System, s': System, segs: seq<Segment>)
  {
    RaiseStep(id, s.closed, s.v, segs) && s' == s.(net := Put(s.net, segs))
  }

  /** The sender reads an acknowledgment; at a negative one it fails, which adds nothing to this flow. */
  ghost predicate TakeAck(id: nat, s: System, s': System, a: Ack, segs: seq<Segment>)
  {
    && s'.closed == s.closed
    && if a.room == 0 then s'.v == s.v && s'.net == s.net
       else AckStep(id, s.closed, s.v, s'.v, a, segs) && s'.net == Put(s.net, segs)
  }

  function Arrive(r: Rcv, g: Segment): Rcv { Receive(r, g.stage, g.delta, Piece(g.flags, g.payload)) }

  ghost predicate Deliver(s: System, s': System, g: Segment)
  {
    g in s.net && s' == s.(r := Arrive(s.r, g))
  }

  datatype Event =
    | Enqueued(item: Item)
    | Closed
    | Sent(segs: seq<Segment>)
    | Repeated(segs: seq<Segment>)
    | Acked(bytes: seq<byte>, segs: seq<Segment>)
    | Delivered(g: Segment)

  /** One step of a flow of any messages, whatever bytes come in as acknowledgments. */
  ghost predicate Next(id: nat, pad: byte, s: System, s': System, e: Event)
  {
    match e
    case Enqueued(item) => Enqueue(s, s', item)
    case Closed => s' == s.(closed := true)
    case Sent(segs) => Flush(id, s, s', segs)
    case Repeated(segs) => Raise(id, s, s', segs)
    case Acked(bytes, segs) => TakeAck(id, s, s', ParseAck(bytes, pad), segs) && s'.r == s.r && s'.acks == s.acks
    case Delivered(g) => Deliver(s, s', g)
  }

  /** States and the events between them. */
  ghost predicate Run(id: nat, pad: byte, states: seq<System>, events: seq<Event>)
  {
    && |states| == |events| + 1 && states[0] == START
    && forall i :: 0 <= i < |events| ==> Next(id, pad, states[i], states[i + 1], events[i])
  }

  /** A fragment on the network is one that was sent, bit for bit but for the end flag. */
  ghost predicate Genuine(g: Segment, log: seq<Fragment>)
  {
    1 <= g.stage <= |log| && Matches(Piece(g.flags, g.payload), log[g.stage - 1])
  }

  ghost predicate Truthful(s: System)
  {
    && Consistent(s.v) && Honest(s.r, s.v.log) && AtRest(s.r)
    && (forall g :: g in s.net ==> Genuine(g, s.v.log))
    && Recorded(s.r, s.v.log) && (!s.closed ==> Endless(s.net, s.r))
  }

  /** The receiver handed over what it processed, and processed what was sent. */
  ghost predicate Recorded(r: Rcv, log: seq<Fragment>)
  {
    Faithful(r) && AsSent(r.handled, log)
  }

  /** No end flag is on its way, nor arrived. */
  ghost predicate Endless(net: set<Segment>, r: Rcv)
  {
    (forall g :: g in net ==> !g.flags.end) && NoEndYet(r)
  }

  lemma RecordGrows(r: Rcv, log: seq<Fragment>, log': seq<Fragment>)
    requires Recorded(r, log) && log <= log'
    ensures Recorded(r, log')
  {
    hide Faithful;
  }

  lemma PutEndless(id: nat, net: set<Segment>, segs: seq<Segment>, log: seq<Fragment>, acked: nat, r: Rcv)
    requires Endless(net, r) && AllCarry(segs, id, false, log, acked)
    ensures Endless(Put(net, segs), r)
  {
    hide NoEndYet;
    forall g | g in Put(net, segs) ensures !g.flags.end {
      if g !in net {
        var i :| 0 <= i < |segs| && segs[i] == g;
        assert Carries(segs[i], id, false, log, acked);
      }
    }
  }

  lemma DeliverRecorded(r: Rcv, v: Link, g: Segment, net: set<Segment>)
    requires Honest(r, v.log) && AtRest(r) && Genuine(g, v.log) && Recorded(r, v.log) && g in net
    ensures Recorded(Arrive(r, g), v.log) && (Endless(net, r) ==> Endless(net, Arrive(r, g)))
  {
    hide Faithful, Receive, AsSent, NoEndYet, OpenRight, Rightful;
    ReceiveFaithful(r, g.stage, g.delta, Piece(g.flags, g.payload));
    ReceiveAsSent(r, v.log, g.stage, g.delta, Piece(g.flags, g.payload));
    if Endless(net, r) {
      ReceiveNoEnd(r, g.stage, g.delta, Piece(g.flags, g.payload));
    }
  }

  lemma SameMessageAt(log: seq<Fragment>, log': seq<Fragment>, e: nat)
    requires log <= log' && 1 <= e <= |log|
    ensures MessageAt(log', e) == MessageAt(log, e)
  {
    assert log'[..e] == log[..e];
  }

  lemma HonestGrows(r: Rcv, log: seq<Fragment>, log': seq<Fragment>)
    requires Honest(r, log) && log <= log'
    ensures Honest(r, log')
  {
    assert log'[..r.stage] == log[..r.stage];
    forall i | 0 <= i < |r.delivered|
      ensures MessageAt(log', r.delivered[i].stage) == Some(r.delivered[i].bytes)
    {
      SameMessageAt(log, log', r.delivered[i].stage);
    }
  }

  /** New fragments join the network as they were logged. */
  lemma PutGenuine(id: nat, closed: bool, net: set<Segment>, segs: seq<Segment>, log: seq<Fragment>,
                   log': seq<Fragment>, acked: nat)
    requires log <= log' && (forall g :: g in net ==> Genuine(g, log)) && AllCarry(segs, id, closed, log', acked)
    ensures forall g :: g in Put(net, segs) ==> Genuine(g, log')
  {
    forall g | g in Put(net, segs) ensures Genuine(g, log') {
      if g !in net {
        var i :| 0 <= i < |segs| && segs[i] == g;
        assert Carries(segs[i], id, closed, log', acked);
      }
    }
  }

  lemma StayTruthful(id: nat, pad: byte, s: System, s': System, e: Event)
    requires Truthful(s) && Next(id, pad, s, s', e)
    ensures Truthful(s')
  {
    hide Consistent, Honest, Receive, ParseAck, Flushed, Settled, AllCarry, Renewable, Genuine, Recorded, Endless;
    match e
    case Enqueued(item) =>
      EnqueueConsistent(s.v, item);
    case Closed =>
    case Sent(segs) =>
      assert s.v.log <= s'.v.log by { FlushGrows(s.v, s'.v, segs); }
      HonestGrows(s.r, s.v.log, s'.v.log);
      RecordGrows(s.r, s.v.log, s'.v.log);
      PutOut(id, s, segs, s'.v.log, s'.v.acked);
    case Repeated(segs) =>
      PutOut(id, s, segs, s.v.log, s.v.acked);
    case Acked(bytes, segs) =>
      if ParseAck(bytes, pad).room != 0 { PutOut(id, s, segs, s'.v.log, s'.v.acked); }
    case Delivered(g) =>
      DeliverHonest(s.r, s.v, g);
      DeliverRecorded(s.r, s.v, g, s.net);
  }

  /** What the sender puts out is genuine, and without an end flag until it is closed. */
  lemma PutOut(id: nat, s: System, segs: seq<Segment>, log: seq<Fragment>, acked: nat)
    requires Truthful(s) && s.v.log <= log && AllCarry(segs, id, s.closed, log, acked)
    ensures forall g :: g in Put(s.net, segs) ==> Genuine(g, log)
    ensures !s.closed ==> Endless(Put(s.net, segs), s.r)
  {
    hide Consistent, Honest, AllCarry, Genuine, Recorded, Endless;
    PutGenuine(id, s.closed, s.net, segs, s.v.log, log, acked);
    if !s.closed { PutEndless(id, s.net, segs, log, acked, s.r); }
  }

  lemma FlushGrows(v: Link, v': Link, segs: seq<Segment>)
    requires Flushed(v, v', segs)
    ensures v.log <= v'.log
  {}

  lemma EnqueueConsistent(v: Link, item: Item)
    requires Consistent(v) && item.bytes != []
    ensures Consistent(v.(pending := v.pending + [item]))
  {}

  lemma DeliverHonest(r: Rcv, v: Link, g: Segment)
    requires Consistent(v) && Honest(r, v.log) && AtRest(r) && Genuine(g, v.log)
    ensures Honest(Arrive(r, g), v.log) && AtRest(Arrive(r, g))
  {
    ReceiveHonest(r, v.log, g.stage, g.delta, Piece(g.flags, g.payload));
  }

  lemma StartTruthful()
    ensures Truthful(START)
  {
    hide Chained, Text;
    assert Recorded(INIT, []);
  }

  lemma {:induction false} RunTruthful(id: nat, pad: byte, states: seq<System>, events: seq<Event>, n: nat)
    requires Run(id, pad, states, events) && n < |states|
    ensures Truthful(states[n])
  {
    hide Truthful, Next;
    if n == 0 {
      StartTruthful();
    } else {
      RunTruthful(id, pad, states, events, n - 1);
      assert Next(id, pad, states[n - 1], states[n - 1 + 1], events[n - 1]);
      StayTruthful(id, pad, states[n - 1], states[n], events[n - 1]);
    }
  }

  /** `ds` are some of the messages `ms`, in order, each at most once and byte for byte; `at` says which. */
  ghost predicate Subsequence(ds: seq<Delivery>, ms: seq<seq<byte>>, at: seq<nat>)
  {
    && |at| == |ds|
    && (forall i :: 0 <= i < |at| ==> at[i] < |ms| && ms[at[i]] == ds[i].bytes)
    && (forall i, j :: 0 <= i < j < |at| ==> at[i] < at[j])
  }

  /** Which of the messages stage `e` completes. */
  function IndexAt(log: seq<Fragment>, e: nat): nat
    requires 1 <= e <= |log|
  {
    |Assemble(log[..e - 1]).done|
  }

  lemma CompletedAt(log: seq<Fragment>, e: nat)
    requires 1 <= e <= |log| && MessageAt(log, e).Some?
    ensures IndexAt(log, e) < |Assemble(log).done| && Assemble(log).done[IndexAt(log, e)] == MessageAt(log, e).value
    ensures |Assemble(log[..e]).done| == IndexAt(log, e) + 1
  {
    AssembleNext(log, e - 1);
    DonePrefix(log, e, |log|);
    assert log[..|log|] == log;
  }

  /** At most once: over any run, with any mix of messages, any loss, duplication and reordering, and
      any bytes whatever as acknowledgments, the deliveries are a subsequence of the messages sent. */
  lemma AtMostOnce(id: nat, pad: byte, states: seq<System>, events: seq<Event>, n: nat)
    requires Run(id, pad, states, events) && n < |states|
    ensures exists at :: Subsequence(states[n].r.delivered, states[n].v.history, at)
  {
    RunTruthful(id, pad, states, events, n);
    var ds, log := states[n].r.delivered, states[n].v.log;
    hide Consistent, Assemble, MessageAt, IndexAt;
    assert states[n].v.history == Assemble(log).done by { HistoryIs(states[n].v); }
    var at := seq(|ds|, i requires 0 <= i < |ds| => IndexAt(log, ds[i].stage));
    forall i | 0 <= i < |ds| ensures at[i] < |states[n].v.history| && states[n].v.history[at[i]] == ds[i].bytes {
      CompletedAt(log, ds[i].stage);
    }
    forall i, j | 0 <= i < j < |ds| ensures at[i] < at[j] {
      CompletedAt(log, ds[i].stage);
      LaterIndex(log, ds[i].stage, ds[j].stage);
    }
    assert Subsequence(ds, states[n].v.history, at);
  }

  /** And so is, over any run, every message all of whose stages were processed; and until the sender is closed, the
      receiver takes its flow for open. */
  lemma ProcessedIsDelivered(id: nat, pad: byte, states: seq<System>, events: seq<Event>, n: nat, b: nat, e: nat)
    requires Run(id, pad, states, events) && n < |states|
    ensures !states[n].closed ==> !states[n].r.completed
    ensures var log, r := states[n].v.log, states[n].r;
            Spans(log, b, e) && AllProcessed(r, b, e) && Dispatchable(MessageAt(log, e).value) ==>
              Delivery(e, MessageAt(log, e).value, (e - b + 1) % 0x1_0000) in r.delivered
  {
    hide Consistent, Faithful, AsSent, NoEndYet, Honest, MessageAt, Spans, AllProcessed;
    RunTruthful(id, pad, states, events, n);
    var s := states[n];
    assert Sensible(s.v.log) by { LogSensible(s.v); }
    assert Recorded(s.r, s.v.log) && (!s.closed ==> Endless(s.net, s.r));
    if !s.closed { OpenUntilClosed(s); }
    if Spans(s.v.log, b, e) && AllProcessed(s.r, b, e) { PassedIsDelivered(s.r, s.v.log, b, e); }
  }

  lemma LogSensible(v: Link)
    requires Consistent(v)
    ensures Sensible(v.log)
  {}

  lemma HistoryIs(v: Link)
    requires Consistent(v)
    ensures v.history == Assemble(v.log).done
  {}

  lemma LaterIndex(log: seq<Fragment>, a: nat, b: nat)
    requires 1 <= a < b <= |log|
    ensures |Assemble(log[..a]).done| <= IndexAt(log, b)
  {
    DonePrefix(log, a, b - 1);
  }

  // --- repeatable messages ---

  datatype Signal = Sender(e: Event) | Committed(a: Ack) | AckArrived(i: nat, segs: seq<Segment>)

  /** One step of a flow of repeatable messages whose acknowledgments arrive as they were written, if at all.
      Stages stay below what the codec can carry. */
  ghost predicate RepeatableNext(id: nat, pad: byte, s: System, s': System, g: Signal)
  {
    match g
    case Sender(e) =>
      && !e.Acked? && Next(id, pad, s, s', e) && |s'.v.log| < LIMIT
      && (e.Enqueued? ==> e.item.repeatable)
    case Committed(a) =>
      && a.stage == s.r.stage && TellsRoom(a.room, false, s.r) && Describes(a.pairs, a.stage, s.r.buffer.Keys)
      && s' == s.(acks := s.acks + [a])
    case AckArrived(i, segs) =>
      && i < |s.acks| && TakeAck(id, s, s', ParseAck(AckBytes(s.acks[i]), pad), segs)
      && s'.acks == s.acks && s'.r == s.r
  }

  ghost predicate RepeatableRun(id: nat, pad: byte, states: seq<System>, signals: seq<Signal>)
  {
    && |states| == |signals| + 1 && states[0] == START
    && forall i :: 0 <= i < |signals| ==> RepeatableNext(id, pad, states[i], states[i + 1], signals[i])
  }

  /** The acknowledgment that arrives, if one does, is legible to the sender. */
  ghost predicate Clear(s: System, g: Signal)
  {
    g.AckArrived? && g.i < |s.acks| ==> Legible(s.acks[g.i].stage, s.acks[g.i].pairs, s.v.acked)
  }

  ghost predicate AllClear(states: seq<System>, signals: seq<Signal>)
    requires |states| == |signals| + 1
  {
    forall i :: 0 <= i < |signals| ==> Clear(states[i], signals[i])
  }

  /** Every stage the ranges report received is with the receiver: passed, or waiting in the buffer. */
  ghost predicate Backed(a: Ack, r: Rcv)
  {
    forall t: nat :: InRuns(a.stage, a.pairs, t) ==> t <= r.stage || t in r.buffer
  }

  /** An acknowledgment as a receiver writes it, still true of the receiver unless the flow is completed. */
  ghost predicate Sincere(a: Ack, r: Rcv)
  {
    && a.stage <= r.stage && a.room < LIMIT && Small(a.pairs) && a.stage + Span(a.pairs) < LIMIT
    && (r.completed || Backed(a, r))
  }

  ghost predicate AllSincere(acks: seq<Ack>, r: Rcv)
  {
    && (forall i :: 0 <= i < |acks| ==> Sincere(acks[i], r))
    && (forall i, j :: 0 <= i < j < |acks| ==> acks[i].stage <= acks[j].stage)
  }

  ghost predicate Unhurried(net: set<Segment>, acked: nat)
  {
    forall g :: g in net ==> g.stage <= acked + g.delta
  }

  ghost predicate Reliable(s: System)
  {
    && Truthful(s) && Exact(s.r, s.v.log) && |s.v.log| < LIMIT
    && AllRepeatable(s.v.window) && (forall i :: 0 <= i < |s.v.pending| ==> s.v.pending[i].repeatable)
    && (s.r.completed || s.v.acked <= s.r.stage) && Unhurried(s.net, s.v.acked) && AllSincere(s.acks, s.r)
  }

  lemma PutUnhurried(id: nat, closed: bool, net: set<Segment>, segs: seq<Segment>, log: seq<Fragment>, acked: nat,
                     acked': nat)
    requires Unhurried(net, acked) && AllCarry(segs, id, closed, log, acked') && acked <= acked'
    ensures Unhurried(Put(net, segs), acked')
  {
    forall g | g in Put(net, segs) ensures g.stage <= acked' + g.delta {
      if g !in net {
        var i :| 0 <= i < |segs| && segs[i] == g;
        assert Carries(segs[i], id, closed, log, acked');
      }
    }
  }

  lemma ExactGrows(r: Rcv, log: seq<Fragment>, log': seq<Fragment>)
    requires Exact(r, log) && log <= log'
    ensures Exact(r, log')
  {
    assert log'[..r.stage] == log[..r.stage];
  }

  lemma EnqueuedReliable(s: System, s': System, item: Item)
    requires Reliable(s) && Truthful(s') && Enqueue(s, s', item) && item.repeatable
    ensures Reliable(s')
  {
    hide Truthful, Exact, AllSincere, Unhurried;
  }

  lemma SentReliable(id: nat, s: System, s': System, segs: seq<Segment>)
    requires Reliable(s) && Truthful(s') && Flush(id, s, s', segs) && |s'.v.log| < LIMIT
    ensures Reliable(s')
  {
    hide Truthful, Exact, AllSincere, Unhurried, AllCarry, Consistent, NewlyDated, Numbered;
    ExactGrows(s.r, s.v.log, s'.v.log);
    PutUnhurried(id, s.closed, s.net, segs, s'.v.log, s.v.acked, s'.v.acked);
  }

  lemma RepeatedReliable(id: nat, s: System, s': System, segs: seq<Segment>)
    requires Reliable(s) && Truthful(s') && Raise(id, s, s', segs)
    ensures Reliable(s')
  {
    hide Truthful, Exact, AllSincere, Unhurried, AllCarry, Renewable;
    PutUnhurried(id, s.closed, s.net, segs, s.v.log, s.v.acked, s.v.acked);
  }

  lemma DeliveredReliable(s: System, s': System, g: Segment)
    requires Reliable(s) && Truthful(s') && Deliver(s, s', g)
    ensures Reliable(s')
  {
    hide Truthful, Exact, AllSincere, Unhurried, Arrive;
    DeliverReliable(s, g);
  }

  lemma ClosedReliable(s: System, s': System)
    requires Reliable(s) && Truthful(s') && s' == s.(closed := true)
    ensures Reliable(s')
  {
    hide Truthful, Exact, AllSincere, Unhurried;
  }

  lemma SenderReliable(id: nat, pad: byte, s: System, s': System, e: Event)
    requires Reliable(s) && RepeatableNext(id, pad, s, s', Sender(e))
    ensures Reliable(s')
  {
    assert Truthful(s);
    hide Truthful, Reliable, Enqueue, Flush, Raise, Deliver, TakeAck, ParseAck, Describes, TellsRoom;
    StayTruthful(id, pad, s, s', e);
    match e
    case Enqueued(item) => EnqueuedReliable(s, s', item);
    case Closed => ClosedReliable(s, s');
    case Sent(segs) => SentReliable(id, s, s', segs);
    case Repeated(segs) => RepeatedReliable(id, s, s', segs);
    case Acked(bytes, segs) =>
    case Delivered(g) => DeliveredReliable(s, s', g);
  }

  lemma DeliverReliable(s: System, g: Segment)
    requires Reliable(s) && g in s.net
    ensures Exact(Arrive(s.r, g), s.v.log) && s.r.stage <= Arrive(s.r, g).stage
    ensures s.r.completed ==> Arrive(s.r, g).completed
    ensures AllSincere(s.acks, Arrive(s.r, g))
  {
    assert Genuine(g, s.v.log);
    if s.r.completed {
      assert Arrive(s.r, g) == s.r;
    } else {
      assert Patient(s.r, g.stage, g.delta);
      hide Exact, Receive, Assemble, Patient;
      ReceiveExact(s.r, s.v.log, g.stage, g.delta, Piece(g.flags, g.payload));
      ReceiveKeeps(s.r, g.stage, g.delta, Piece(g.flags, g.payload));
      StaySincere(s.acks, s.r, Arrive(s.r, g));
    }
  }

  lemma StaySincere(acks: seq<Ack>, r: Rcv, r': Rcv)
    requires AllSincere(acks, r) && !r.completed && r.stage <= r'.stage
    requires r'.completed || forall t :: t <= r.stage || t in r.buffer ==> t <= r'.stage || t in r'.buffer
    ensures AllSincere(acks, r')
  {
    forall i | 0 <= i < |acks| ensures Sincere(acks[i], r') {
      assert Sincere(acks[i], r);
    }
  }

  lemma CommittedReliable(s: System, s': System, a: Ack)
    requires Reliable(s) && a.stage == s.r.stage && TellsRoom(a.room, false, s.r)
    requires Describes(a.pairs, a.stage, s.r.buffer.Keys)
    requires s' == s.(acks := s.acks + [a])
    ensures Reliable(s')
  {
    CommitSincere(s, a);
  }

  lemma StagesSmall(s: System)
    requires Reliable(s)
    ensures s.r.stage < LIMIT && forall k :: k in s.r.buffer.Keys ==> k < LIMIT
  {
    hide Consistent, Exact, Rightful, Recorded, Endless, AllSincere;
  }

  lemma CommitSincere(s: System, a: Ack)
    requires Reliable(s) && a.stage == s.r.stage && TellsRoom(a.room, false, s.r)
    requires Describes(a.pairs, a.stage, s.r.buffer.Keys)
    ensures AllSincere(s.acks + [a], s.r)
  {
    StagesSmall(s);
    hide Truthful, Exact, Describes, Span, InRuns, Unhurried;
    DescribedSmall(a.pairs, a.stage, s.r.buffer.Keys);
    TopIsGreatest(a.pairs, a.stage, s.r.buffer.Keys);
    NoSpan(a);
    forall t: nat | InRuns(a.stage, a.pairs, t) ensures t in s.r.buffer {
      RunsAreKept(a.stage, a.pairs, s.r.buffer.Keys, t);
    }
    assert Sincere(a, s.r);
    hide Reliable, TellsRoom;
    assert AllSincere(s.acks, s.r);
    SincereMore(s.acks, a, s.r);
  }

  lemma SincereMore(acks: seq<Ack>, a: Ack, r: Rcv)
    requires AllSincere(acks, r) && Sincere(a, r) && a.stage == r.stage
    ensures AllSincere(acks + [a], r)
  {
    hide Backed;
  }

  lemma NoSpan(a: Ack)
    ensures a.pairs == [] ==> Span(a.pairs) == 0
  {}

  /** An acknowledgment is read as it was written, and a legible one is current. */
  lemma AckCurrent(pad: byte, s: System, i: nat)
    requires Reliable(s) && i < |s.acks| && Legible(s.acks[i].stage, s.acks[i].pairs, s.v.acked)
    ensures ParseAck(AckBytes(s.acks[i]), pad) == s.acks[i] && Current(s.v, s.acks[i])
    ensures Sincere(s.acks[i], s.r) && |s.v.log| == s.v.acked + |s.v.window|
  {
    hide ParseAck, AckBytes, Truthful, Sensible, Assemble, Legible;
    assert Sincere(s.acks[i], s.r);
    AckRoundTrip(s.acks[i], pad);
    assert Consistent(s.v) by { TruthfulSender(s); }
    assert s.r.stage <= |s.v.log|;
  }

  lemma TruthfulSender(s: System)
    requires Truthful(s)
    ensures Consistent(s.v)
  {}

  /** A sincere acknowledgment releases nothing the receiver has not passed: up to the first stage that is
      neither passed nor waiting, and no stage waits right behind the last one passed. */
  lemma ReleasedIsPassed(v: Link, v': Link, a: Ack, segs: seq<Segment>, r: Rcv)
    requires Settled(v, v', a, segs) && AllRepeatable(v.window) && |v.log| == v.acked + |v.window|
    requires Sincere(a, r) && !r.completed && AtRest(r) && v.acked <= r.stage
    ensures v'.acked <= r.stage
  {
    if v'.acked > r.stage {
      var i := r.stage - v.acked;
      assert Releasable(a, |v.log|, v.acked + 1 + i, v.window[i]);
      ReceivedInRuns(a.stage, a.pairs, |v.log|, r.stage + 1);
    }
  }

  lemma AckReliable(id: nat, pad: byte, s: System, s': System, i: nat, segs: seq<Segment>)
    requires Reliable(s) && RepeatableNext(id, pad, s, s', AckArrived(i, segs)) && Clear(s, AckArrived(i, segs))
    ensures Reliable(s')
  {
    hide Consistent, Exact, ParseAck, AckBytes, Honest, AllCarry, Settled, Current, Unhurried, Genuine, AllRepeatable,
         Sincere;
    AckCurrent(pad, s, i);
    if s.acks[i].room != 0 {
      PutOut(id, s, segs, s'.v.log, s'.v.acked);
      if !s.r.completed { ReleasedIsPassed(s.v, s'.v, s.acks[i], segs, s.r); }
      StillRepeatable(s.v, s'.v);
      PutUnhurried(id, s.closed, s.net, segs, s'.v.log, s.v.acked, s'.v.acked);
    }
  }

  lemma StepReliable(id: nat, pad: byte, s: System, s': System, g: Signal)
    requires Reliable(s) && RepeatableNext(id, pad, s, s', g) && Clear(s, g)
    ensures Reliable(s')
  {
    match g
    case Sender(e) =>
      SenderReliable(id, pad, s, s', e);
    case Committed(a) =>
      CommittedReliable(s, s', a);
    case AckArrived(i, segs) =>
      AckReliable(id, pad, s, s', i, segs);
  }

  lemma StartReliable()
    ensures Reliable(START)
  {
    hide Truthful, Consistent;
    StartTruthful();
    assert Exact(INIT, []);
  }

  lemma {:induction false} RunReliable(id: nat, pad: byte, states: seq<System>, signals: seq<Signal>, n: nat)
    requires RepeatableRun(id, pad, states, signals) && AllClear(states, signals) && n < |states|
    ensures Reliable(states[n])
  {
    hide Reliable, RepeatableNext, Clear;
    if n == 0 {
      StartReliable();
    } else {
      RunReliable(id, pad, states, signals, n - 1);
      assert RepeatableNext(id, pad, states[n - 1], states[n - 1 + 1], signals[n - 1]);
      assert Clear(states[n - 1], signals[n - 1]);
      StepReliable(id, pad, states[n - 1], states[n], signals[n - 1]);
    }
  }

  lemma OpenUntilClosed(s: System)
    requires Truthful(s) && !s.closed
    ensures !s.r.completed
  {
    hide Faithful, NoEndYet;
    NoEndNoCompletion(s.r);
  }

  /** Exactly once: over any run of repeatable messages, with any loss, duplication and reordering of fragments
      and of acknowledgments, as long as those taken in are legible, what is delivered is a prefix of what was
      sent (but for messages of the empty type), byte for byte, and nothing is reported lost. Until the sender is
      closed, it never believes more than the receiver has, and when it has nothing outstanding, everything has
      been delivered; and so it is afterwards, unless an end flag completed the flow. */
  lemma ExactlyOnce(id: nat, pad: byte, states: seq<System>, signals: seq<Signal>, n: nat)
    requires RepeatableRun(id, pad, states, signals) && AllClear(states, signals) && n < |states|
    ensures var s := states[n];
            && Bytes(s.r.delivered) <= Dispatched(s.v.history)
            && s.r.lost == 0 && s.r.stage <= |s.v.log|
            && (!s.closed ==> !s.r.completed)
            && (!s.r.completed ==> s.v.acked <= s.r.stage)
            && (!s.r.completed && s.v.window == [] ==> Bytes(s.r.delivered) == Dispatched(s.v.history))
  {
    RunReliable(id, pad, states, signals, n);
    if !states[n].closed { OpenUntilClosed(states[n]); }
    ExactIsPrefix(states[n].r, states[n].v.log);
    HistoryIs(states[n].v);
  }

  lemma AcksNext(id: nat, pad: byte, s: System, s': System, g: Signal)
    requires RepeatableNext(id, pad, s, s', g)
    ensures s'.acks == s.acks || (g.Committed? && s'.acks == s.acks + [g.a] && TellsRoom(g.a.room, false, s.r))
  {
    hide FlushStep, RaiseStep, AckStep, Arrive, Describes, ParseAck;
  }

  /** As long as no message under way has 0x3F00 fragments or more, the receiver never refuses the flow. */
  lemma {:induction false} NeverRefused(id: nat, pad: byte, states: seq<System>, signals: seq<Signal>, n: nat)
    requires RepeatableRun(id, pad, states, signals) && n < |states|
    requires forall i :: 0 <= i < n ==> Held(states[i].r) < 0x3F00
    ensures forall a :: a in states[n].acks ==> a.room != 0
  {
    hide RepeatableNext;
    if n == 0 {
    } else {
      NeverRefused(id, pad, states, signals, n - 1);
      assert RepeatableNext(id, pad, states[n - 1], states[n - 1 + 1], signals[n - 1]);
      AcksNext(id, pad, states[n - 1], states[n], signals[n - 1]);
    }
  }

  // --- acknowledgments that keep their order ---

  /** No acknowledgment arrives behind a later one; any may be lost or come twice. */
  ghost predicate InSequence(signals: seq<Signal>)
  {
    forall i, j :: 0 <= i < j < |signals| && signals[i].AckArrived? && signals[j].AckArrived? ==>
      signals[i].i <= signals[j].i
  }

  /** The last acknowledgment that arrived among the first `n` signals, and none before it. */
  function LastTaken(signals: seq<Signal>, n: nat): nat
    requires n <= |signals|
  {
    if n == 0 then 0
    else if signals[n - 1].AckArrived? then signals[n - 1].i
    else LastTaken(signals, n - 1)
  }

  /** What the sender knows it learned from the acknowledgment of that index or an earlier one. */
  ghost predicate Informed(s: System, last: nat)
  {
    s.v.acked == 0 || (last < |s.acks| && s.v.acked <= s.acks[last].stage)
  }

  lemma InformedNext(id: nat, pad: byte, s: System, s': System, g: Signal, last: nat)
    requires Reliable(s) && RepeatableNext(id, pad, s, s', g) && Informed(s, last) && (g.AckArrived? ==> last <= g.i)
    ensures Clear(s, g) && Informed(s', if g.AckArrived? then g.i else last)
  {
    hide Truthful, Exact, Unhurried, Receive, Settled, AllCarry, Renewable, Consistent, ParseAck, AckBytes, Sincere;
    match g
    case Sender(e) =>
    case Committed(a) =>
    case AckArrived(i, segs) =>
      var a := s.acks[i];
      assert s.v.acked <= a.stage;
      AckCurrent(pad, s, i);
      if a.room != 0 { RepeatableReleasesCumulative(s.v, s'.v, a, segs); }
  }

  lemma {:induction false} LastIsEarlier(signals: seq<Signal>, n: nat, m: nat)
    requires InSequence(signals) && n <= m < |signals| && signals[m].AckArrived?
    ensures LastTaken(signals, n) <= signals[m].i
  {
    if n == 0 {
    } else if signals[n - 1].AckArrived? {
    } else {
      LastIsEarlier(signals, n - 1, m);
    }
  }

  lemma {:induction false} RunInformed(id: nat, pad: byte, states: seq<System>, signals: seq<Signal>, n: nat)
    requires RepeatableRun(id, pad, states, signals) && InSequence(signals) && n < |states|
    ensures Reliable(states[n]) && Informed(states[n], LastTaken(signals, n))
    ensures forall i :: 0 <= i < n ==> Clear(states[i], signals[i])
  {
    hide Reliable, RepeatableNext, Clear;
    if n == 0 {
      StartReliable();
    } else {
      hide Informed;
      RunInformed(id, pad, states, signals, n - 1);
      assert RepeatableNext(id, pad, states[n - 1], states[n - 1 + 1], signals[n - 1]);
      if signals[n - 1].AckArrived? { LastIsEarlier(signals, n - 1, n - 1); }
      InformedNext(id, pad, states[n - 1], states[n], signals[n - 1], LastTaken(signals, n - 1));
      StepReliable(id, pad, states[n - 1], states[n], signals[n - 1]);
    }
  }

  /** Acknowledgments that keep their order are always legible, so nothing has to be asked of them; and then the
      sender never believes more than the receiver has, whatever flags the fragments carry. */
  lemma ExactlyOnceInOrder(id: nat, pad: byte, states: seq<System>, signals: seq<Signal>, n: nat)
    requires RepeatableRun(id, pad, states, signals) && InSequence(signals) && n < |states|
    ensures AllClear(states, signals)
    ensures var s := states[n];
            && Bytes(s.r.delivered) <= Dispatched(s.v.history)
            && s.r.lost == 0
            && s.v.acked <= s.r.stage <= |s.v.log|
            && (s.v.window == [] ==> Bytes(s.r.delivered) == Dispatched(s.v.history))
  {
    RunInformed(id, pad, states, signals, |signals|);
    RunInformed(id, pad, states, signals, n);
    var s := states[n];
    assert s.v.acked <= s.r.stage by {
      if s.v.acked > 0 { assert Sincere(s.acks[LastTaken(signals, n)], s.r); }
    }
    ExactIsPrefix(s.r, s.v.log);
    HistoryIs(s.v);
  }
}
