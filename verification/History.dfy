/** What a receiver hands over and what it reports lost, told from the stages it processed alone. */
module History {
  import opened Codec
  import opened Wire
  import opened Reassembly
  import opened Receiver
  import opened InOrder

  // --- messages among the stages processed ---

  /** Steps `i` to `j` carry fragments of one message from its first on: consecutive stages, none abandoned,
      each told by the flags to go with the one before. */
  predicate Chained(h: seq<Step>, i: nat, j: nat)
    requires i <= j < |h|
  {
    && !h[i].piece.flags.before
    && (forall k :: i <= k <= j ==> h[k].stage == h[i].stage + (k - i) && !h[k].piece.flags.abandon)
    && (forall k :: i < k <= j ==> h[k].piece.flags.before)
    && (forall k :: i <= k < j ==> h[k].piece.flags.after)
  }

  /** Steps `i` to `j` carry a message from its first fragment to its last. */
  predicate Whole(h: seq<Step>, i: nat, j: nat) { i <= j < |h| && Chained(h, i, j) && !h[j].piece.flags.after }

  /** The steps from `i` on carry a message that is still to go on. */
  predicate Open(h: seq<Step>, i: nat) { Reaches(h, i) && h[|h| - 1].piece.flags.after }

  predicate Reaches(h: seq<Step>, i: nat) { i < |h| && Chained(h, i, |h| - 1) }

  function Text(h: seq<Step>, i: nat, j: nat): seq<byte>
    requires i <= j < |h|
  {
    if i == j then h[j].piece.payload else Text(h, i, j - 1) + h[j].piece.payload
  }

  function HandedAs(h: seq<Step>, i: nat, j: nat): Delivery
    requires i <= j < |h|
  {
    Delivery(h[j].stage, Text(h, i, j), (j - i + 1) % 0x1_0000)
  }

  /** The delivery is one of the messages wholly processed that are to be handed over. */
  ghost predicate IsMessage(h: seq<Step>, d: Delivery)
  {
    exists i: nat, j: nat :: Whole(h, i, j) && Dispatchable(Text(h, i, j)) && d == HandedAs(h, i, j)
  }

  /** A message wholly processed ended the flow. */
  ghost predicate Ended(h: seq<Step>)
  {
    exists i: nat, j: nat :: Whole(h, i, j) && h[j].piece.flags.end
  }

  /** The message under way from step `i` on. */
  function Under(h: seq<Step>, i: nat): Partial
    requires i < |h|
  {
    Partial(Text(h, i, |h| - 1), (|h| - i) % 0x1_0000)
  }

  ghost predicate PartialRight(h: seq<Step>, partial: Option<Partial>)
  {
    match partial
    case Some(q) => exists i: nat :: Open(h, i) && q == Under(h, i)
    case None => forall i: nat :: !Open(h, i)
  }

  /** The steps went through ever later stages, the last one being the stage reached. */
  ghost predicate Rising(h: seq<Step>, stage: nat)
  {
    && (forall i, j :: 0 <= i < j < |h| ==> h[i].stage < h[j].stage)
    && (forall i :: 0 <= i < |h| ==> 0 < h[i].stage <= stage)
    && (if h == [] then stage == 0 else h[|h| - 1].stage == stage)
  }

  ghost predicate InStageOrder(ds: seq<Delivery>, stage: nat)
  {
    && (forall i, j :: 0 <= i < j < |ds| ==> ds[i].stage < ds[j].stage)
    && forall i :: 0 <= i < |ds| ==> ds[i].stage <= stage
  }

  ghost predicate OnlyMessages(ds: seq<Delivery>, h: seq<Step>) { forall d :: d in ds ==> IsMessage(h, d) }

  ghost predicate AllMessages(ds: seq<Delivery>, h: seq<Step>)
  {
    forall i: nat, j: nat :: Whole(h, i, j) && Dispatchable(Text(h, i, j)) ==> HandedAs(h, i, j) in ds
  }

  /** Steps of the message under way, none if there is none. */
  ghost function OpenSteps(h: seq<Step>): nat
  {
    if exists i: nat :: Open(h, i) then var i: nat :| Open(h, i); |h| - i else 0
  }

  /** What the last step makes lost: the stages skipped before it and itself, if it cannot be used behind them;
      or itself, when it carries on with nothing; or the message it breaks off. */
  ghost function LostAt(h: seq<Step>): int
    requires h != []
  {
    var x, h0 := h[|h| - 1], h[..|h| - 1];
    var gap := x.stage - (if h0 == [] then 0 else h0[|h0| - 1].stage) - 1;
    if gap > 0 then gap + if x.piece.flags.before then 1 else 0
    else if x.piece.flags.abandon then 0
    else if x.piece.flags.before then if OpenSteps(h0) == 0 then 1 else 0
    else if x.piece.flags.after then OpenSteps(h0) % 0x1_0000
    else 0
  }

  ghost function LostIn(h: seq<Step>): int
  {
    if h == [] then 0 else LostIn(h[..|h| - 1]) + LostAt(h)
  }

  /** The receiver handed over exactly the messages it wholly processed, holds the one under way,
      reported exactly what was lost, and is completed exactly if one of the messages ended the flow. */
  ghost predicate Faithful(r: Rcv)
  {
    && Rising(r.handled, r.stage) && InStageOrder(r.delivered, r.stage)
    && OnlyMessages(r.delivered, r.handled) && AllMessages(r.delivered, r.handled)
    && (r.completed <==> Ended(r.handled)) && r.lost == LostIn(r.handled)
    && (!r.completed ==> PartialRight(r.handled, r.partial))
  }

  lemma WholeBefore(h: seq<Step>, x: Step, i: nat, j: nat)
    requires i <= j < |h|
    ensures Chained(h + [x], i, j) <==> Chained(h, i, j)
    ensures Whole(h + [x], i, j) <==> Whole(h, i, j)
  {
    hide Text;
    assert forall k :: i <= k <= j ==> (h + [x])[k] == h[k];
  }

  lemma {:induction false} TextBefore(h: seq<Step>, x: Step, i: nat, j: nat)
    requires i <= j < |h|
    ensures Text(h + [x], i, j) == Text(h, i, j) && HandedAs(h + [x], i, j) == HandedAs(h, i, j)
  {
    if i == j {
    } else {
      TextBefore(h, x, i, j - 1);
    }
  }

  /** The last step starts a message, or carries on with the one that is open. */
  lemma ChainLast(h: seq<Step>, x: Step, i: nat)
    requires i <= |h|
    ensures Reaches(h + [x], i)
       <==> !x.piece.flags.abandon
            && if i == |h| then !x.piece.flags.before
               else x.piece.flags.before && Open(h, i) && x.stage == h[|h| - 1].stage + 1
    ensures i == |h| ==> Under(h + [x], i) == Partial(x.piece.payload, 1)
    ensures i < |h| ==>
              Under(h + [x], i) == Partial(Under(h, i).bytes + x.piece.payload, (Under(h, i).fragments + 1) % 0x1_0000)
  {
    hide Text;
    if i < |h| {
      WholeBefore(h, x, i, |h| - 1);
      TextBefore(h, x, i, |h| - 1);
    }
    TextStep(h + [x], i, |h|);
    NextCount(|h| - i);
  }

  lemma TextStep(h: seq<Step>, i: nat, j: nat)
    requires i <= j < |h|
    ensures Text(h, i, j) == (if i == j then [] else Text(h, i, j - 1)) + h[j].piece.payload
  {}

  /** A message begins at its only fragment without a part before. */
  lemma OneStart(h: seq<Step>, i: nat, k: nat, j: nat)
    requires i <= j < |h| && k <= j && Chained(h, i, j) && Chained(h, k, j)
    ensures i == k
  {}

  /** The message under way that a fragment at stage `s` finds: none behind a gap. */
  function Found(r: Rcv, s: nat): Option<Partial> { if s == r.stage + 1 then r.partial else None }

  /** The fragment starts a message or carries on with the one under way. */
  predicate Joins(r: Rcv, s: nat, p: Piece) { !p.flags.abandon && (p.flags.before ==> Found(r, s).Some?) }

  function Grown(r: Rcv, s: nat, p: Piece): Partial
    requires Joins(r, s, p)
  {
    if p.flags.before then
      var q := Found(r, s).value; Partial(q.bytes + p.payload, (q.fragments + 1) % 0x1_0000)
    else Partial(p.payload, 1)
  }

  /** What handing in a fragment does, told apart by its flags. */
  lemma SortedTold(r: Rcv, s: nat, p: Piece)
    requires !r.completed && s > r.stage
    ensures var r1 := Sorted(r, s, p);
            && r1.handled == r.handled + [Step(s, p)] && r1.stage == s
            && (!Joins(r, s, p) ==> r1.delivered == r.delivered && r1.partial.None? && !r1.completed)
            && (Joins(r, s, p) ==> Taken(r, r1, s, p, Grown(r, s, p)))
  {
    hide Content, Taken;
    var lost := if s == r.stage + 1 then r.lost else r.lost + (s - r.stage - 1);
    var r0 := Arrived(r, s, p);
    if s == r.stage + 1 {
      ContentTold(r, r0, s, p);
    } else {
      ContentTold(r, r0.(partial := None, discarded := r.discarded + Held(r), lost := lost), s, p);
    }
  }

  /** The message grew to `q`: it stays under way, or is over and handed over. */
  predicate Taken(r: Rcv, r1: Rcv, s: nat, p: Piece, q: Partial)
  {
    && r1.partial == (if p.flags.after then Some(q) else None)
    && r1.delivered == r.delivered + (if !p.flags.after && Dispatchable(q.bytes)
                                      then [Delivery(s, q.bytes, q.fragments)] else [])
    && (r1.completed <==> !p.flags.after && p.flags.end)
  }

  lemma ContentTold(r: Rcv, r0: Rcv, s: nat, p: Piece)
    requires !r.completed && !r0.completed && r0.stage == s && r0.partial == Found(r, s) && r0.delivered == r.delivered
    ensures var r1 := Content(r0, p);
            && r1.handled == r0.handled && r1.stage == s
            && (!Joins(r, s, p) ==> r1.delivered == r.delivered && r1.partial.None? && !r1.completed)
            && (Joins(r, s, p) ==> Taken(r, r1, s, p, Grown(r, s, p)))
  {}

  lemma NextCount(n: nat)
    ensures (n % 0x1_0000 + 1) % 0x1_0000 == (n + 1) % 0x1_0000
  {}

  /** Whether the last step goes with a message is what the flags and the message under way say. */
  lemma JoinsLast(r: Rcv, s: nat, p: Piece)
    requires Rising(r.handled, r.stage) && PartialRight(r.handled, r.partial) && s > r.stage
    ensures var h := r.handled + [Step(s, p)];
            if Joins(r, s, p) then exists i: nat :: Reaches(h, i) && Grown(r, s, p) == Under(h, i)
            else forall i: nat :: !Reaches(h, i)
  {
    hide Open, Under, Reaches, PartialRight;
    var h, x := r.handled, Step(s, p);
    assert forall i: nat :: Reaches(h + [x], i) ==> i <= |h| by { hide *; ReachesInside(h, x); }
    forall i: nat | i <= |h|
      ensures Reaches(h + [x], i)
         <==> !p.flags.abandon && if i == |h| then !p.flags.before
                                  else p.flags.before && Open(h, i) && s == r.stage + 1
    {
      ChainLast(h, x, i);
    }
    if Joins(r, s, p) {
      var i: nat := |h|;
      if p.flags.before {
        i := OpenStart(h, r.partial.value);
      }
      ChainLast(h, x, i);
      assert Reaches(h + [x], i) && Grown(r, s, p) == Under(h + [x], i);
    } else if r.partial.None? {
      NothingOpen(h);
    }
  }

  lemma OpenStart(h: seq<Step>, q: Partial) returns (i: nat)
    requires PartialRight(h, Some(q))
    ensures i < |h| && Open(h, i) && q == Under(h, i)
  {
    hide Chained, Text;
    i :| Open(h, i) && q == Under(h, i);
  }

  lemma NothingOpen(h: seq<Step>)
    requires PartialRight(h, None)
    ensures forall i: nat :: !Open(h, i)
  {}

  lemma ReachesInside(h: seq<Step>, x: Step)
    ensures forall i: nat :: Reaches(h + [x], i) ==> i <= |h|
  {}

  // --- one step more ---

  lemma RisingMore(h: seq<Step>, stage: nat, x: Step)
    requires Rising(h, stage) && x.stage > stage
    ensures Rising(h + [x], x.stage)
  {}

  /** A message of the longer history is one of the shorter, or ends with the last step. */
  lemma WholeMore(h: seq<Step>, x: Step, i: nat, j: nat)
    ensures Whole(h + [x], i, j)
       <==> Whole(h, i, j) || (j == |h| && Reaches(h + [x], i) && !x.piece.flags.after)
    ensures Whole(h, i, j) ==> HandedAs(h + [x], i, j) == HandedAs(h, i, j) && Text(h + [x], i, j) == Text(h, i, j)
    ensures Whole(h, i, j) ==> j < |h| && (h + [x])[j] == h[j]
    ensures j == |h| && Whole(h + [x], i, j) ==>
              i <= j && HandedAs(h + [x], i, j) == Last(h + [x], i) && Text(h + [x], i, j) == Under(h + [x], i).bytes
  {
    hide Text, Chained;
    if i <= j < |h| {
      WholeBefore(h, x, i, j);
      TextBefore(h, x, i, j);
    }
  }

  /** What handing over the message from step `i` to the last one would be. */
  function Last(h: seq<Step>, i: nat): Delivery
    requires i < |h|
  {
    Delivery(h[|h| - 1].stage, Under(h, i).bytes, Under(h, i).fragments)
  }

  lemma OnlyMore(ds: seq<Delivery>, h: seq<Step>, x: Step)
    requires OnlyMessages(ds, h)
    ensures OnlyMessages(ds, h + [x])
  {
    hide Chained, Text, HandedAs;
    forall d | d in ds ensures IsMessage(h + [x], d) {
      var i, j: nat :| Whole(h, i, j) && Dispatchable(Text(h, i, j)) && d == HandedAs(h, i, j);
      WholeMore(h, x, i, j);
    }
  }

  lemma AllMore(ds: seq<Delivery>, ds': seq<Delivery>, h: seq<Step>, x: Step)
    requires AllMessages(ds, h) && ds <= ds'
    requires forall i: nat :: Reaches(h + [x], i) && !x.piece.flags.after && Dispatchable(Under(h + [x], i).bytes) ==>
               Last(h + [x], i) in ds'
    ensures AllMessages(ds', h + [x])
  {
    hide Chained, Text, HandedAs, Under, Last;
    forall i: nat, j: nat | Whole(h + [x], i, j) && Dispatchable(Text(h + [x], i, j))
      ensures HandedAs(h + [x], i, j) in ds'
    {
      WholeMore(h, x, i, j);
    }
  }

  lemma EndedMore(h: seq<Step>, x: Step)
    requires !Ended(h)
    ensures Ended(h + [x]) <==> x.piece.flags.end && !x.piece.flags.after && exists i: nat :: Reaches(h + [x], i)
  {
    hide Chained, Text;
    if Ended(h + [x]) {
      var i: nat, j: nat :| Whole(h + [x], i, j) && (h + [x])[j].piece.flags.end;
      WholeMore(h, x, i, j);
    }
    if x.piece.flags.end && !x.piece.flags.after && exists i: nat :: Reaches(h + [x], i) {
      var i: nat :| Reaches(h + [x], i);
      WholeMore(h, x, i, |h|);
    }
  }

  /** Handing in a later stage keeps the receiver faithful to what it processed. */
  lemma SortedFaithful(r: Rcv, s: nat, p: Piece)
    requires Faithful(r) && !r.completed && s > r.stage
    ensures Faithful(Sorted(r, s, p))
  {
    hide Sorted, Joins, Grown, Rising, InStageOrder, OnlyMessages, AllMessages, Ended, PartialRight, Chained, Text,
         LostIn;
    var h, x, r1 := r.handled, Step(s, p), Sorted(r, s, p);
    SortedTold(r, s, p);
    JoinsLast(r, s, p);
    RisingMore(h, r.stage, x);
    OnlyMore(r.delivered, h, x);
    EndedMore(h, x);
    SortedLost(r, s, p);
    if Joins(r, s, p) {
      var i: nat :| Reaches(h + [x], i) && Grown(r, s, p) == Under(h + [x], i);
      GrownFaithful(r, r1, s, p, Grown(r, s, p), i);
    } else {
      AllMore(r.delivered, r.delivered, h, x);
      LaterOrder(r.delivered, r.stage, s);
      NoneRight(h + [x]);
    }
  }

  lemma LaterOrder(ds: seq<Delivery>, stage: nat, s: nat)
    requires InStageOrder(ds, stage) && stage <= s
    ensures InStageOrder(ds, s)
  {}

  lemma NoneRight(h: seq<Step>)
    requires forall i: nat :: !Reaches(h, i)
    ensures PartialRight(h, None)
  {}

  /** The message under way grew by the last step. */
  lemma GrownFaithful(r: Rcv, r1: Rcv, s: nat, p: Piece, q: Partial, i: nat)
    requires r1.handled == r.handled + [Step(s, p)] && r1.stage == s > r.stage && Taken(r, r1, s, p, q)
    requires Reaches(r1.handled, i) && q == Under(r1.handled, i)
    requires InStageOrder(r.delivered, r.stage) && OnlyMessages(r.delivered, r1.handled)
    requires AllMessages(r.delivered, r.handled) && !Ended(r.handled)
    ensures InStageOrder(r1.delivered, s) && OnlyMessages(r1.delivered, r1.handled)
    ensures AllMessages(r1.delivered, r1.handled)
    ensures r1.completed <==> Ended(r1.handled)
    ensures !r1.completed ==> PartialRight(r1.handled, r1.partial)
  {
    hide Chained, Text, AllMessages, OnlyMessages, Ended, Dispatchable, Under;
    var h, x := r.handled, Step(s, p);
    ReachesOnce(h + [x], i);
    EndedMore(h, x);
    WholeMore(h, x, i, |h|);
    AllMore(r.delivered, r1.delivered, h, x);
    if r1.delivered != r.delivered { OnlyOneMore(r.delivered, h + [x], i); }
  }

  lemma ReachesOnce(h: seq<Step>, i: nat)
    requires Reaches(h, i)
    ensures forall k: nat :: Reaches(h, k) ==> k == i
  {
    forall k: nat | Reaches(h, k) ensures k == i {
      OneStart(h, i, k, |h| - 1);
    }
  }

  lemma OnlyOneMore(ds: seq<Delivery>, h: seq<Step>, i: nat)
    requires h != [] && OnlyMessages(ds, h) && Whole(h, i, |h| - 1) && Dispatchable(Text(h, i, |h| - 1))
    ensures OnlyMessages(ds + [Last(h, i)], h)
  {
    hide Chained, Text;
    assert Last(h, i) == HandedAs(h, i, |h| - 1);
  }

  lemma OpenStepsIs(h: seq<Step>, partial: Option<Partial>)
    requires PartialRight(h, partial)
    ensures OpenSteps(h) == 0 <==> partial.None?
    ensures partial.Some? ==> partial.value.fragments == OpenSteps(h) % 0x1_0000
  {
    hide Chained, Text;
    if exists i: nat :: Open(h, i) {
      var i: nat :| Open(h, i);
      ReachesOnce(h, i);
    }
  }

  lemma SortedLost(r: Rcv, s: nat, p: Piece)
    requires !r.completed && s > r.stage && Rising(r.handled, r.stage) && PartialRight(r.handled, r.partial)
    requires r.lost == LostIn(r.handled)
    ensures Sorted(r, s, p).lost == LostIn(r.handled + [Step(s, p)])
  {
    hide OpenSteps, PartialRight, Content;
    OpenStepsIs(r.handled, r.partial);
    assert (r.handled + [Step(s, p)])[..|r.handled|] == r.handled;
    var r0 := Arrived(r, s, p);
    ContentLost(r0, p);
    ContentLost(r0.(partial := None, discarded := r.discarded + Held(r), lost := r.lost + (s - r.stage - 1)), p);
  }

  lemma ContentLost(r: Rcv, p: Piece)
    ensures Content(r, p).lost
         == r.lost + if p.flags.abandon then 0
                     else if p.flags.before then if r.partial.None? then 1 else 0
                     else if p.flags.after then Held(r)
                     else 0
  {}

  /** A message in one fragment is handed over wherever it comes in, unless it is empty or begins with a zero byte,
      the empty type; and only the stages skipped are lost. */
  lemma WholeAlone(r: Rcv, s: nat, delta: nat, p: Piece)
    requires !r.completed && s > r.stage && !p.flags.before && !p.flags.after && !p.flags.abandon
    ensures var ds := if p.payload != [] && p.payload[0] != 0 then [Delivery(s, p.payload, 1)] else [];
            && Sorted(r, s, p).delivered == r.delivered + ds
            && Sorted(r, s, p).lost == r.lost + (s - r.stage - 1)
            && (r.buffer == map[] && (s == r.stage + 1 || s > r.stage + delta) ==>
                  && Receive(r, s, delta, p).delivered == r.delivered + ds
                  && Receive(r, s, delta, p).lost == r.lost + (s - r.stage - 1))
  {
    SortedShape(r, s, p);
    if r.buffer == map[] { SkipNothing(r, r.stage + 1, s); }
  }

  lemma {:induction false} SkipNothing(r: Rcv, s: nat, upto: nat)
    requires r.buffer == map[]
    ensures Skip(r, s, upto) == r
    decreases upto + 1 - s
  {
    if s > upto || r.completed {
    } else {
      SkipNothing(r, s + 1, upto);
    }
  }

  // --- over runs ---

  lemma FaithfulIgnoresBuffer(r: Rcv, b: map<nat, Piece>)
    requires Faithful(r)
    ensures Faithful(r.(buffer := b))
  {}

  lemma HandInFaithful(r: Rcv, s: nat, p: Piece)
    requires Faithful(r) && !r.completed
    ensures Faithful(Sorted(r, s, p))
  {
    hide Sorted, Faithful;
    if s <= r.stage { SortedStale(r, s, p); } else { SortedFaithful(r, s, p); }
  }

  lemma PullFaithful(r: Rcv, s: nat)
    requires Faithful(r) && !r.completed && s in r.buffer
    ensures Faithful(Pull(r, s))
  {
    hide Sorted, Faithful;
    FaithfulIgnoresBuffer(r, r.buffer - {s});
    HandInFaithful(r.(buffer := r.buffer - {s}), s, r.buffer[s]);
  }

  lemma {:induction false} SkipFaithful(r: Rcv, s: nat, upto: nat)
    requires Faithful(r)
    ensures Faithful(Skip(r, s, upto))
    decreases upto + 1 - s
  {
    hide Pull, Faithful;
    if s > upto || r.completed {
    } else {
      if s in r.buffer { PullFaithful(r, s); }
      SkipFaithful(if s in r.buffer then Pull(r, s) else r, s + 1, upto);
    }
  }

  lemma {:induction false} DrainFaithful(r: Rcv)
    requires Faithful(r)
    ensures Faithful(Drain(r))
    decreases |r.buffer|
  {
    hide Pull, Faithful;
    if r.completed || r.stage + 1 !in r.buffer {
    } else {
      PullShrinks(r, r.stage + 1);
      PullFaithful(r, r.stage + 1);
      DrainFaithful(Pull(r, r.stage + 1));
    }
  }

  lemma ReceiveFaithful(r: Rcv, s: nat, delta: nat, p: Piece)
    requires Faithful(r)
    ensures Faithful(Receive(r, s, delta, p))
  {
    hide Sorted, Skip, Drain, Faithful;
    if r.completed || s <= r.stage {
    } else if r.stage < s - (if delta > s then s else delta) {
      SkippedFaithful(r, s, p);
    } else if s == r.stage + 1 {
      HandInFaithful(r, s, p);
      DrainFaithful(Sorted(r, s, p));
    } else {
      FaithfulIgnoresBuffer(r, r.buffer[s := p]);
    }
  }

  lemma SkippedFaithful(r: Rcv, s: nat, p: Piece)
    requires Faithful(r)
    ensures var r1 := Skip(r, r.stage + 1, s);
            Faithful(r1) && (!r1.completed ==> Faithful(Drain(Sorted(r1, s, p))))
  {
    hide Sorted, Skip, Drain, Faithful;
    var r1 := Skip(r, r.stage + 1, s);
    SkipFaithful(r, r.stage + 1, s);
    if !r1.completed {
      HandInFaithful(r1, s, p);
      DrainFaithful(Sorted(r1, s, p));
    }
  }

  lemma {:induction false} RunFaithful(segs: seq<Segment>)
    ensures Faithful(ReceiveAll(INIT, segs))
  {
    hide Receive, Chained;
    if segs == [] {
    } else {
      var g := segs[|segs| - 1];
      RunFaithful(segs[..|segs| - 1]);
      ReceiveFaithful(ReceiveAll(INIT, segs[..|segs| - 1]), g.stage, g.delta, Piece(g.flags, g.payload));
    }
  }

  /** Over any run of fragments whatever, the deliveries are exactly the messages wholly processed without a gap,
      each once and in order, the flow is completed exactly when one of them carried the end flag, and what is
      reported lost is what the stages processed show to be. */
  lemma DeliveredIff(segs: seq<Segment>, d: Delivery)
    ensures var r := ReceiveAll(INIT, segs);
            && (d in r.delivered <==> IsMessage(r.handled, d))
            && (r.completed <==> Ended(r.handled)) && r.lost == LostIn(r.handled)
            && Rising(r.handled, r.stage) && InStageOrder(r.delivered, r.stage)
  {
    hide ReceiveAll, Chained, Text, HandedAs;
    RunFaithful(segs);
  }

  // --- which stages are processed, and when ---

  /** The receiver processed fragment `q` as stage `t`, or has it waiting. */
  predicate Got(r: Rcv, t: nat, q: Piece) { Step(t, q) in r.handled || (t in r.buffer && r.buffer[t] == q) }

  ghost predicate Processed(r: Rcv, t: nat) { exists q :: Step(t, q) in r.handled }

  /** Only later stages wait. */
  ghost predicate Waiting(r: Rcv) { forall k :: k in r.buffer ==> k > r.stage }

  /** From `r` to `r1` the history grew, by fragments that were waiting or by `p` as stage `s`, and none of
      them got lost unless the flow was completed. */
  ghost predicate Preserves(r: Rcv, r1: Rcv, t: nat, q: Piece, came: bool)
  {
    && r.handled <= r1.handled && r.stage <= r1.stage
    && (Got(r1, t, q) ==> Got(r, t, q) || came)
    && (!r1.completed ==> (Got(r1, t, q) <==> Got(r, t, q) || came))
  }

  lemma SortedKept(r: Rcv, s: nat, p: Piece, t: nat, q: Piece)
    requires !r.completed && s > r.stage
    ensures var r1 := Sorted(r, s, p);
            Preserves(r, r1, t, q, t == s && q == p) && Processed(r1, s) && r1.handled == r.handled + [Step(s, p)]
  {
    SortedTold(r, s, p);
    SortedShape(r, s, p);
    hide Sorted, Taken, Joins, Grown;
    var r1 := Sorted(r, s, p);
    assert Step(s, p) in r1.handled;
  }

  lemma PullKept(r: Rcv, s: nat, t: nat, q: Piece)
    requires Waiting(r) && !r.completed && s in r.buffer && forall k :: k in r.buffer ==> s <= k
    ensures var r1 := Pull(r, s);
            && Preserves(r, r1, t, q, false) && Processed(r1, s) && Waiting(r1) && r1.stage == s
            && r1.handled == r.handled + [Step(s, r.buffer[s])]
            && (forall k :: k in r1.buffer ==> s < k && k in r.buffer)
            && (!r1.completed ==> forall k :: k in r.buffer && k != s ==> k in r1.buffer)
  {
    hide Sorted;
    SortedKept(r.(buffer := r.buffer - {s}), s, r.buffer[s], t, q);
    SortedShape(r.(buffer := r.buffer - {s}), s, r.buffer[s]);
  }

  lemma {:induction false} SkipKept(r: Rcv, s: nat, upto: nat, t: nat, q: Piece)
    requires Waiting(r) && forall k :: k in r.buffer ==> s <= k
    ensures var r1 := Skip(r, s, upto);
            && Preserves(r, r1, t, q, false) && Waiting(r1) && (r1.stage == r.stage || r1.stage <= upto)
            && (r1.stage == r.stage || r1.stage in r.buffer)
            && (!r1.completed ==> forall k :: k in r1.buffer ==> upto < k)
            && (!r1.completed ==> forall k :: k in r.buffer && k <= upto ==> k <= r1.stage)
    decreases upto + 1 - s
  {
    hide Pull, Got;
    if s > upto || r.completed {
    } else {
      if s in r.buffer { PullKept(r, s, t, q); }
      SkipKept(if s in r.buffer then Pull(r, s) else r, s + 1, upto, t, q);
    }
  }

  lemma {:induction false} DrainKept(r: Rcv, t: nat, q: Piece)
    requires Waiting(r)
    ensures var r1 := Drain(r);
            && Preserves(r, r1, t, q, false) && Waiting(r1) && AtRest(r1)
            && (r.stage < t <= r1.stage ==> Processed(r1, t))
    decreases |r.buffer|
  {
    hide Pull, Got, Processed;
    if r.completed || r.stage + 1 !in r.buffer {
    } else {
      var s := r.stage + 1;
      PullShrinks(r, s);
      PullKept(r, s, t, q);
      DrainKept(Pull(r, s), t, q);
      StaysProcessed(Pull(r, s), Drain(Pull(r, s)), s);
    }
  }

  lemma StaysProcessed(r: Rcv, r1: Rcv, t: nat)
    requires r.handled <= r1.handled && Processed(r, t)
    ensures Processed(r1, t)
  {
    var q :| Step(t, q) in r.handled;
    assert Step(t, q) in r1.handled;
  }

  /** One fragment: what the receiver processed or holds becomes that with the fragment, if its stage is new, and
      nothing else; and it goes on without a gap, unless the fragment gives up stages: then all that waits up
      to it is processed, whatever is missing, and behind it again nothing without its turn. */
  lemma ReceiveExactly(r: Rcv, s: nat, delta: nat, p: Piece, t: nat, q: Piece)
    requires Waiting(r) && AtRest(r) && !r.completed
    ensures var r1 := Receive(r, s, delta, p);
            && Preserves(r, r1, t, q, t == s && q == p && s > r.stage && s !in r.buffer)
            && Waiting(r1) && AtRest(r1)
            && (Patient(r, s, delta) && r.stage < t <= r1.stage ==> Processed(r1, t))
            && (!Patient(r, s, delta) && s > r.stage && s < t <= r1.stage ==> Processed(r1, t))
            && (!Patient(r, s, delta) && s > r.stage && !r1.completed ==> s <= r1.stage)
  {
    hide Sorted, Skip, Drain, Got, Processed;
    if s <= r.stage {
    } else if !Patient(r, s, delta) {
      GiveUp(r, s, p, t, q);
    } else if s == r.stage + 1 {
      HandIn(r, s, p, t, q);
    } else if s !in r.buffer {
      BufferKept(r, s, p, t, q);
    }
  }

  lemma BufferKept(r: Rcv, s: nat, p: Piece, t: nat, q: Piece)
    requires Waiting(r) && s > r.stage && s !in r.buffer
    ensures var r1 := r.(buffer := r.buffer[s := p]);
            Preserves(r, r1, t, q, t == s && q == p) && Waiting(r1)
  {}

  /** Processes a later stage that does not wait yet, and what follows on. */
  lemma HandIn(r: Rcv, s: nat, p: Piece, t: nat, q: Piece)
    requires Waiting(r) && !r.completed && s > r.stage && forall k :: k in r.buffer ==> s < k
    ensures var r1 := Drain(Sorted(r, s, p));
            && Preserves(r, r1, t, q, t == s && q == p) && Waiting(r1) && AtRest(r1) && s <= r1.stage
            && (s <= t <= r1.stage ==> Processed(r1, t))
  {
    hide Sorted, Drain, Got, Processed;
    SortedKept(r, s, p, t, q);
    SortedShape(r, s, p);
    DrainKept(Sorted(r, s, p), t, q);
    StaysProcessed(Sorted(r, s, p), Drain(Sorted(r, s, p)), s);
    if Sorted(r, s, p).completed { DrainCompleted(Sorted(r, s, p)); }
  }

  /** Processes all that waits up to stage `s`, stage `s` itself, and what follows on. */
  lemma GiveUp(r: Rcv, s: nat, p: Piece, t: nat, q: Piece)
    requires Waiting(r) && !r.completed && s > r.stage
    ensures var r0 := Skip(r, r.stage + 1, s); var r1 := if r0.completed then r0 else Drain(Sorted(r0, s, p));
            && Preserves(r, r1, t, q, t == s && q == p && s !in r.buffer) && Waiting(r1) && AtRest(r1)
            && (s < t <= r1.stage ==> Processed(r1, t)) && (!r1.completed ==> s <= r1.stage)
  {
    hide Sorted, Skip, Drain, Got, Processed;
    var r0 := Skip(r, r.stage + 1, s);
    SkipKept(r, r.stage + 1, s, t, q);
    if !r0.completed {
      if s in r.buffer {
        SortedStale(r0, s, p);
        DrainKept(r0, t, q);
      } else {
        HandIn(r0, s, p, t, q);
      }
    }
  }

  // --- messages as they were sent ---

  /** All steps brought the fragments sent under their stages. */
  ghost predicate AsSent(h: seq<Step>, log: seq<Fragment>)
  {
    forall k :: 0 <= k < |h| ==> 1 <= h[k].stage <= |log| && Matches(h[k].piece, log[h[k].stage - 1])
  }

  /** A fragment sent under a later stage, whenever it comes in. */
  lemma ReceiveAsSent(r: Rcv, log: seq<Fragment>, s: nat, delta: nat, p: Piece)
    requires AsSent(r.handled, log) && Ahead(r, log) && AtRest(r) && 1 <= s <= |log| && Matches(p, log[s - 1])
    ensures AsSent(Receive(r, s, delta, p).handled, log)
  {
    hide Matches, Receive;
    var r1 := Receive(r, s, delta, p);
    if r.completed {
      CompletedStays(r, s, delta, p);
    } else {
      forall k | 0 <= k < |r1.handled|
        ensures 1 <= r1.handled[k].stage <= |log| && Matches(r1.handled[k].piece, log[r1.handled[k].stage - 1])
      {
        var x := r1.handled[k];
        ReceiveExactly(r, s, delta, p, x.stage, x.piece);
        assert Step(x.stage, x.piece) in r1.handled;
      }
    }
  }

  lemma CompletedStays(r: Rcv, s: nat, delta: nat, p: Piece)
    requires r.completed
    ensures Receive(r, s, delta, p) == r
  {}

  predicate CarriesOn(log: seq<Fragment>, t: nat)
    requires 1 <= t <= |log|
  {
    log[t - 1].before
  }

  /** Stages `b` to `e` carry one message from its first fragment to its last. */
  ghost predicate Spans(log: seq<Fragment>, b: nat, e: nat)
  {
    && 1 <= b <= e <= |log| && !log[b - 1].before && MessageAt(log, e).Some?
    && forall k :: b < k <= e ==> CarriesOn(log, k)
  }

  ghost predicate AllProcessed(r: Rcv, b: nat, e: nat) { forall t :: b <= t <= e ==> Processed(r, t) }

  /** The step that brought stage `t`. */
  lemma StepOf(r: Rcv, t: nat) returns (k: nat)
    requires Processed(r, t)
    ensures k < |r.handled| && r.handled[k].stage == t
  {
    var q :| Step(t, q) in r.handled;
    k :| 0 <= k < |r.handled| && r.handled[k] == Step(t, q);
  }

  lemma {:induction false} RisingGap(h: seq<Step>, stage: nat, a: nat, k: nat)
    requires Rising(h, stage) && a < |h| && k < |h|
    ensures if a <= k then h[k].stage - h[a].stage >= k - a else h[k].stage < h[a].stage
    decreases k
  {
    if k <= a {
    } else {
      RisingGap(h, stage, a, k - 1);
      assert h[k - 1].stage < h[k].stage;
    }
  }

  /** Stages processed without a skip among them are steps that follow on. */
  lemma {:induction false} StepsFollow(r: Rcv, b: nat, e: nat) returns (i: nat)
    requires Rising(r.handled, r.stage) && b <= e && AllProcessed(r, b, e)
    ensures i + e - b < |r.handled| && forall k :: i <= k <= i + e - b ==> r.handled[k].stage == b + (k - i)
    decreases e - b
  {
    hide Processed;
    if b == e {
      i := StepOf(r, b);
    } else {
      i := StepsFollow(r, b, e - 1);
      var k := StepOf(r, e);
      var last := i + e - 1 - b;
      assert r.handled[last].stage == e - 1;
      RisingGap(r.handled, r.stage, last, k);
      assert k == i + e - b;
    }
  }

  lemma {:induction false} TextIsOpen(h: seq<Step>, log: seq<Fragment>, i: nat, j: nat)
    requires Sensible(log) && AsSent(h, log) && i <= j < |h| && Chained(h, i, j)
    ensures var s := h[j].stage;
            if h[j].piece.flags.after then MessageAt(log, s).None? && Assemble(log[..s]).open == Some(Text(h, i, j))
            else MessageAt(log, s) == Some(Text(h, i, j))
    decreases j
  {
    hide Assemble, MessageAt, Sensible;
    StepAt(log, h[j].stage);
    if i == j {
    } else {
      TextIsOpen(h, log, i, j - 1);
      assert h[j].stage == h[j - 1].stage + 1;
    }
  }

  /** Every message all of whose stages were processed is among the deliveries, byte for byte. */
  lemma PassedIsDelivered(r: Rcv, log: seq<Fragment>, b: nat, e: nat)
    requires Sensible(log) && Faithful(r) && AsSent(r.handled, log) && Spans(log, b, e) && AllProcessed(r, b, e)
    ensures var m := MessageAt(log, e).value;
            Dispatchable(m) ==> Delivery(e, m, (e - b + 1) % 0x1_0000) in r.delivered
  {
    hide Assemble, MessageAt, Sensible, Text, PartialRight, InStageOrder, OnlyMessages, Ended, AllProcessed, LostIn,
         Rising;
    var i := StepsFollow(r, b, e);
    var j := i + e - b;
    ChainedAsSent(r.handled, log, i, b, e);
    TextIsOpen(r.handled, log, i, j);
    assert Whole(r.handled, i, j);
    assert HandedAs(r.handled, i, j) == Delivery(e, Text(r.handled, i, j), (e - b + 1) % 0x1_0000);
  }

  lemma ChainedAsSent(h: seq<Step>, log: seq<Fragment>, i: nat, b: nat, e: nat)
    requires Sensible(log) && AsSent(h, log) && Spans(log, b, e) && i + e - b < |h|
    requires forall k :: i <= k <= i + e - b ==> h[k].stage == b + (k - i)
    ensures Chained(h, i, i + e - b) && !h[i + e - b].piece.flags.after
  {
    hide Assemble, Sensible;
    assert h[i].stage == b && h[i + e - b].stage == e;
    forall k | i <= k < i + e - b ensures h[k].piece.flags.after {
      StepAt(log, b + (k - i));
      StepAt(log, b + (k - i) + 1);
      assert CarriesOn(log, b + (k - i) + 1);
    }
    forall k | i < k <= i + e - b ensures h[k].piece.flags.before {
      assert CarriesOn(log, b + (k - i));
    }
    StepAt(log, e);
  }

  // --- flows without an end ---

  /** No fragment processed or waiting carries the end flag. */
  ghost predicate NoEndYet(r: Rcv)
  {
    (forall x :: x in r.handled ==> !x.piece.flags.end) && forall k :: k in r.buffer ==> !r.buffer[k].flags.end
  }

  /** Without an end flag the flow is not completed: it ends by nothing else. */
  lemma NoEndNoCompletion(r: Rcv)
    requires Faithful(r) && NoEndYet(r)
    ensures !r.completed
  {
    hide Chained, Rising, InStageOrder, OnlyMessages, AllMessages, LostIn, PartialRight;
    forall i: nat, j: nat | Whole(r.handled, i, j) ensures !r.handled[j].piece.flags.end {
      assert r.handled[j] in r.handled;
    }
  }

  lemma ReceiveNoEnd(r: Rcv, s: nat, delta: nat, p: Piece)
    requires Faithful(r) && NoEndYet(r) && Waiting(r) && AtRest(r) && !p.flags.end
    ensures NoEndYet(Receive(r, s, delta, p)) && !Receive(r, s, delta, p).completed
  {
    hide Receive, Faithful;
    var r1 := Receive(r, s, delta, p);
    NoEndNoCompletion(r);
    forall x | x in r1.handled ensures !x.piece.flags.end {
      ReceiveExactly(r, s, delta, p, x.stage, x.piece);
      assert Got(r1, x.stage, x.piece);
    }
    forall k | k in r1.buffer ensures !r1.buffer[k].flags.end {
      ReceiveExactly(r, s, delta, p, k, r1.buffer[k]);
      assert Got(r1, k, r1.buffer[k]);
    }
    ReceiveFaithful(r, s, delta, p);
    NoEndNoCompletion(r1);
  }
}
