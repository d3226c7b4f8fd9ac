/** The state of the acknowledgment loop and what it has established so far: two cursors, one over
    the outstanding fragments and one over the ranges still to be read. */
module AckScan {
  import opened Wire
  import opened Reassembly
  import opened Acks

  /** The locals of the loop. */
  datatype Scan = Scan(
    stage: nat, lostCount: nat, lostStage: nat, stageRead: nat, repeated: bool, header: bool, stop: bool)

  /** Messages sent: only the first may have lost entries in front. */
  ghost predicate Tidy(ms: seq<Message>)
  {
    AllOrdered(ms) && forall i :: 1 <= i < |ms| ==> ms[i].marks != [] && ms[i].marks[0].offset == 0
  }

  ghost predicate Same(o: Out, p: Out) { o.frag == p.frag && o.repeatable == p.repeatable }

  /** With the cursor on entry `f` of message `k` and `gone` fragments released, the messages hold
      the rest of the window `w0`, unchanged from the cursor on. */
  ghost predicate Aligned(ms: seq<Message>, k: nat, f: nat, w0: seq<Out>, gone: nat)
  {
    && Tidy(ms)
    && k <= |ms| && f <= (if k < |ms| then |ms[k].marks| else 0)
    && (k > 0 ==> ms[0].marks != [])
    && gone + |Window(ms)| == |w0| && Remains(Window(ms), w0, gone, Place(ms, k, f))
  }

  /** Window `w` is what remains of `w0`, up to the dates of the first `p` fragments. */
  ghost predicate Remains(w: seq<Out>, w0: seq<Out>, gone: nat, p: nat)
    requires gone + |w| == |w0|
  {
    && (forall i :: 0 <= i < |w| ==> Same(w[i], w0[gone + i]))
    && (forall i :: p <= i < |w| ==> w[i] == w0[gone + i])
  }

  /** So the sender has only shifted. */
  lemma AlignedShifted(v: Link, v': Link, ms: seq<Message>, k: nat, f: nat, gone: nat)
    requires Aligned(ms, k, f, v.window, gone) && Consistent(v)
    requires v' == v.(acked := v.acked + gone, window := Window(ms))
    ensures Shifted(v, v') && Consistent(v')
  {
    forall i | 0 <= i < |v'.window| ensures v'.window[i].(sentAt := 0) == v.window[gone + i].(sentAt := 0) {
      assert Same(v'.window[i], v.window[gone + i]);
    }
    ShiftKeepsConsistent(v, v');
  }

  /** The message list after its very first entry went. */
  function Dropped(ms: seq<Message>): seq<Message>
    requires ms != [] && ms[0].marks != []
  {
    ms[0 := ms[0].(marks := ms[0].marks[1..])]
  }

  lemma AlignedStart(ms: seq<Message>)
    requires Tidy(ms)
    ensures Aligned(ms, 0, 0, Window(ms), 0)
  {}

  lemma AlignedPlace(ms: seq<Message>, k: nat, f: nat, w0: seq<Out>, gone: nat)
    requires Aligned(ms, k, f, w0, gone) && k < |ms| && f < |ms[k].marks|
    ensures Place(ms, k, f) < |Window(ms)| && gone + Place(ms, k, f) < |w0|
    ensures w0[gone + Place(ms, k, f)] == Window(ms)[Place(ms, k, f)] == Outs(ms[k])[f]
  {
    WindowAt(ms, k, f);
  }

  lemma AlignedDrop(ms: seq<Message>, w0: seq<Out>, gone: nat)
    requires Aligned(ms, 0, 0, w0, gone) && ms != [] && ms[0].marks != []
    ensures Aligned(Dropped(ms), 0, 0, w0, gone + 1)
  {
    DropFirst(ms);
    var w := Window(Dropped(ms));
    forall i | 0 <= i < |w| ensures w[i] == w0[gone + 1 + i] {
      assert w[i] == Window(ms)[i + 1];
    }
  }

  lemma AlignedErase(ms: seq<Message>, w0: seq<Out>, gone: nat)
    requires Aligned(ms, 0, 0, w0, gone) && ms != [] && ms[0].marks == []
    ensures Aligned(ms[1..], 0, 0, w0, gone)
  {
    DropEmpty(ms);
  }

  lemma AlignedSkip(ms: seq<Message>, k: nat, f: nat, w0: seq<Out>, gone: nat)
    requires Aligned(ms, k, f, w0, gone) && k < |ms| && f < |ms[k].marks|
    ensures Aligned(ms, k, f + 1, w0, gone)
  {}

  lemma AlignedNext(ms: seq<Message>, k: nat, w0: seq<Out>, gone: nat)
    requires k < |ms| && ms[k].marks != []
    requires Aligned(ms, k, |ms[k].marks|, w0, gone)
    ensures Aligned(ms, k + 1, 0, w0, gone)
    ensures Place(ms, k + 1, 0) == Place(ms, k, |ms[k].marks|)
  {
    NextMessage(ms, k);
  }

  lemma TidyDated(ms: seq<Message>, k: nat, f: nat, date: nat)
    requires Tidy(ms) && k < |ms| && f < |ms[k].marks|
    ensures Tidy(ms[k := Dated(ms[k], f, date)])
  {
    DatedOuts(ms[k], f, date);
    var ns := ms[k := Dated(ms[k], f, date)];
    forall i | 1 <= i < |ns| ensures ns[i].marks != [] && ns[i].marks[0].offset == 0 {
      assert ms[i].marks != [] && ms[i].marks[0].offset == 0;
    }
  }

  lemma AlignedUpdate(ms: seq<Message>, ns: seq<Message>, k: nat, f: nat, w0: seq<Out>, gone: nat, date: nat)
    requires Aligned(ms, k, f, w0, gone) && k < |ms| && f < |ms[k].marks|
    requires Tidy(ns) && |ns| == |ms| && |ns[k].marks| == |ms[k].marks| && (k > 0 ==> ns[0].marks != [])
    requires Place(ns, k, f) == Place(ms, k, f) < |Window(ms)|
    requires Window(ns) == Window(ms)[Place(ms, k, f) := Window(ms)[Place(ms, k, f)].(sentAt := date)]
    ensures Aligned(ns, k, f + 1, w0, gone)
  {
    assert Place(ns, k, f + 1) == Place(ns, k, f) + 1;
    hide Tidy, Window, Place, AllOrdered, Remains;
    RemainsDated(Window(ms), w0, gone, Place(ms, k, f), date);
  }

  lemma RemainsDated(w: seq<Out>, w0: seq<Out>, gone: nat, p: nat, date: nat)
    requires gone + |w| == |w0| && Remains(w, w0, gone, p) && p < |w|
    ensures Remains(w[p := w[p].(sentAt := date)], w0, gone, p + 1)
  {
  }

  lemma AlignedDate(ms: seq<Message>, k: nat, f: nat, w0: seq<Out>, gone: nat, date: nat)
    requires Aligned(ms, k, f, w0, gone) && k < |ms| && f < |ms[k].marks|
    ensures var ns, p := ms[k := Dated(ms[k], f, date)], Place(ms, k, f);
            && Aligned(ns, k, f + 1, w0, gone) && Place(ns, k, f + 1) == p + 1
            && p < |Window(ms)| && Window(ns) == Window(ms)[p := Window(ms)[p].(sentAt := date)]
  {
    TidyDated(ms, k, f, date);
    DateEntry(ms, k, f, date);
    AlignedUpdate(ms, ms[k := Dated(ms[k], f, date)], k, f, w0, gone, date);
  }

  /** What has been established about the part of the window already passed, for a current
      acknowledgment: `gone` fragments released, `pos` more passed, `acked` the last stage released
      or about to be. */
  ghost predicate Passed(a: Ack, top: nat, limit: nat, w0: seq<Out>, base: nat, acked: nat, gone: nat, w: seq<Out>,
                         pos: nat, stages: seq<nat>)
  {
    && base <= acked <= limit == base + |w0| && gone + |w| == |w0| && pos <= |w|
    && (forall i :: 0 <= i < acked - base ==> Releasable(a, limit, base + 1 + i, w0[i]))
    && (forall i :: 0 <= i < pos ==> w[i] == Treated(a, top, limit, base + gone + 1 + i, w0[gone + i]))
    && (pos > 0 ==> !Releasable(a, limit, base + gone + 1, w0[gone]))
    && stages == Repeats(a, top, limit, w0, base, gone, gone + pos)
  }

  /** What the range cursor still says: a hole being walked through, then the pairs not yet read. */
  function Ahead(sc: Scan, rest: seq<(nat, nat)>, limit: nat, s: nat): Verdict
  {
    if sc.lostCount > 0 && s < sc.lostStage then Received
    else if sc.lostCount > 0 && s < sc.lostStage + sc.lostCount then Lost(sc.stageRead)
    else Judge(sc.stageRead, rest, limit, s)
  }

  /** From stage `e` on, the range cursor agrees with the acknowledgment as a whole. Before a hole past
      the last stage acknowledged is found, the ranges still to be read are legible. */
  ghost predicate Tracks(a: Ack, limit: nat, acked: nat, e: nat, sc: Scan, rest: seq<(nat, nat)>)
  {
    && e > a.stage
    && sc.stageRead + Span(rest) < 0x1_0000_0000
    && (if sc.lostCount == 0 then e <= sc.stageRead + 1 || (e == acked + 1 && Legible(sc.stageRead, rest, acked))
        else e <= sc.lostStage && sc.lostStage + sc.lostCount <= sc.stageRead)
    && forall s :: e <= s <= limit ==> Judge(a.stage, a.pairs, limit, s) == Ahead(sc, rest, limit, s)
  }

  /** All is acknowledged, or the range cursor is caught in a hole behind the last stage acknowledged, or will be. */
  ghost predicate Strays(acked: nat, limit: nat, sc: Scan, rest: seq<(nat, nat)>)
  {
    acked == limit ||
    if sc.lostCount == 0 then !Legible(sc.stageRead, rest, acked) && sc.stageRead + Span(rest) < 0x1_0000_0000
    else sc.lostStage <= acked
  }

  /** Nothing more is known from stage `e` on. */
  ghost predicate Silent(a: Ack, limit: nat, e: nat)
  {
    e > a.stage && forall s :: e <= s <= limit ==> Judge(a.stage, a.pairs, limit, s).Unknown?
  }

  /** What the range cursor becomes when the next pair is read. */
  function Opened(sc: Scan, pair: (nat, nat)): Scan
  {
    var first, count := sc.stageRead + 1, pair.0 + 1;
    sc.(lostCount := count, lostStage := first, stageRead := first + count + pair.1)
  }

  /** And when the first stage of its hole is acknowledged already. */
  function Narrowed(sc: Scan): Scan
    requires sc.lostCount > 0
  {
    sc.(lostCount := sc.lostCount - 1, lostStage := sc.lostStage + 1)
  }

  lemma TracksRead(a: Ack, limit: nat, acked: nat, e: nat, sc: Scan, rest: seq<(nat, nat)>)
    requires Tracks(a, limit, acked, e, sc, rest) && sc.lostCount == 0 && rest != [] && acked < e <= limit
    ensures var sc' := Opened(sc, rest[0]);
            && sc'.stageRead < 0x1_0000_0000
            && (sc'.lostStage > limit ==> Silent(a, limit, e))
            && (sc'.lostStage <= limit ==>
                  Tracks(a, limit, acked, e, if sc'.lostStage <= acked then Narrowed(sc') else sc', rest[1..]))
  {
    var sc' := Opened(sc, rest[0]);
    var sc'' := if sc'.lostStage <= acked then Narrowed(sc') else sc';
    if sc'.lostStage <= limit {
      forall s | e <= s <= limit ensures Judge(a.stage, a.pairs, limit, s) == Ahead(sc'', rest[1..], limit, s) {
        assert Judge(a.stage, a.pairs, limit, s) == Ahead(sc, rest, limit, s) == Judge(sc.stageRead, rest, limit, s);
      }
    }
  }

  lemma TracksReceived(a: Ack, limit: nat, acked: nat, acked': nat, e: nat, sc: Scan, rest: seq<(nat, nat)>)
    requires Tracks(a, limit, acked, e, sc, rest) && sc.lostCount > 0 && sc.lostStage != e && e <= limit
    ensures e > a.stage && Judge(a.stage, a.pairs, limit, e).Received?
    ensures Tracks(a, limit, acked', e + 1, sc, rest)
  {}

  lemma TracksLost(a: Ack, limit: nat, acked: nat, acked': nat, e: nat, sc: Scan, rest: seq<(nat, nat)>)
    requires Tracks(a, limit, acked, e, sc, rest) && sc.lostCount > 0 && sc.lostStage == e && e <= limit
    ensures e > a.stage && Judge(a.stage, a.pairs, limit, e) == Lost(sc.stageRead)
    ensures Tracks(a, limit, acked', e + 1, Narrowed(sc), rest)
  {}

  lemma TracksIgnores(a: Ack, limit: nat, acked: nat, e: nat, sc: Scan, sc': Scan, rest: seq<(nat, nat)>)
    requires Tracks(a, limit, acked, e, sc, rest)
    requires sc'.lostCount == sc.lostCount && sc'.lostStage == sc.lostStage && sc'.stageRead == sc.stageRead
    ensures Tracks(a, limit, acked, e, sc', rest)
  {
    forall s | e <= s <= limit ensures Judge(a.stage, a.pairs, limit, s) == Ahead(sc', rest, limit, s) {
      assert Ahead(sc', rest, limit, s) == Ahead(sc, rest, limit, s);
    }
  }

  /** A cursor that strays finds one more pair, and strays on. */
  lemma StraysRead(acked: nat, limit: nat, sc: Scan, rest: seq<(nat, nat)>)
    requires Strays(acked, limit, sc, rest) && sc.lostCount == 0 && acked < limit
    ensures rest != []
    ensures var sc' := Opened(sc, rest[0]);
            sc'.lostStage < acked && sc'.stageRead < 0x1_0000_0000 && Strays(acked, limit, Narrowed(sc'), rest[1..])
  {}

  lemma PassedStart(v: Link, a: Ack, sc: Scan, acked: nat)
    requires Current(v, a) && |v.log| == v.acked + |v.window| && acked == if a.stage > v.acked then a.stage else v.acked
    requires sc.lostCount == 0 && sc.lostStage == 0 && sc.stageRead == a.stage
    ensures Passed(a, Top(v, a), |v.log|, v.window, v.acked, acked, 0, v.window, 0, [])
    ensures Tracks(a, |v.log|, acked, acked + 1, sc, a.pairs)
  {
  }

  lemma StraysStart(v: Link, a: Ack, sc: Scan, acked: nat)
    requires Astray(v, a) && sc.lostCount == 0 && sc.stageRead == a.stage
    requires acked == if a.stage > |v.log| then |v.log| else if a.stage <= v.acked then v.acked else a.stage
    ensures Strays(acked, |v.log|, sc, a.pairs)
  {}

  lemma PassedNothing(a: Ack, top: nat, limit: nat, w0: seq<Out>, base: nat, acked: nat, gone: nat, w: seq<Out>,
                      stages: seq<nat>)
    requires Passed(a, top, limit, w0, base, acked, gone, w, 0, stages)
    ensures stages == []
  {}

  /** One fragment leaves in front. */
  lemma PassedDrop(a: Ack, top: nat, limit: nat, w0: seq<Out>, base: nat, acked: nat, gone: nat, w: seq<Out>)
    requires Passed(a, top, limit, w0, base, acked, gone, w, 0, []) && w != []
    ensures Passed(a, top, limit, w0, base, acked, gone + 1, w[1..], 0, [])
  {}

  /** The next stage is released too. */
  lemma PassedRelease(a: Ack, top: nat, limit: nat, w0: seq<Out>, base: nat, gone: nat, w: seq<Out>)
    requires Passed(a, top, limit, w0, base, base + gone, gone, w, 0, []) && gone < |w0|
    requires Releasable(a, limit, base + gone + 1, w0[gone])
    ensures Passed(a, top, limit, w0, base, base + gone + 1, gone, w, 0, [])
  {}

  /** The next fragment stays, with its date renewed when it is repeated. */
  lemma PassedKeep(a: Ack, top: nat, limit: nat, w0: seq<Out>, base: nat, acked: nat, gone: nat, w: seq<Out>,
                   w': seq<Out>, pos: nat, stages: seq<nat>)
    requires Passed(a, top, limit, w0, base, acked, gone, w, pos, stages) && pos < |w| == |w'|
    requires forall i :: 0 <= i < pos ==> w'[i] == w[i]
    requires w'[pos] == Treated(a, top, limit, base + gone + 1 + pos, w0[gone + pos])
    requires pos == 0 ==> !Releasable(a, limit, base + gone + 1, w0[gone])
    ensures var s := base + gone + 1 + pos;
            Passed(a, top, limit, w0, base, acked, gone, w', pos + 1,
                   stages + if Resent(a, top, limit, s, w0[gone + pos]) then [s] else [])
  {
    assert gone + (pos + 1) - 1 == gone + pos;
  }

  lemma {:induction false} RepeatsEnd(a: Ack, top: nat, limit: nat, w: seq<Out>, base: nat, lo: nat, mid: nat, hi: nat)
    requires lo <= mid <= hi <= |w|
    requires forall i :: mid <= i < hi ==> !Resent(a, top, limit, base + 1 + i, w[i])
    ensures Repeats(a, top, limit, w, base, lo, hi) == Repeats(a, top, limit, w, base, lo, mid)
    decreases hi - mid
  {
    if mid == hi {
    } else {
      RepeatsEnd(a, top, limit, w, base, lo, mid, hi - 1);
      assert !Resent(a, top, limit, base + 1 + (hi - 1), w[hi - 1]);
    }
  }

  /** At the end of the loop the acknowledgment is settled. */
  lemma PassedSettles(v: Link, v': Link, a: Ack, segs: seq<Segment>, gone: nat, pos: nat, e: nat)
    requires |v.log| == v.acked + |v.window| && v'.acked == v.acked + gone
    requires Passed(a, Top(v, a), |v.log|, v.window, v.acked, v'.acked, gone, v'.window, pos, Stages(segs))
    requires forall i :: pos <= i < |v'.window| ==> v'.window[i] == v.window[gone + i]
    requires e == v.acked + gone + pos + 1 && (pos < |v'.window| ==> Silent(a, |v.log|, e))
    ensures Settled(v, v', a, segs)
  {
    var top, limit := Top(v, a), |v.log|;
    hide Judge, Resent, Releasable, Repeats;
    forall i | pos <= i < |v'.window|
      ensures v'.window[i] == Treated(a, top, limit, v.acked + gone + 1 + i, v.window[gone + i])
    {
      NothingKnown(a, top, limit, v.acked + gone + 1 + i, v.window[gone + i]);
    }
    forall i | gone + pos <= i < |v.window| ensures !Resent(a, top, limit, v.acked + 1 + i, v.window[i]) {
      NothingKnown(a, top, limit, v.acked + 1 + i, v.window[i]);
    }
    RepeatsEnd(a, top, limit, v.window, v.acked, gone, gone + pos, |v.window|);
    if pos == 0 && gone < |v.window| {
      NothingKnown(a, top, limit, v.acked + 1 + gone, v.window[gone]);
    }
  }

  lemma NothingKnown(a: Ack, top: nat, limit: nat, s: nat, o: Out)
    requires s > a.stage && Judge(a.stage, a.pairs, limit, s).Unknown?
    ensures !Releasable(a, limit, s, o) && !Resent(a, top, limit, s, o)
  {
  }
}
