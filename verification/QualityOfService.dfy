/** Loss statistics over the last ten seconds of acknowledged fragments. */
module Quality {

  datatype Sample = Sample(time: nat, received: nat, lost: nat)

  const SPAN := 10000

  function Bound(time: nat): nat { if time < SPAN then 0 else time - SPAN }

  function Losses(s: seq<Sample>): nat { if s == [] then 0 else s[0].lost + Losses(s[1..]) }

  function Totals(s: seq<Sample>): nat { if s == [] then 0 else s[0].received + s[0].lost + Totals(s[1..]) }

  /** The samples not older than `bound`. */
  function Recent(s: seq<Sample>, bound: nat): seq<Sample>
  {
    if s == [] then [] else (if s[0].time >= bound then [s[0]] else []) + Recent(s[1..], bound)
  }

  /** What remains once the oldest samples are erased up to the first that is recent enough. */
  function Erased(s: seq<Sample>, bound: nat): seq<Sample>
  {
    if s != [] && s[0].time < bound then Erased(s[1..], bound) else s
  }

  /** The window after a whole history of samples. */
  function Kept(history: seq<Sample>): seq<Sample>
  {
    if history == [] then []
    else
      var last := history[|history| - 1];
      Erased(Kept(history[..|history| - 1]), Bound(last.time)) + [last]
  }

  /** The share of lost fragments among those in `s`. */
  function Rate(s: seq<Sample>): real
    requires Totals(s) > 0
  {
    Losses(s) as real / Totals(s) as real
  }

  /** One fragment lost out of four is a quarter. */
  lemma RateExample(time: nat)
    ensures Totals([Sample(time, 3, 1)]) == 4 && Rate([Sample(time, 3, 1)]) == 0.25
  {
    assert [Sample(time, 3, 1)][1..] == [];
    assert Losses([]) == 0 && Losses([Sample(time, 3, 1)]) == 1;
  }

  predicate InTime(s: seq<Sample>) { forall i, j :: 0 <= i < j < |s| ==> s[i].time <= s[j].time }

  lemma {:induction false} SumsAppend(s: seq<Sample>, x: Sample)
    ensures Losses(s + [x]) == Losses(s) + x.lost && Totals(s + [x]) == Totals(s) + x.received + x.lost
  {
    if s == [] {
      assert s + [x] == [x] && [x][1..] == [];
    } else {
      SumsAppend(s[1..], x);
      assert (s + [x])[0] == s[0] && (s + [x])[1..] == s[1..] + [x];
    }
  }

  lemma {:induction false} LossesAmongTotals(s: seq<Sample>)
    ensures Losses(s) <= Totals(s)
  {
    if s == [] {
    } else {
      LossesAmongTotals(s[1..]);
    }
  }

  lemma {:induction false} RecentAppend(s: seq<Sample>, x: Sample, bound: nat)
    ensures Recent(s + [x], bound) == Recent(s, bound) + if x.time >= bound then [x] else []
  {
    if s == [] {
      assert s + [x] == [x] && [x][1..] == [];
    } else {
      var one, tail := if s[0].time >= bound then [s[0]] else [], if x.time >= bound then [x] else [];
      RecentAppend(s[1..], x, bound);
      assert (s + [x])[0] == s[0] && (s + [x])[1..] == s[1..] + [x];
      calc {
        Recent(s + [x], bound);
        one + Recent(s[1..] + [x], bound);
        one + (Recent(s[1..], bound) + tail);
        one + Recent(s[1..], bound) + tail;
      }
    }
  }

  lemma {:induction false} RecentHas(s: seq<Sample>, bound: nat)
    ensures forall x :: x in Recent(s, bound) <==> x in s && x.time >= bound
  {
    if s == [] {
    } else {
      RecentHas(s[1..], bound);
      assert s == [s[0]] + s[1..];
    }
  }

  /** A later bound only removes from what an earlier one kept. */
  lemma {:induction false} RecentTwice(s: seq<Sample>, a: nat, b: nat)
    requires a <= b
    ensures Recent(Recent(s, a), b) == Recent(s, b)
  {
    if s == [] {
    } else {
      RecentTwice(s[1..], a, b);
      if s[0].time >= a {
        assert Recent(s, a)[0] == s[0] && Recent(s, a)[1..] == Recent(s[1..], a);
      } else {
        assert Recent(s, a) == Recent(s[1..], a);
      }
    }
  }

  lemma InTimeRest(s: seq<Sample>)
    requires InTime(s) && s != []
    ensures InTime(s[1..]) && forall x :: x in s[1..] ==> s[0].time <= x.time
  {
    assert forall i, j :: 0 <= i < j < |s[1..]| ==> s[1..][i] == s[i + 1] && s[1..][j] == s[j + 1];
  }

  lemma InTimeStart(s: seq<Sample>, n: nat)
    requires InTime(s) && n < |s|
    ensures InTime(s[..n]) && (n > 0 ==> s[n - 1].time <= s[n].time)
  {
  }

  /** Erasing from the front of samples in time order keeps exactly the recent ones. */
  lemma {:induction false} ErasedIsRecent(s: seq<Sample>, bound: nat)
    requires InTime(s)
    ensures Erased(s, bound) == Recent(s, bound)
  {
    if s == [] {
    } else {
      InTimeRest(s);
      ErasedIsRecent(s[1..], bound);
      if s[0].time >= bound && |s| > 1 {
        assert s[1] in s[1..];
        assert Erased(s[1..], bound) == s[1..];
      }
    }
  }

  lemma InTimeMore(x: Sample, s: seq<Sample>)
    requires InTime(s) && forall y :: y in s ==> x.time <= y.time
    ensures InTime([x] + s)
  {
  }

  lemma {:induction false} RecentInTime(s: seq<Sample>, bound: nat)
    requires InTime(s)
    ensures InTime(Recent(s, bound))
    ensures forall x :: x in Recent(s, bound) ==> x in s
  {
    if s == [] {
    } else {
      InTimeRest(s);
      RecentInTime(s[1..], bound);
      hide InTime;
      InTimeMore(s[0], Recent(s[1..], bound));
    }
  }

  /** For samples in time order the window holds exactly those of the whole history that are at most ten
      seconds older than the last. */
  lemma {:induction false} KeptIsRecent(history: seq<Sample>)
    requires InTime(history) && history != []
    ensures Kept(history) == Recent(history, Bound(history[|history| - 1].time))
  {
    var n := |history| - 1;
    var before, x := history[..n], history[n];
    InTimeStart(history, n);
    hide InTime, Recent, Erased;
    var bound := Bound(x.time);
    assert history == before + [x];
    RecentAppend(before, x, bound);
    if before == [] {
      ErasedIsRecent([], bound);
    } else {
      KeptIsRecent(before);
      var earlier := Bound(before[n - 1].time);
      RecentInTime(before, earlier);
      ErasedIsRecent(Recent(before, earlier), bound);
      RecentTwice(before, earlier, bound);
    }
  }

  /** That is, those that are not older by more than 10000 milliseconds. */
  lemma KeptIsTenSeconds(history: seq<Sample>, x: Sample)
    requires InTime(history) && history != []
    ensures x in Kept(history) <==> x in history && history[|history| - 1].time <= x.time + 10000
  {
    hide Kept, Recent;
    KeptIsRecent(history);
    RecentHas(history, Bound(history[|history| - 1].time));
  }

  /** The latency drifts by what elapsed here beyond the difference of the time stamps, and is never negative;
      stamps that go backwards, or the first one, leave it as it is. */
  function Delayed(latency: nat, prevTime: nat, time: nat, elapsed: nat): (r: nat)
    ensures r - latency <= elapsed && (prevTime == 0 || time < prevTime ==> r == latency)
  {
    if prevTime == 0 || time < prevTime then latency
    else
      var drifted := latency + elapsed - (time - prevTime);
      if drifted < 0 then 0 else drifted
  }

  /** A time stamp and the milliseconds that elapsed here since the one before. */
  datatype Stamp = Stamp(time: nat, elapsed: nat)

  /** The stamp before position `i`. */
  function TimeBefore(prev: nat, xs: seq<Stamp>, i: nat): nat
    requires i <= |xs|
  {
    if i == 0 then prev else xs[i - 1].time
  }

  /** The latency after a run of stamps. */
  function LatencyAfter(latency: nat, prev: nat, xs: seq<Stamp>): nat
  {
    if xs == [] then latency
    else
      var n := |xs| - 1;
      Delayed(LatencyAfter(latency, prev, xs[..n]), TimeBefore(prev, xs, n), xs[n].time, xs[n].elapsed)
  }

  /** The time that elapsed from position `i` on. */
  function ElapsedFrom(xs: seq<Stamp>, i: nat): nat
    requires i <= |xs|
  {
    if i == |xs| then 0 else ElapsedFrom(xs[..|xs| - 1], i) + xs[|xs| - 1].elapsed
  }

  /** By how much that exceeds the time the stamps tell. */
  function DriftFrom(prev: nat, xs: seq<Stamp>, i: nat): int
    requires i <= |xs|
  {
    ElapsedFrom(xs, i) - (TimeBefore(prev, xs, |xs|) - TimeBefore(prev, xs, i))
  }

  predicate StampsInTime(prev: nat, xs: seq<Stamp>)
  {
    forall i :: 0 <= i < |xs| ==> 0 < TimeBefore(prev, xs, i) <= xs[i].time
  }

  /** No drift since any point of the run exceeds `r`, nor the whole drift on top of the first latency. */
  ghost predicate Tops(r: nat, latency: nat, prev: nat, xs: seq<Stamp>)
  {
    latency + DriftFrom(prev, xs, 0) <= r && forall i :: 0 <= i <= |xs| ==> DriftFrom(prev, xs, i) <= r
  }

  /** One of them it is. */
  ghost predicate Among(r: nat, latency: nat, prev: nat, xs: seq<Stamp>)
  {
    r == latency + DriftFrom(prev, xs, 0) || exists i :: 0 <= i <= |xs| && r == DriftFrom(prev, xs, i)
  }

  /** What the last stamp adds to every drift. */
  function LastDrift(prev: nat, xs: seq<Stamp>): int
    requires xs != []
  {
    var n := |xs| - 1;
    xs[n].elapsed - (xs[n].time - TimeBefore(prev, xs, n))
  }

  lemma DriftNext(prev: nat, xs: seq<Stamp>, i: nat)
    requires xs != [] && i <= |xs|
    ensures i < |xs| ==> DriftFrom(prev, xs, i) == DriftFrom(prev, xs[..|xs| - 1], i) + LastDrift(prev, xs)
    ensures i == |xs| ==> DriftFrom(prev, xs, i) == 0
  {}

  lemma LatencyNext(latency: nat, prev: nat, xs: seq<Stamp>)
    requires xs != [] && StampsInTime(prev, xs)
    ensures StampsInTime(prev, xs[..|xs| - 1])
    ensures var r := LatencyAfter(latency, prev, xs[..|xs| - 1]) + LastDrift(prev, xs);
            LatencyAfter(latency, prev, xs) == if r < 0 then 0 else r
  {
    var n := |xs| - 1;
    assert 0 < TimeBefore(prev, xs, n) <= xs[n].time;
    forall i | 0 <= i < n ensures 0 < TimeBefore(prev, xs[..n], i) <= xs[..n][i].time {
      assert 0 < TimeBefore(prev, xs, i) <= xs[i].time;
    }
  }

  /** The latency is the greatest drift: that since the start, on top of the first latency, or that since any later
      stamp, the last included, so that it is never negative. */
  lemma {:induction false} LatencyIsGreatestDrift(latency: nat, prev: nat, xs: seq<Stamp>)
    requires StampsInTime(prev, xs)
    ensures Tops(LatencyAfter(latency, prev, xs), latency, prev, xs)
    ensures Among(LatencyAfter(latency, prev, xs), latency, prev, xs)
  {
    if xs == [] {
    } else {
      hide DriftFrom, LatencyAfter, LastDrift, StampsInTime;
      var before := xs[..|xs| - 1];
      LatencyNext(latency, prev, xs);
      LatencyIsGreatestDrift(latency, prev, before);
      TopsNext(LatencyAfter(latency, prev, before), LatencyAfter(latency, prev, xs), latency, prev, xs);
    }
  }

  lemma TopsNext(r: nat, r1: nat, latency: nat, prev: nat, xs: seq<Stamp>)
    requires xs != [] && Tops(r, latency, prev, xs[..|xs| - 1]) && Among(r, latency, prev, xs[..|xs| - 1])
    requires r1 == if r + LastDrift(prev, xs) < 0 then 0 else r + LastDrift(prev, xs)
    ensures Tops(r1, latency, prev, xs) && Among(r1, latency, prev, xs)
  {
    hide DriftFrom, LastDrift;
    var before := xs[..|xs| - 1];
    forall i | 0 <= i <= |xs| ensures DriftFrom(prev, xs, i) <= r1 {
      DriftNext(prev, xs, i);
      assert i < |xs| ==> DriftFrom(prev, before, i) <= r;
    }
    DriftNext(prev, xs, 0);
    DriftNext(prev, xs, |xs|);
    if r1 == 0 {
      assert r1 == DriftFrom(prev, xs, |xs|);
    } else if r != latency + DriftFrom(prev, before, 0) {
      var i :| 0 <= i <= |before| && r == DriftFrom(prev, before, i);
      DriftNext(prev, xs, i);
      assert r1 == DriftFrom(prev, xs, i);
    }
  }

  lemma RateIs(s: seq<Sample>)
    ensures Totals(s) > 0 ==> Rate(s) == Losses(s) as real / Totals(s) as real
  {}

  lemma KeptMore(history: seq<Sample>, x: Sample)
    ensures Kept(history + [x]) == Erased(Kept(history), Bound(x.time)) + [x]
  {
    assert (history + [x])[..|history|] == history;
  }

  class QualityOfService {
    var lostRate: real
    var latency: nat
    var droppedFrames: nat
    var prevTime: nat
    var num: nat
    var den: nat
    var samples: seq<Sample>
    ghost var history: seq<Sample>  // every sample since the last reset

    /** The running counters are the sums over the window of the history. */
    ghost predicate Valid()
      reads this
    {
      && samples == Kept(history)
      && num == Losses(samples) && den == Totals(samples)
      && prevTime == if history == [] then 0 else history[|history| - 1].time
    }

    constructor ()
      ensures Valid() && history == [] && lostRate == 0.0 && latency == 0 && droppedFrames == 0
    {
      lostRate, latency, droppedFrames, prevTime, num, den, samples, history := 0.0, 0, 0, 0, 0, 0, [], [];
    }

    /** Counts a frame not forwarded. */
    method Drop()
      requires Valid()
      modifies `droppedFrames
      ensures Valid() && droppedFrames == old(droppedFrames) + 1
    {
      droppedFrames := droppedFrames + 1;
    }

    /** Adds a sample; `elapsed` are the milliseconds since the one before. */
    method Add(time: nat, received: nat, lost: nat, elapsed: nat)
      requires Valid()
      modifies this
      ensures Valid() && history == old(history) + [Sample(time, received, lost)] && droppedFrames == old(droppedFrames)
      ensures num <= den
      ensures lostRate == if Totals(Kept(history)) == 0 then old(lostRate) else Rate(Kept(history))
      ensures latency == Delayed(old(latency), old(prevTime), time, elapsed)
    {
      hide Kept, Losses, Totals, Erased, Rate, Delayed;
      Delay(time, elapsed);
      prevTime := time;
      num := num + lost;
      den := den + lost + received;
      var sample := Sample(time, received, lost);
      KeptMore(history, sample);
      EraseOlder(Bound(time));
      SumsAppend(samples, sample);
      LossesAmongTotals(samples + [sample]);
      RateIs(samples + [sample]);
      Share();
      samples := samples + [sample];
      history := history + [sample];
    }

    /** How much more time went by here than between the time stamps, added up. */
    method Delay(time: nat, elapsed: nat)
      modifies `latency
      ensures latency == Delayed(old(latency), prevTime, time, elapsed)
    {
      if prevTime > 0 && time >= prevTime {
        latency := if latency + elapsed < time - prevTime then 0 else latency + elapsed - (time - prevTime);
      }
    }

    /** The share of lost fragments, if any were counted. */
    method Share()
      modifies `lostRate
      ensures lostRate == if den == 0 then old(lostRate) else num as real / den as real
    {
      if den > 0 {
        lostRate := num as real / den as real;
      }
    }

    /** Erases samples from the front, taking them out of the counters. */
    method EraseOlder(boundTime: nat)
      requires num >= Losses(samples) && den >= Totals(samples)
      modifies `num, `den, `samples
      ensures samples == Erased(old(samples), boundTime)
      ensures num - Losses(samples) == old(num - Losses(samples)) && den - Totals(samples) == old(den - Totals(samples))
    {
      while samples != [] && samples[0].time < boundTime
        invariant num >= Losses(samples) && den >= Totals(samples)
        invariant num - Losses(samples) == old(num - Losses(samples))
        invariant den - Totals(samples) == old(den - Totals(samples))
        invariant Erased(samples, boundTime) == Erased(old(samples), boundTime)
        decreases |samples|
      {
        den := den - (samples[0].received + samples[0].lost);
        num := num - samples[0].lost;
        samples := samples[1..];
      }
    }

    method Reset()
      modifies this
      ensures Valid() && history == [] && lostRate == 0.0 && latency == 0 && droppedFrames == 0
    {
      lostRate, latency, droppedFrames := 0.0, 0, 0;
      num, den, prevTime, samples, history := 0, 0, 0, [], [];
    }
  }
}
