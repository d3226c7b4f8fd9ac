/** The retransmission timer of a flow writer: how often it fires, and when it gives up. */
module Triggers {

  datatype Outcome = Quiet | Raised | Failed

  /** The counters of a running trigger. */
  datatype Clock = Clock(time: nat, cycle: int)

  const FRESH := Clock(0, -1)

  /** One management tick; the first second after a start or a reset does not count. */
  function Tick(c: Clock, elapsed: bool): (Clock, Outcome)
  {
    if c.time == 0 && !elapsed then (c, Quiet)
    else if c.time + 1 >= c.cycle then
      (Clock(0, c.cycle + 1), if c.cycle + 1 == 7 then Failed else Raised)
    else (Clock(c.time + 1, c.cycle), Quiet)
  }

  /** The outcomes of a run of ticks without reset, up to the failure that ends it. */
  function Run(c: Clock, ticks: seq<bool>): seq<Outcome>
    decreases |ticks|
  {
    if ticks == [] then []
    else
      var (c', o) := Tick(c, ticks[0]);
      [o] + if o == Failed then [] else Run(c', ticks[1..])
  }

  function Count(os: seq<Outcome>, o: Outcome): nat
  {
    if os == [] then 0 else (if os[0] == o then 1 else 0) + Count(os[1..], o)
  }

  /** Ticks that count: the counter is under way or the first second is over. */
  function Eligible(c: Clock, ticks: seq<bool>): nat
    decreases |ticks|
  {
    if ticks == [] then 0
    else
      var (c', o) := Tick(c, ticks[0]);
      (if c.time == 0 && !ticks[0] then 0 else 1) + if o == Failed then 0 else Eligible(c', ticks[1..])
  }

  /** The ticks, among those that count, at which the writer is repeated, and the one at which it fails. */
  predicate Raises(n: nat) { n == 1 || n == 2 || n == 3 || n == 5 || n == 8 || n == 12 || n == 17 }

  const FAILS := 23

  /** Whether the counter is under way after `n` ticks that count, so that the next counts whatever the time. */
  predicate UnderWay(n: nat) { n > 0 && !Raises(n) }

  /** What a trigger is to do in a run of ticks, of which `n` counted before. */
  function Scheduled(n: nat, ticks: seq<bool>): seq<Outcome>
    decreases |ticks|
  {
    if ticks == [] then []
    else if !UnderWay(n) && !ticks[0] then [Quiet] + Scheduled(n, ticks[1..])
    else if n + 1 == FAILS then [Failed]
    else [if Raises(n + 1) then Raised else Quiet] + Scheduled(n + 1, ticks[1..])
  }

  /** Repetitions due by the `n`th tick that counts. */
  function Due(n: nat): nat { if n == 0 then 0 else Due(n - 1) + if Raises(n) then 1 else 0 }

  /** The counters after `n` ticks that count. */
  function ClockAt(n: nat): Clock
    requires n < FAILS
  {
    if n < 3 then Clock(0, n - 1)
    else if n < 5 then Clock(n - 3, 2)
    else if n < 8 then Clock(n - 5, 3)
    else if n < 12 then Clock(n - 8, 4)
    else if n < 17 then Clock(n - 12, 5)
    else Clock(n - 17, 6)
  }

  lemma TickAt(n: nat, elapsed: bool)
    requires n < FAILS
    ensures ClockAt(n).time == 0 <==> !UnderWay(n)
    ensures var (c, o) := Tick(ClockAt(n), elapsed);
            if !UnderWay(n) && !elapsed then c == ClockAt(n) && o == Quiet
            else if n + 1 == FAILS then o == Failed
            else c == ClockAt(n + 1) && o == if Raises(n + 1) then Raised else Quiet
  {}

  /** A trigger does what the schedule says. */
  lemma {:induction false} RunIsScheduled(n: nat, ticks: seq<bool>)
    requires n < FAILS
    ensures Run(ClockAt(n), ticks) == Scheduled(n, ticks)
    decreases |ticks|
  {
    if ticks == [] {
    } else {
      hide Tick, ClockAt, UnderWay;
      TickAt(n, ticks[0]);
      RunIsScheduled(n, ticks[1..]);
      if n + 1 < FAILS { RunIsScheduled(n + 1, ticks[1..]); }
    }
  }

  /** Counting in front. */
  lemma CountCons(o: Outcome, os: seq<Outcome>, x: Outcome)
    ensures Count([o] + os, x) == (if o == x then 1 else 0) + Count(os, x)
    ensures Count([o] + [], x) == if o == x then 1 else 0
  {
    assert ([o] + os)[1..] == os && [o] + [] == [o] && [o][1..] == [];
  }

  /** The counts, one tick unfolded. */
  lemma OneTick(n: nat, ticks: seq<bool>, x: Outcome)
    requires n < FAILS && ticks != [] && x != Quiet
    ensures var counted, count := Eligible(ClockAt(n), ticks), Count(Run(ClockAt(n), ticks), x);
            if !UnderWay(n) && !ticks[0] then
              counted == Eligible(ClockAt(n), ticks[1..]) && count == Count(Run(ClockAt(n), ticks[1..]), x)
            else if n + 1 == FAILS then counted == 1 && count == if x == Failed then 1 else 0
            else
              && counted == 1 + Eligible(ClockAt(n + 1), ticks[1..])
              && count == (if x == Raised && Raises(n + 1) then 1 else 0) + Count(Run(ClockAt(n + 1), ticks[1..]), x)
  {
    hide Tick, ClockAt, Count, UnderWay, Raises;
    TickAt(n, ticks[0]);
    var (c, o) := Tick(ClockAt(n), ticks[0]);
    CountCons(o, Run(c, ticks[1..]), x);
  }

  /** How many of the ticks count tells how often the writer is repeated, and whether it fails. */
  lemma {:induction false} RunCounts(n: nat, ticks: seq<bool>)
    requires n < FAILS
    ensures var m, os := n + Eligible(ClockAt(n), ticks), Run(ClockAt(n), ticks);
            && m <= FAILS && Count(os, Raised) == Due(m) - Due(n) && Count(os, Failed) == if m == FAILS then 1 else 0
    decreases |ticks|
  {
    hide *;
    if ticks == [] {
      NoTick(n);
    } else {
      OneTick(n, ticks, Raised);
      OneTick(n, ticks, Failed);
      DueNext(n);
      if !UnderWay(n) && !ticks[0] {
        RunCounts(n, ticks[1..]);
      } else if n + 1 < FAILS {
        RunCounts(n + 1, ticks[1..]);
      }
    }
  }

  lemma NoTick(n: nat)
    requires n < FAILS
    ensures Eligible(ClockAt(n), []) == 0 && Run(ClockAt(n), []) == [] && forall o :: Count([], o) == 0
  {
    hide ClockAt;
  }

  lemma DueNext(n: nat)
    ensures Due(n + 1) == Due(n) + if Raises(n + 1) then 1 else 0
    ensures n + 1 == FAILS ==> !Raises(n + 1)
  {}

  lemma {:induction false} DueIs(n: nat)
    requires n <= FAILS
    ensures Due(n) == if n < 3 then n else if n < 5 then 3 else if n < 8 then 4 else if n < 12 then 5
                      else if n < 17 then 6 else 7
  {
    if n == 0 {
    } else {
      DueIs(n - 1);
    }
  }

  /** Without a reset the writer is repeated at the 1st, 2nd, 3rd, 5th, 8th, 12th and 17th tick that counts and at
      no other, so at most seven times; and it fails on the 23rd, neither earlier nor later, having been repeated
      all seven times. */
  lemma BoundedRetry(ticks: seq<bool>)
    ensures var os, n := Run(FRESH, ticks), Eligible(FRESH, ticks);
            && os == Scheduled(0, ticks) && n <= 23
            && Count(os, Raised) == Due(n) <= 7
            && (Count(os, Failed) == 1 <==> n == 23)
            && (Count(os, Failed) == 1 ==> Count(os, Raised) == 7)
  {
    assert FRESH == ClockAt(0);
    hide Run, Eligible, Scheduled, Count, Due;
    RunIsScheduled(0, ticks);
    RunCounts(0, ticks);
    DueIs(0);
    DueIs(Eligible(FRESH, ticks));
  }

  class Trigger {
    var time: nat
    var cycle: int
    var running: bool

    ghost function Clocked(): Clock reads this { Clock(time, cycle) }

    constructor ()
      ensures Clocked() == FRESH && !running
    {
      time, cycle, running := 0, -1, false;
    }

    method Reset()
      modifies this
      ensures Clocked() == FRESH && running == old(running)
    {
      time := 0;
      cycle := -1;
    }

    method Start()
      modifies this
      ensures running
      ensures Clocked() == if old(running) then old(Clocked()) else FRESH
    {
      if running {
        return;
      }
      Reset();
      running := true;
    }

    method Stop()
      modifies this
      ensures !running && Clocked() == old(Clocked())
    {
      running := false;
    }

    method Raise(elapsed: bool) returns (o: Outcome)
      modifies this
      ensures running == old(running)
      ensures if running then (Clocked(), o) == Tick(old(Clocked()), elapsed)
              else Clocked() == old(Clocked()) && o == Quiet
    {
      if !running {
        return Quiet;
      }
      if time == 0 && !elapsed {
        return Quiet;
      }
      time := time + 1;
      if time >= cycle {
        time := 0;
        cycle := cycle + 1;
        if cycle == 7 {
          return Failed;
        }
        return Raised;
      }
      return Quiet;
    }
  }
}
