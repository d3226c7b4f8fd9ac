/** What the stages of a flow mean: a reference that puts fragments back together in stage order. */
module Reassembly {
  import opened Codec
  import opened Wire

  /** What one stage carries; `before` and `after` say that the message began earlier or goes on. */
  datatype Fragment = Fragment(payload: seq<byte>, before: bool, after: bool)

  datatype Assembly = Assembly(done: seq<seq<byte>>, open: Option<seq<byte>>)

  function Join(a: Assembly, f: Fragment): Assembly
  {
    var content := if f.before && a.open.Some? then a.open.value + f.payload else f.payload;
    if f.after then a.(open := Some(content)) else Assembly(a.done + [content], None)
  }

  /** The messages of stages 1 to |log|, and the message still under way. */
  function Assemble(log: seq<Fragment>): Assembly
  {
    if log == [] then Assembly([], None) else Join(Assemble(log[..|log| - 1]), log[|log| - 1])
  }

  /** Stage i + 1 carries something, and continues a message exactly when one is under way. */
  ghost predicate SensibleAt(log: seq<Fragment>, i: nat)
    requires i < |log|
  {
    log[i].payload != [] && (log[i].before <==> Assemble(log[..i]).open.Some?)
  }

  ghost predicate Sensible(log: seq<Fragment>)
  {
    forall i :: 0 <= i < |log| ==> SensibleAt(log, i)
  }

  lemma AssembleNext(log: seq<Fragment>, k: nat)
    requires k < |log|
    ensures Assemble(log[..k + 1]) == Join(Assemble(log[..k]), log[k])
  {
    assert log[..k + 1][..k] == log[..k];
  }

  lemma SensibleNext(log: seq<Fragment>, f: Fragment)
    requires Sensible(log) && f.payload != [] && (f.before <==> Assemble(log).open.Some?)
    ensures Sensible(log + [f]) && Assemble(log + [f]) == Join(Assemble(log), f)
  {
    var l := log + [f];
    assert l[..|log|] == log;
    forall i | 0 <= i < |l| ensures SensibleAt(l, i) {
      if i < |log| {
        assert SensibleAt(log, i) && l[..i] == log[..i];
      }
    }
  }

  /** Whole messages of a shorter run come first among those of a longer one. */
  lemma {:induction false} DonePrefix(log: seq<Fragment>, k: nat, n: nat)
    requires k <= n <= |log|
    ensures Assemble(log[..k]).done <= Assemble(log[..n]).done
  {
    if k == n {
    } else {
      DonePrefix(log, k, n - 1);
      AssembleNext(log, n - 1);
    }
  }

  /** The message that stage `e` completes, if it completes one. */
  function MessageAt(log: seq<Fragment>, e: nat): Option<seq<byte>>
    requires 1 <= e <= |log|
  {
    if log[e - 1].after then None
    else
      AssembleNext(log, e - 1);
      Some(Assemble(log[..e]).done[|Assemble(log[..e]).done| - 1])
  }

  // --- cutting a message into fragments ---

  /** One entry of a message's fragment map: where the fragment starts, and the last stage that had
      been sent when it was sent. */
  datatype Mark = Mark(offset: nat, sentAt: nat)

  datatype Message = Message(bytes: seq<byte>, repeatable: bool, marks: seq<Mark>)

  /** The entries are in offset order, as in an ordered map, and none is past the content. */
  predicate Ordered(m: Message)
  {
    && (forall i, j :: 0 <= i < j < |m.marks| ==> m.marks[i].offset < m.marks[j].offset)
    && (forall i :: 0 <= i < |m.marks| ==> m.marks[i].offset < |m.bytes|)
  }

  function SliceEnd(m: Message, i: nat): nat
    requires i < |m.marks|
  {
    if i + 1 < |m.marks| then m.marks[i + 1].offset else |m.bytes|
  }

  /** The fragment that entry `i` stands for: up to the next entry, or to the end of the message. */
  function Slice(m: Message, i: nat): Fragment
    requires Ordered(m) && i < |m.marks|
  {
    Fragment(m.bytes[m.marks[i].offset..SliceEnd(m, i)], m.marks[i].offset > 0, i + 1 < |m.marks|)
  }

  function Slices(m: Message): seq<Fragment>
    requires Ordered(m)
  {
    seq(|m.marks|, i requires 0 <= i < |m.marks| => Slice(m, i))
  }

  /** What reading the first `n` fragments of `m` after `done` leads to. */
  function ReadSoFar(done: seq<seq<byte>>, m: Message, n: nat): Assembly
    requires Ordered(m) && n <= |m.marks| && m.marks != []
  {
    if n == 0 then Assembly(done, None)
    else if n < |m.marks| then Assembly(done, Some(m.bytes[..m.marks[n].offset]))
    else Assembly(done + [m.bytes], None)
  }

  lemma SliceNext(done: seq<seq<byte>>, m: Message, n: nat)
    requires Ordered(m) && n < |m.marks| && m.marks[0].offset == 0
    ensures Join(ReadSoFar(done, m, n), Slice(m, n)) == ReadSoFar(done, m, n + 1)
    ensures Slice(m, n).payload != [] && (Slice(m, n).before <==> ReadSoFar(done, m, n).open.Some?)
  {
    assert n > 0 ==> m.marks[0].offset < m.marks[n].offset;
    assert m.bytes[..m.marks[n].offset] + Slice(m, n).payload == m.bytes[..SliceEnd(m, n)];
    assert m.bytes[..|m.bytes|] == m.bytes;
  }

  lemma SliceRead(log: seq<Fragment>, done: seq<seq<byte>>, m: Message, n: nat)
    requires Ordered(m) && n < |m.marks| && m.marks[0].offset == 0
    requires Sensible(log) && Assemble(log) == ReadSoFar(done, m, n)
    ensures Sensible(log + [Slice(m, n)]) && Assemble(log + [Slice(m, n)]) == ReadSoFar(done, m, n + 1)
  {
    SliceNext(done, m, n);
    SensibleNext(log, Slice(m, n));
  }

  lemma OneMore(log: seq<Fragment>, s: seq<Fragment>, n: nat)
    requires n < |s|
    ensures log + s[..n + 1] == log + s[..n] + [s[n]]
  {}

  lemma SlicesAt(log: seq<Fragment>, m: Message, n: nat)
    requires Ordered(m) && n <= |m.marks| && m.marks != []
    ensures |Slices(m)| == |m.marks| && (n > 0 ==> Slices(m)[n - 1] == Slice(m, n - 1))
    ensures n == 0 ==> log + Slices(m)[..n] == log && forall done :: ReadSoFar(done, m, n) == Assembly(done, None)
  {
  }

  lemma {:induction false} SlicesSoFar(log: seq<Fragment>, m: Message, n: nat)
    requires Ordered(m) && n <= |m.marks| && m.marks != [] && m.marks[0].offset == 0
    requires Sensible(log) && Assemble(log).open.None?
    ensures Sensible(log + Slices(m)[..n])
    ensures Assemble(log + Slices(m)[..n]) == ReadSoFar(Assemble(log).done, m, n)
  {
    hide *;
    var s := Slices(m);
    SlicesAt(log, m, n);
    if n == 0 {
    } else {
      SlicesSoFar(log, m, n - 1);
      SliceRead(log + s[..n - 1], Assemble(log).done, m, n - 1);
      OneMore(log, s, n - 1);
    }
  }

  /** However a non-empty message was cut, reading its fragments in order gives it back, after the
      messages that came before. */
  lemma CutThenReassemble(log: seq<Fragment>, m: Message)
    requires Ordered(m) && m.marks != [] && m.marks[0].offset == 0
    requires Sensible(log) && Assemble(log).open.None?
    ensures Sensible(log + Slices(m))
    ensures Assemble(log + Slices(m)) == Assembly(Assemble(log).done + [m.bytes], None)
  {
    SlicesSoFar(log, m, |m.marks|);
    assert Slices(m)[..|m.marks|] == Slices(m);
  }

  /** `m` cut up to offset `o`, its fragments being the stages behind `log0`. */
  ghost predicate Cutting(m: Message, o: nat, log0: seq<Fragment>, log: seq<Fragment>)
  {
    && o <= |m.bytes| && (m.marks == [] <==> o == 0)
    && |log| == |log0| + |m.marks| && log[..|log0|] == log0
    && (m.marks != [] ==> m.marks[0].offset == 0)
    && (forall i, j :: 0 <= i < j < |m.marks| ==> m.marks[i].offset < m.marks[j].offset)
    && (forall i :: 0 <= i < |m.marks| ==>
          m.marks[i] == Mark(m.marks[i].offset, |log0| + i + 1) && m.marks[i].offset < o)
    && (forall i :: |log0| <= i < |log| ==> log[i] == CutAt(m, o, i - |log0|))
  }

  function CutAt(m: Message, o: nat, i: nat): Fragment
    requires i < |m.marks|
  {
    var from, to := m.marks[i].offset, if i + 1 < |m.marks| then m.marks[i + 1].offset else o;
    if from <= to <= |m.bytes| then Fragment(m.bytes[from..to], from > 0, to < |m.bytes|)
    else Fragment([], false, false)
  }

  lemma CutStart(m: Message, log: seq<Fragment>)
    requires m.marks == []
    ensures Cutting(m, 0, log, log)
  {}

  /** A further cut changes none of the slices before it. */
  lemma CutKept(m: Message, o: nat, n: nat, date: nat, i: nat)
    requires i < |m.marks| && 0 < n && o + n <= |m.bytes| && m.marks[i].offset < o
    requires i + 1 < |m.marks| ==> m.marks[i].offset < m.marks[i + 1].offset < o
    ensures CutAt(m.(marks := m.marks + [Mark(o, date)]), o + n, i) == CutAt(m, o, i)
  {
  }

  lemma CutMore(m: Message, o: nat, log0: seq<Fragment>, log: seq<Fragment>, n: nat)
    requires Cutting(m, o, log0, log) && 0 < n && o + n <= |m.bytes|
    ensures Cutting(m.(marks := m.marks + [Mark(o, |log| + 1)]), o + n, log0,
                    log + [Fragment(m.bytes[o..o + n], o > 0, o + n < |m.bytes|)])
  {
    var m' := m.(marks := m.marks + [Mark(o, |log| + 1)]);
    var log' := log + [Fragment(m.bytes[o..o + n], o > 0, o + n < |m.bytes|)];
    assert log'[..|log0|] == log[..|log0|];
    forall i | |log0| <= i < |log'| ensures log'[i] == CutAt(m', o + n, i - |log0|) {
      if i < |log| {
        assert log[i] == CutAt(m, o, i - |log0|);
        CutKept(m, o, n, |log| + 1, i - |log0|);
      }
    }
  }

  lemma CutDone(m: Message, log0: seq<Fragment>, log: seq<Fragment>)
    requires Cutting(m, |m.bytes|, log0, log) && m.bytes != []
    ensures Ordered(m) && m.marks != [] && m.marks[0].offset == 0 && log == log0 + Slices(m)
  {
    assert Ordered(m);
    forall i | |log0| <= i < |log| ensures log[i] == Slice(m, i - |log0|) {
      assert log[i] == CutAt(m, |m.bytes|, i - |log0|);
    }
    assert log == log0 + log[|log0|..];
    assert log[|log0|..] == Slices(m);
  }

  // --- the window of fragments not yet acknowledged ---

  datatype Out = Out(frag: Fragment, repeatable: bool, sentAt: nat)

  function Outs(m: Message): seq<Out>
    requires Ordered(m)
  {
    seq(|m.marks|, i requires 0 <= i < |m.marks| => Out(Slice(m, i), m.repeatable, m.marks[i].sentAt))
  }

  predicate AllOrdered(ms: seq<Message>) { forall i :: 0 <= i < |ms| ==> Ordered(ms[i]) }

  /** The outstanding fragments, message by message in offset order. */
  function Window(ms: seq<Message>): seq<Out>
    requires AllOrdered(ms)
  {
    if ms == [] then [] else Outs(ms[0]) + Window(ms[1..])
  }

  lemma {:induction false} WindowAppend(ms: seq<Message>, ns: seq<Message>)
    requires AllOrdered(ms) && AllOrdered(ns)
    ensures AllOrdered(ms + ns) && Window(ms + ns) == Window(ms) + Window(ns)
  {
    hide Ordered, Outs;
    if ms == [] {
      assert ms + ns == ns;
    } else {
      WindowAppend(ms[1..], ns);
      assert (ms + ns)[1..] == ms[1..] + ns && (ms + ns)[0] == ms[0];
      assert Outs(ms[0]) + Window(ms[1..]) + Window(ns) == Outs(ms[0]) + (Window(ms[1..]) + Window(ns));
    }
  }

  /** Where entry `f` of message `k` stands in the window. */
  function Place(ms: seq<Message>, k: nat, f: nat): nat
    requires AllOrdered(ms) && k <= |ms|
  {
    |Window(ms[..k])| + f
  }

  lemma WindowAt(ms: seq<Message>, k: nat, f: nat)
    requires AllOrdered(ms) && k < |ms| && f < |ms[k].marks|
    ensures Place(ms, k, f) < |Window(ms)|
    ensures Window(ms)[Place(ms, k, f)] == Outs(ms[k])[f]
  {
    WindowAppend(ms[..k], ms[k..]);
    assert ms == ms[..k] + ms[k..];
  }

  lemma NextMessage(ms: seq<Message>, k: nat)
    requires AllOrdered(ms) && k < |ms|
    ensures Place(ms, k + 1, 0) == Place(ms, k, |ms[k].marks|)
  {
    WindowAppend(ms[..k], [ms[k]]);
    assert ms[..k + 1] == ms[..k] + [ms[k]];
    assert Window([ms[k]]) == Outs(ms[k]) + Window([]);
  }

  /** Dropping the first entry of the first message drops the first fragment of the window, and
      changes no other: the slices that remain still start and end where they did. */
  lemma DropFirst(ms: seq<Message>)
    requires AllOrdered(ms) && ms != [] && ms[0].marks != []
    ensures var m := ms[0].(marks := ms[0].marks[1..]);
            AllOrdered(ms[0 := m]) && Window(ms) != [] && Window(ms[0 := m]) == Window(ms)[1..]
  {
    var m := ms[0].(marks := ms[0].marks[1..]);
    assert ms[0 := m][1..] == ms[1..];
    assert forall i :: 0 <= i < |m.marks| ==> m.marks[i] == ms[0].marks[i + 1];
    assert Ordered(m);
    assert Outs(m) == Outs(ms[0])[1..];
    assert Window(ms[0 := m]) == Outs(m) + Window(ms[1..]);
    assert Window(ms) == Outs(ms[0]) + Window(ms[1..]);
  }

  lemma DropEmpty(ms: seq<Message>)
    requires AllOrdered(ms) && ms != [] && ms[0].marks == []
    ensures Window(ms[1..]) == Window(ms)
  {
    assert Outs(ms[0]) == [];
  }

  lemma WindowUpdate(ms: seq<Message>, k: nat, m: Message)
    requires AllOrdered(ms) && k < |ms| && Ordered(m)
    ensures AllOrdered(ms[k := m])
    ensures Window(ms[k := m]) == Window(ms[..k]) + (Outs(m) + Window(ms[k + 1..]))
  {
    assert ms[k := m] == ms[..k] + ([m] + ms[k + 1..]);
    WindowAppend(ms[..k], [m] + ms[k + 1..]);
    assert ([m] + ms[k + 1..])[1..] == ms[k + 1..];
  }

  function Dated(m: Message, f: nat, date: nat): Message
    requires f < |m.marks|
  {
    m.(marks := m.marks[f := m.marks[f].(sentAt := date)])
  }

  lemma DatedOuts(m: Message, f: nat, date: nat)
    requires Ordered(m) && f < |m.marks|
    ensures Ordered(Dated(m, f, date))
    ensures Outs(Dated(m, f, date)) == Outs(m)[f := Outs(m)[f].(sentAt := date)]
  {
    var n := Dated(m, f, date);
    assert forall i :: 0 <= i < |n.marks| ==> n.marks[i].offset == m.marks[i].offset;
  }

  lemma UpdateInside(a: seq<Out>, b: seq<Out>, c: seq<Out>, f: nat, o: Out)
    requires f < |b|
    ensures a + (b[f := o] + c) == (a + (b + c))[|a| + f := o] && (a + (b + c))[|a| + f] == b[f]
  {}

  /** Dating one entry anew touches only its own fragment's date. */
  lemma DateEntry(ms: seq<Message>, k: nat, f: nat, date: nat)
    requires AllOrdered(ms) && k < |ms| && f < |ms[k].marks|
    ensures var ns := ms[k := Dated(ms[k], f, date)];
            && AllOrdered(ns)
            && Place(ms, k, f) < |Window(ms)|
            && Window(ns) == Window(ms)[Place(ms, k, f) := Window(ms)[Place(ms, k, f)].(sentAt := date)]
            && Place(ns, k, f) == Place(ms, k, f)
  {
    hide *;
    var m := ms[k];
    WindowSplit(ms, k);
    DatedOuts(m, f, date);
    WindowUpdate(ms, k, Dated(m, f, date));
    UpdateInside(Window(ms[..k]), Outs(m), Window(ms[k + 1..]), f, Outs(m)[f].(sentAt := date));
    PlaceKept(ms, k, f, Dated(m, f, date));
  }

  lemma WindowSplit(ms: seq<Message>, k: nat)
    requires AllOrdered(ms) && k < |ms|
    ensures AllOrdered(ms[..k]) && AllOrdered(ms[k + 1..]) && Ordered(ms[k]) && |Outs(ms[k])| == |ms[k].marks|
    ensures Window(ms) == Window(ms[..k]) + (Outs(ms[k]) + Window(ms[k + 1..]))
  {
    WindowUpdate(ms, k, ms[k]);
    assert ms[k := ms[k]] == ms;
  }

  lemma PlaceKept(ms: seq<Message>, k: nat, f: nat, m: Message)
    requires AllOrdered(ms) && k < |ms| && Ordered(m) && AllOrdered(ms[k := m]) && AllOrdered(ms[..k])
    ensures Place(ms[k := m], k, f) == Place(ms, k, f) == |Window(ms[..k])| + f
  {
    assert ms[k := m][..k] == ms[..k];
  }

  function CountRepeatable(ms: seq<Message>): nat
  {
    if ms == [] then 0 else (if ms[0].repeatable then 1 else 0) + CountRepeatable(ms[1..])
  }

  lemma {:induction false} CountAppend(ms: seq<Message>, m: Message)
    ensures CountRepeatable(ms + [m]) == CountRepeatable(ms) + if m.repeatable then 1 else 0
  {
    if ms == [] {
      assert ms + [m] == [m];
    } else {
      CountAppend(ms[1..], m);
      assert (ms + [m])[1..] == ms[1..] + [m];
    }
  }

  lemma {:induction false} CountUpdate(ms: seq<Message>, k: nat, m: Message)
    requires k < |ms| && m.repeatable == ms[k].repeatable
    ensures CountRepeatable(ms[k := m]) == CountRepeatable(ms)
  {
    if k == 0 {
      assert ms[k := m][1..] == ms[1..];
    } else {
      assert ms[k := m][1..] == ms[1..][k - 1 := m];
      CountUpdate(ms[1..], k - 1, m);
    }
  }
}
