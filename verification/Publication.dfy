/** The two key-frame gates between a publisher and its listeners. */
module Publications {
  import opened Codec
  import opened Quality

  /** What happens to one listener of a video publication. */
  datatype Event = Key | Inter | Restarted | FragmentsLost | Dropped

  /** Whether the last key frame forwarded is still good: nothing broke the video since. */
  function Unbroken(trace: seq<Event>): bool
  {
    if trace == [] then false
    else
      match trace[|trace| - 1]
      case Key => true
      case Inter => Unbroken(trace[..|trace| - 1])
      case _ => false
  }

  /** The first byte of a video packet tells a key frame by its upper half. */
  predicate IsKey(first: byte): (key: bool)
    ensures key <==> 0x10 <= first <= 0x1F
  {
    first / 16 == 1
  }

  /** Every inter frame forwarded follows a key frame with nothing in between but inter frames. */
  ghost predicate Playable(trace: seq<Event>)
  {
    forall i :: 0 <= i < |trace| && trace[i] == Inter ==> Decodable(trace, i)
  }

  ghost predicate Decodable(trace: seq<Event>, i: nat)
    requires i < |trace|
  {
    exists k :: 0 <= k < i && trace[k] == Key && forall j :: k < j < i ==> trace[j] == Inter
  }

  lemma {:induction false} UnbrokenHasKey(trace: seq<Event>)
    requires Unbroken(trace)
    ensures exists k :: 0 <= k < |trace| && trace[k] == Key && forall j :: k < j < |trace| ==> trace[j] == Inter
  {
    var n := |trace| - 1;
    if trace[n] == Inter {
      UnbrokenHasKey(trace[..n]);
      var k :| 0 <= k < n && trace[..n][k] == Key && forall j :: k < j < n ==> trace[..n][j] == Inter;
      assert trace[k] == Key && forall j :: k < j < n ==> trace[j] == trace[..n][j];
    } else {
      assert trace[n] == Key;
    }
  }

  lemma PlayableMore(trace: seq<Event>, e: Event)
    requires Playable(trace) && (e == Inter ==> Unbroken(trace))
    ensures Playable(trace + [e])
  {
    var t := trace + [e];
    forall i | 0 <= i < |t| && t[i] == Inter ensures Decodable(t, i) {
      if i < |trace| {
        assert Decodable(trace, i);
        var k :| 0 <= k < i && trace[k] == Key && forall j :: k < j < i ==> trace[j] == Inter;
        assert t[k] == Key && forall j :: k < j < i ==> t[j] == trace[j];
      } else {
        UnbrokenHasKey(trace);
        var k :| 0 <= k < |trace| && trace[k] == Key && forall j :: k < j < |trace| ==> trace[j] == Inter;
        assert t[k] == Key && forall j :: k < j < i ==> t[j] == trace[j];
      }
    }
  }

  /** What becomes of a video frame that meets both gates. */
  function Fate(key: bool, gate: bool, own: bool): Event
  {
    if key then Key else if gate && own then Inter else Dropped
  }

  /** Both gates are open exactly when the video of the listener is unbroken. */
  ghost predicate Linked(gate: bool, own: bool, trace: seq<Event>)
  {
    Playable(trace) && (gate && own <==> Unbroken(trace))
  }

  lemma FateKeepsLinked(gate: bool, own: bool, trace: seq<Event>, key: bool)
    requires Linked(gate, own, trace)
    ensures Linked(gate || key, own || key, trace + [Fate(key, gate, own)])
  {
    var t := trace + [Fate(key, gate, own)];
    PlayableMore(trace, Fate(key, gate, own));
    assert t[..|t| - 1] == trace;
  }

  /** Closing either gate and breaking the video go together. */
  lemma BreakKeepsLinked(gate: bool, own: bool, trace: seq<Event>, e: Event)
    requires Playable(trace) && e != Key && e != Inter && !(gate && own)
    ensures Linked(gate, own, trace + [e])
  {
    PlayableMore(trace, e);
  }

  // --- all listeners at once ---

  /** A listener's gate, and what happened to it. */
  datatype View = View(own: bool, trace: seq<Event>)

  /** Something breaks the video of every listener. */
  function Broken(vs: map<nat, View>, e: Event): map<nat, View>
  {
    map k | k in vs :: View(vs[k].own, vs[k].trace + [e])
  }

  /** A publication begins anew for every listener. */
  function Begun(vs: map<nat, View>): map<nat, View>
  {
    map k | k in vs :: View(false, vs[k].trace + [Restarted])
  }

  /** A frame meets the gate of the publication and that of every listener. */
  function Met(vs: map<nat, View>, key: bool, gate: bool): map<nat, View>
  {
    map k | k in vs :: View(vs[k].own || key, vs[k].trace + [Fate(key, gate, vs[k].own)])
  }

  /** For every listener, both gates are open exactly when its video is unbroken; and no listener ever got an
      inter frame it could not decode. */
  ghost predicate AllLinked(gate: bool, vs: map<nat, View>)
  {
    forall k :: k in vs ==> Linked(gate, vs[k].own, vs[k].trace)
  }

  lemma MetLinked(gate: bool, vs: map<nat, View>, key: bool)
    requires AllLinked(gate, vs)
    ensures AllLinked(gate || key, Met(vs, key, gate))
  {
    hide Linked, Fate;
    forall k | k in vs ensures Linked(gate || key, Met(vs, key, gate)[k].own, Met(vs, key, gate)[k].trace) {
      FateKeepsLinked(gate, vs[k].own, vs[k].trace, key);
    }
  }

  lemma BrokenLinked(gate: bool, vs: map<nat, View>, e: Event)
    requires AllLinked(gate, vs) && e != Key && e != Inter
    ensures AllLinked(false, Broken(vs, e))
  {
    hide Playable, Unbroken;
    forall k | k in vs ensures Linked(false, Broken(vs, e)[k].own, Broken(vs, e)[k].trace) {
      BreakKeepsLinked(false, vs[k].own, vs[k].trace, e);
    }
  }

  lemma BegunLinked(gate: bool, vs: map<nat, View>)
    requires AllLinked(gate, vs)
    ensures AllLinked(false, Begun(vs))
  {
    hide Playable, Unbroken;
    forall k | k in vs ensures Linked(false, Begun(vs)[k].own, Begun(vs)[k].trace) {
      BreakKeepsLinked(false, false, vs[k].trace, Restarted);
    }
  }

  lemma NewLinked(gate: bool, vs: map<nat, View>, id: nat)
    requires AllLinked(gate, vs)
    ensures AllLinked(gate, vs[id := View(false, [])])
  {
  }

  lemma FewerLinked(gate: bool, vs: map<nat, View>, id: nat)
    requires AllLinked(gate, vs)
    ensures AllLinked(gate, vs - {id})
  {
  }

  class Listener {
    var firstKeyFrame: bool
    var droppedFrames: nat
    ghost var trace: seq<Event>

    ghost function Seen(): View
      reads this
    {
      View(firstKeyFrame, trace)
    }

    constructor ()
      ensures Seen() == View(false, []) && droppedFrames == 0
    {
      firstKeyFrame, droppedFrames, trace := false, 0, [];
    }

    /** Whatever the gate of the publication, the video is broken until the next key frame. */
    method StartPublishing()
      modifies this
      ensures Seen() == View(false, old(trace) + [Restarted]) && droppedFrames == old(droppedFrames)
      ensures Playable(old(trace)) ==> forall gate :: Linked(gate, firstKeyFrame, trace)
    {
      if Playable(trace) { BreakKeepsLinked(false, false, trace, Restarted); }
      firstKeyFrame := false;
      trace := trace + [Restarted];
    }

    /** Forwards a video frame unless the listener still waits for its first key frame. */
    method PushVideoPacket(first: byte)
      modifies this
      ensures firstKeyFrame == (old(firstKeyFrame) || IsKey(first))
      ensures trace == old(trace) + [Fate(IsKey(first), true, old(firstKeyFrame))]
      ensures droppedFrames == old(droppedFrames) + if firstKeyFrame then 0 else 1
    {
      if IsKey(first) {
        firstKeyFrame := true;
      }
      if !firstKeyFrame {
        droppedFrames := droppedFrames + 1;
        trace := trace + [Dropped];
        return;
      }
      trace := trace + [if IsKey(first) then Key else Inter];
    }
  }

  class Publication {
    const videoQOS: QualityOfService
    const audioQOS: QualityOfService
    var publisherId: nat
    var firstKeyFrame: bool
    var listeners: map<nat, Listener>

    ghost function Views(): map<nat, View>
      reads `listeners, listeners.Values
    {
      map k | k in listeners :: listeners[k].Seen()
    }

    ghost predicate Distinct()
      reads `listeners
    {
      forall k, j :: k in listeners && j in listeners && k != j ==> listeners[k] != listeners[j]
    }

    ghost predicate Valid()
      reads this, listeners.Values, videoQOS, audioQOS
    {
      && Distinct() && AllLinked(firstKeyFrame, Views())
      && videoQOS != audioQOS && videoQOS.Valid() && audioQOS.Valid()
    }

    constructor ()
      ensures Valid() && fresh(videoQOS) && fresh(audioQOS)
      ensures listeners == map[] && publisherId == 0 && videoQOS.history == audioQOS.history == []
    {
      videoQOS := new QualityOfService();
      audioQOS := new QualityOfService();
      publisherId, firstKeyFrame, listeners := 0, false, map[];
    }

    /** Subscribes a listener, which waits for its first key frame, unless it already is or is refused. */
    method AddListener(id: nat, allowed: bool) returns (ok: bool)
      requires Valid()
      modifies `listeners
      ensures Valid() && ok == (id in old(listeners) || allowed)
      ensures forall k :: k in old(listeners) ==> k in listeners && listeners[k] == old(listeners)[k]
      ensures Views() == if id !in old(listeners) && allowed then old(Views())[id := View(false, [])] else old(Views())
    {
      hide AllLinked;
      if id in listeners {
        return true;
      }
      if !allowed {
        return false;
      }
      var listener := new Listener();
      NewLinked(firstKeyFrame, Views(), id);
      listeners := listeners[id := listener];
      assert Views() == old(Views())[id := View(false, [])];
      return true;
    }

    method RemoveListener(id: nat)
      requires Valid()
      modifies `listeners
      ensures Valid() && listeners == old(listeners) - {id} && Views() == old(Views()) - {id}
    {
      hide AllLinked;
      FewerLinked(firstKeyFrame, Views(), id);
      listeners := listeners - {id};
      assert Views() == old(Views()) - {id};
    }

    /** Starts publishing, unless someone already does or it is refused. */
    method Start(id: nat, allowed: bool) returns (ok: bool)
      requires Valid()
      modifies this, listeners.Values
      ensures Valid() && listeners == old(listeners) && ok == (old(publisherId) == 0 && allowed)
      ensures ok ==> publisherId == id && !firstKeyFrame && Views() == Begun(old(Views()))
      ensures !ok ==>
                publisherId == old(publisherId) && firstKeyFrame == old(firstKeyFrame) && Views() == old(Views())
    {
      hide AllLinked, Begun, Views, Distinct, QualityOfService.Valid;
      if publisherId != 0 {
        return false;
      }
      publisherId := id;
      if !allowed {
        publisherId := 0;
        return false;
      }
      BegunLinked(firstKeyFrame, Views());
      firstKeyFrame := false;
      RestartAll();
      return true;
    }

    /** Closes the gate of every listener. */
    method RestartAll()
      requires Distinct()
      modifies listeners.Values
      ensures Views() == Begun(old(Views()))
    {
      hide Playable, Linked;
      var todo := listeners.Keys;
      while todo != {}
        invariant todo <= listeners.Keys
        invariant forall k :: k in listeners && k !in todo ==>
                    listeners[k].Seen() == View(false, old(listeners[k].trace) + [Restarted])
        invariant forall k :: k in todo ==> listeners[k].trace == old(listeners[k].trace)
        decreases todo
      {
        var k :| k in todo;
        listeners[k].StartPublishing();
        todo := todo - {k};
      }
    }

    /** Ends the publication, if it is the publisher's own, and forgets its statistics. */
    method Stop(id: nat)
      requires Valid()
      modifies `publisherId, videoQOS, audioQOS
      ensures Valid()
      ensures if old(publisherId) != 0 && old(publisherId) == id
              then publisherId == 0 && videoQOS.history == audioQOS.history == [] && videoQOS.droppedFrames == 0
              else publisherId == old(publisherId) && unchanged(videoQOS) && unchanged(audioQOS)
    {
      hide AllLinked;
      if publisherId == 0 || publisherId != id {
        return;
      }
      videoQOS.Reset();
      audioQOS.Reset();
      publisherId := 0;
    }

    /** A video packet with the given first byte, after the loss of some fragments before it. Each listener
        sees the loss, then the fate of the frame at the two gates as the loss left them. */
    method PushVideoPacket(first: byte, time: nat, fragments: nat, numberLostFragments: nat, elapsed: nat)
      requires Valid()
      modifies this, videoQOS, listeners.Values
      ensures Valid() && listeners == old(listeners) && publisherId == old(publisherId)
      ensures publisherId == 0 ==>
                firstKeyFrame == old(firstKeyFrame) && Views() == old(Views()) && unchanged(videoQOS)
      ensures publisherId != 0 ==>
                var gate := old(firstKeyFrame) && numberLostFragments == 0;
                var views := if numberLostFragments > 0 then Broken(old(Views()), FragmentsLost) else old(Views());
                && firstKeyFrame == (gate || IsKey(first)) && Views() == Met(views, IsKey(first), gate)
                && videoQOS.history == old(videoQOS.history) + [Sample(time, fragments, numberLostFragments)]
                && videoQOS.droppedFrames == old(videoQOS.droppedFrames) + (if firstKeyFrame then 0 else 1)
    {
      hide AllLinked, Broken, Met, IsKey, Views, Distinct, QualityOfService.Valid;
      if publisherId == 0 {
        return;
      }
      if numberLostFragments > 0 {
        Lose();
      }
      videoQOS.Add(time, fragments, numberLostFragments, elapsed);
      Pass(first);
      if !firstKeyFrame {
        videoQOS.Drop();
      }
    }

    /** Closes the gate: what was lost may have been a key frame. */
    method Lose()
      requires Distinct() && AllLinked(firstKeyFrame, Views())
      modifies `firstKeyFrame, listeners.Values
      ensures !firstKeyFrame && Views() == Broken(old(Views()), FragmentsLost) && AllLinked(firstKeyFrame, Views())
    {
      hide AllLinked, Broken, Views, Distinct;
      BrokenLinked(firstKeyFrame, Views(), FragmentsLost);
      firstKeyFrame := false;
      BreakAll(FragmentsLost);
    }

    /** Opens the gate at a key frame, and hands the packet to every listener if the gate is open. */
    method Pass(first: byte)
      requires Distinct() && AllLinked(firstKeyFrame, Views())
      modifies `firstKeyFrame, listeners.Values
      ensures firstKeyFrame == (old(firstKeyFrame) || IsKey(first)) && AllLinked(firstKeyFrame, Views())
      ensures Views() == Met(old(Views()), IsKey(first), old(firstKeyFrame))
    {
      hide AllLinked, Broken, Met, IsKey, Views, Distinct;
      MetLinked(firstKeyFrame, Views(), IsKey(first));
      MetClosed(Views());
      ghost var gate := firstKeyFrame;
      if IsKey(first) {
        firstKeyFrame := true;
      }
      if firstKeyFrame {
        Forward(first, gate);
      } else {
        BreakAll(Dropped);
      }
    }

    /** Behind a closed gate an inter frame is dropped for every listener. */
    lemma MetClosed(vs: map<nat, View>)
      ensures Met(vs, false, false) == Broken(vs, Dropped)
    {
    }

    /** Past the gate of the publication only that of the listener decides. */
    lemma OpenGate(gate: bool, key: bool)
      ensures gate || key ==> forall own :: Fate(key, gate, own) == Fate(key, true, own)
    {
    }

    /** Hands a video packet that passed the gate of the publication to every listener. */
    method Forward(first: byte, ghost gate: bool)
      requires Distinct() && (gate || IsKey(first))
      modifies listeners.Values
      ensures Views() == Met(old(Views()), IsKey(first), gate)
    {
      hide IsKey, Fate;
      OpenGate(gate, IsKey(first));
      ForwardAll(first);
    }

    method ForwardAll(first: byte)
      requires Distinct()
      modifies listeners.Values
      ensures forall k :: k in listeners ==>
                && listeners[k].firstKeyFrame == (old(listeners[k].firstKeyFrame) || IsKey(first))
                && listeners[k].trace
                   == old(listeners[k].trace) + [Fate(IsKey(first), true, old(listeners[k].firstKeyFrame))]
    {
      hide IsKey, Fate;
      var todo := listeners.Keys;
      while todo != {}
        invariant todo <= listeners.Keys
        invariant forall k :: k in listeners && k !in todo ==>
                    && listeners[k].firstKeyFrame == (old(listeners[k].firstKeyFrame) || IsKey(first))
                    && listeners[k].trace
                       == old(listeners[k].trace) + [Fate(IsKey(first), true, old(listeners[k].firstKeyFrame))]
        invariant forall k :: k in todo ==>
                    && listeners[k].trace == old(listeners[k].trace)
                    && listeners[k].firstKeyFrame == old(listeners[k].firstKeyFrame)
        decreases todo
      {
        var k :| k in todo;
        listeners[k].PushVideoPacket(first);
        todo := todo - {k};
      }
    }

    /** Records in every listener's trace that its video is broken. */
    ghost method BreakAll(e: Event)
      requires Distinct()
      modifies set k | k in listeners :: listeners[k]`trace
      ensures Views() == Broken(old(Views()), e)
    {
      forall k | k in listeners {
        listeners[k].trace := listeners[k].trace + [e];
      }
    }
  }
}
