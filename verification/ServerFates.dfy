/** Which phones are still connected when the server comes to rest. */
module ServerFates {
  import opened Server
  import opened ServerRegistry
  import opened ServerOrder
  import opened ServerRuns
  import opened ServerPhones

  ghost predicate Disturbs<L, C>(s: State<L, C>, e: Event<L, C>, id: L) {
    e == HangUp(id) || Overlaps(s, e, id)
  }

  /** Somewhere in the run the phone hangs up, or a batch for it overlaps an earlier one. */
  ghost predicate Disturbed<L, C>(s: State<L, C>, events: seq<Event<L, C>>, id: L)
    requires Possible(s, events)
    decreases |events|
  {
    events != [] && (Disturbs(s, events[0], id) || Disturbed(Step(s, events[0]), events[1..], id))
  }

  /** No internal event is left to deliver. */
  ghost predicate Rests<L, C>(s: State<L, C>) {
    && Manager !in s.tags
    && forall id :: id in s.listeners && s.listeners[id].newResponderCreated ==> Listen(id) !in s.tags
  }

  lemma {:induction false} QuietRun<L, C>(s: State<L, C>, events: seq<Event<L, C>>, id: L)
    requires Inv(s) && Possible(s, events) && !Disturbed(s, events, id)
    requires id in s.listeners && Connected(s.listeners[id]) && s.listeners[id].surplus == 0
    ensures var s' := After(s, events); id in s'.listeners && Connected(s'.listeners[id])
    decreases |events|
  {
    hide Step, Inv, Overlaps;
    if events != [] {
      StepInv(s, events[0]);
      PhoneStays(s, events[0], id);
      QuietRun(Step(s, events[0]), events[1..], id);
    }
  }

  /** An identity that has been used does not come back. */
  lemma GoneStaysGone<L, C>(s: State<L, C>, e: Event<L, C>, id: L)
    requires Inv(s) && Enabled(s, e) && id in s.sent
    ensures id in Step(s, e).sent
    ensures id !in s.listeners ==> id !in Step(s, e).listeners
  {
    ListenersKnown(s);
    hide Inv, Step;
    if e.Deliver? && e.tag == Manager {
      ManagerKeys(s, e);
    } else if e.Deliver? && e.tag.Unary? {
      CallEffect(s, e);
    } else if e.Deliver? {
      ListenKeys(s, e, id);
    } else {
      HangUpKeys(s, e);
    }
  }

  lemma HangUpKeys<L, C>(s: State<L, C>, e: Event<L, C>)
    requires WellFormed(s) && Enabled(s, e) && e.HangUp?
    ensures Step(s, e).listeners.Keys == s.listeners.Keys && Step(s, e).sent == s.sent
  {
  }

  lemma ListenKeys<L, C>(s: State<L, C>, e: Event<L, C>, id: L)
    requires WellFormed(s) && Enabled(s, e) && e.Deliver? && e.tag.Listen? && id in s.sent
    ensures id in Step(s, e).sent
    ensures id !in s.listeners ==> id !in Step(s, e).listeners
  {
    hide ProceedManager, ProceedCall, Without;
  }

  lemma ManagerKeys<L, C>(s: State<L, C>, e: Event<L, C>)
    requires Inv(s) && Enabled(s, e) && e.Deliver? && e.tag == Manager
    ensures Step(s, e).listeners.Keys == s.listeners.Keys && Step(s, e).sent == s.sent
  {
    var s1 := s.(tags := s.tags - multiset{Manager});
    assert Step(s, e) == ProceedManager(s1);
    if s.buffer != [] && s.responders != [] {
      if s.policy == NP_ALL {
        EnqueueToAllReaches(s1, s.responders, s.buffer);
        hide EnqueueTo, EnqueueToAll;
      } else {
        EnqueueToReaches(s1, s.responders[NextIndex(s.responders, s.lastResponder)], s.buffer);
        hide EnqueueTo, EnqueueToAll;
      }
    }
  }

  /** Once a phone has a surplus, or is gone, that does not change. */
  lemma {:induction false} DoomedRun<L, C>(s: State<L, C>, events: seq<Event<L, C>>, id: L)
    requires Inv(s) && Possible(s, events) && id in s.sent
    requires id in s.listeners ==> s.listeners[id].surplus >= 1
    ensures var s' := After(s, events); id in s'.listeners ==> s'.listeners[id].surplus >= 1
    decreases |events|
  {
    hide Step, Inv, Overlaps;
    if events != [] {
      StepInv(s, events[0]);
      GoneStaysGone(s, events[0], id);
      if id in s.listeners && id in Step(s, events[0]).listeners {
        SurplusAccount(s, events[0], id);
      }
      DoomedRun(Step(s, events[0]), events[1..], id);
    }
  }

  lemma {:induction false} DisturbedRun<L, C>(s: State<L, C>, events: seq<Event<L, C>>, id: L)
    requires Inv(s) && Possible(s, events) && Disturbed(s, events, id) && id in s.sent
    ensures var s' := After(s, events); id in s'.listeners ==> s'.listeners[id].surplus >= 1
    decreases |events|
  {
    hide Step, Inv, Overlaps;
    StepInv(s, events[0]);
    GoneStaysGone(s, events[0], id);
    var s1 := Step(s, events[0]);
    if Disturbs(s, events[0], id) {
      if id in s1.listeners {
        assert id in s.listeners;
        SurplusAccount(s, events[0], id);
      }
      DoomedRun(s1, events[1..], id);
    } else {
      DisturbedRun(s1, events[1..], id);
    }
  }

  /** A phone that is connected, and has no surplus, is still connected when the server comes to
      rest if and only if it never hung up and no batch for it ever overlapped another.  The
      second condition is not the phone's doing: the code takes the surplus alarm for a hang-up. */
  lemma StillConnectedIff<L, C>(s: State<L, C>, events: seq<Event<L, C>>, id: L)
    requires Inv(s) && Possible(s, events) && Rests(After(s, events))
    requires OrderInv(s) && id in s.listeners && Connected(s.listeners[id]) && s.listeners[id].surplus == 0
    ensures var s' := After(s, events);
      (id in s'.listeners && Connected(s'.listeners[id])) <==> !Disturbed(s, events, id)
  {
    hide Step, Inv, OrderInv, Overlaps;
    assert id in s.sent by { ListenersKnown(s); }
    RunKeeps(s, events);
    AtRest(After(s, events));
    if Disturbed(s, events, id) {
      DisturbedRun(s, events, id);
    } else {
      QuietRun(s, events, id);
    }
  }

  lemma ListenersKnown<L, C>(s: State<L, C>)
    requires Inv(s)
    ensures s.listeners.Keys <= s.sent.Keys && WellFormed(s)
  {
  }

  // ----- the server comes to rest -----

  /** The state after `n` of an endless supply of events; an event that is not internal changes
      nothing here. */
  ghost function Driven<L, C>(s: State<L, C>, events: nat -> Event<L, C>, n: nat): (r: State<L, C>)
    requires Inv(s)
    ensures Inv(r)
  {
    if n == 0 then s
    else
      var t := Driven(s, events, n - 1);
      if Internal(t, events(n - 1)) then StepInv(t, events(n - 1)); Step(t, events(n - 1)) else t
  }

  lemma {:induction false} DrainsFrom<L, C>(s: State<L, C>, events: nat -> Event<L, C>, n: nat) returns (m: nat)
    requires Inv(s)
    ensures m >= n && !Internal(Driven(s, events, m), events(m))
    decreases Driven(s, events, n).tags[Manager], Queued(Driven(s, events, n).listeners),
      |Driven(s, events, n).tags|, |Driven(s, events, n).responders|
  {
    hide Step, Inv, Queued;
    m := n;
    var t := Driven(s, events, n);
    if Internal(t, events(n)) {
      InternalSmaller(t, events(n));
      StepInv(t, events(n));
      assert WellFormed(t) by { ListenersKnown(t); }
      assert Driven(s, events, n + 1) == Step(t, events(n));
      m := DrainsFrom(s, events, n + 1);
    }
  }

  /** However the completion queue orders its tags, internal events run out: there is no endless
      run without a new connection, a new call, or a phone hanging up. */
  lemma DrainingEnds<L, C>(s: State<L, C>, events: nat -> Event<L, C>)
    requires Inv(s)
    ensures exists m: nat :: !Internal(Driven(s, events, m), events(m))
  {
    var m := DrainsFrom(s, events, 0);
  }

  /** While the server has not come to rest, there is an internal event to deliver. */
  lemma RestsOrGoesOn<L, C>(s: State<L, C>, freshL: L, freshC: C)
    requires Inv(s) && !Rests(s) && freshL !in s.sent && freshC !in s.calls
    ensures exists e: Event<L, C> :: Internal(s, e)
  {
    var any := Request(false, SMS("", ""));
    if Manager in s.tags {
      var e: Event<L, C> := Deliver(Manager, any, freshL, freshC);
      assert Internal(s, e);
    } else {
      var id :| id in s.listeners && s.listeners[id].newResponderCreated && Listen(id) in s.tags;
      var e: Event<L, C> := Deliver(Listen(id), any, freshL, freshC);
      assert Internal(s, e);
    }
  }
}
