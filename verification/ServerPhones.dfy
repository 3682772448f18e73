/** When a phone is dropped, and that the server comes to rest. */
module ServerPhones {
  import opened Server
  import opened ServerRegistry
  import opened ServerOrder

  // ----- surplus tags -----

  /** The phones a dispatch by the manager would reach. */
  ghost predicate Targeted<L, C>(s: State<L, C>, id: L) {
    && s.buffer != [] && id in s.responders
    && (s.policy == NP_ALL || id == s.responders[NextIndex(s.responders, s.lastResponder)])
  }

  /** The phone is woken although an earlier wake-up of it is still under way. */
  ghost predicate Overlaps<L, C>(s: State<L, C>, e: Event<L, C>, id: L) {
    && e.Deliver? && e.tag == Manager && Targeted(s, id)
    && id in s.listeners && s.listeners[id].status == LISTEN_COMMAND && s.listeners[id].result != []
  }

  /** What `EnqueueTo` makes of one listener. */
  function Woken(l: Listener, values: seq<SMS>): Listener {
    l.(result := l.result + values,
       surplus := l.surplus + if l.status == LISTEN_COMMAND && l.result != [] then 1 else 0)
  }

  lemma {:induction false} AllWoken<L, C>(s: State<L, C>, ids: seq<L>, values: seq<SMS>)
    requires (forall id :: id in ids ==> id in s.listeners) && Distinct(ids) && values != []
    ensures forall id :: id in s.listeners ==>
      EnqueueToAll(s, ids, values).listeners[id]
        == if id in ids then Woken(s.listeners[id], values) else s.listeners[id]
    decreases |ids|
  {
    if ids != [] {
      assert Distinct(ids[1..]) && ids[0] !in ids[1..];
      var s1 := EnqueueTo(s, ids[0], values);
      assert s1.listeners == s.listeners[ids[0] := Woken(s.listeners[ids[0]], values)];
      hide EnqueueTo, Woken;
      AllWoken(s1, ids[1..], values);
    }
  }

  /** What one turn of the manager does to each phone. */
  lemma ManagerEffect<L, C>(s: State<L, C>, e: Event<L, C>, id: L)
    requires Inv(s) && Enabled(s, e) && e.Deliver? && e.tag == Manager && id in s.listeners
    ensures id in Step(s, e).listeners
    ensures Step(s, e).listeners[id] == if Targeted(s, id) then Woken(s.listeners[id], s.buffer) else s.listeners[id]
  {
    hide TagsAccounted, OneAcceptor, CallsSound, ManagerAwake, NextIndex, ProceedListener, ProceedCall;
    var s1 := s.(tags := s.tags - multiset{Manager});
    assert Step(s, e) == ProceedManager(s1);
    hide Step;
    if s.buffer != [] && s.responders != [] {
      if s.policy == NP_ALL {
        hide EnqueueTo, Woken;
        AllWoken(s1, s.responders, s.buffer);
      } else {
        hide EnqueueToAll, Registered;
      }
    }
  }

  /** What an event on one listener's own tag does to each listener. */
  lemma ListenEffect<L, C>(s: State<L, C>, e: Event<L, C>, id: L)
    requires Inv(s) && Enabled(s, e) && e.Deliver? && e.tag.Listen? && id in s.listeners
    ensures var s', l := Step(s, e), s.listeners[id];
      if id != e.tag.listener then id in s'.listeners && s'.listeners[id] == l
      else if l.status == FINISH then id !in s'.listeners
      else
        && id in s'.listeners && s'.listeners[id].surplus == l.surplus
        && s'.listeners[id].newResponderCreated
        && (s'.listeners[id].status == FINISH <==>
              l.newResponderCreated && l.status == LISTEN_COMMAND && l.result == [])
  {
    assert Sound(s.listeners[e.tag.listener]);
    assert e.freshL !in s.listeners;
  }

  lemma OtherEffect<L, C>(s: State<L, C>, e: Event<L, C>, id: L)
    requires Inv(s) && Enabled(s, e) && id in s.listeners && (e.HangUp? || e.tag.Unary?)
    ensures id in Step(s, e).listeners
    ensures Step(s, e).listeners[id]
         == if e == HangUp(id) then s.listeners[id].(surplus := s.listeners[id].surplus + 1) else s.listeners[id]
  {
    assert WellFormed(s);
    hide Inv, ProceedManager, ProceedListener;
    if e.Deliver? {
      CallEffect(s, e);
    }
  }

  lemma CallEffect<L, C>(s: State<L, C>, e: Event<L, C>)
    requires WellFormed(s) && Enabled(s, e) && e.Deliver? && e.tag.Unary?
    ensures Step(s, e).listeners == s.listeners && Step(s, e).sent == s.sent
  {
    hide ProceedManager, ProceedListener, Serve;
    ServeElsewhere(s.(tags := s.tags - multiset{e.tag}), s.calls[e.tag.call].rpc, e.request);
  }

  /** The exact account of a listener's surplus: one for each time its phone hangs up, and one for
      each batch that arrives while an earlier one is still waiting for its alarm. */
  lemma SurplusAccount<L, C>(s: State<L, C>, e: Event<L, C>, id: L)
    requires Inv(s) && Enabled(s, e) && id in s.listeners && id in Step(s, e).listeners
    ensures Step(s, e).listeners[id].surplus
         == s.listeners[id].surplus + if e == HangUp(id) || Overlaps(s, e, id) then 1 else 0
  {
    hide Step, Inv;
    if e.Deliver? && e.tag == Manager {
      ManagerEffect(s, e, id);
    } else if e.Deliver? && e.tag.Listen? {
      ListenEffect(s, e, id);
    } else {
      OtherEffect(s, e, id);
    }
  }

  /** An idle phone has a tag that will drop it exactly when it has a surplus. */
  lemma IdlePhoneDroppedIff<L, C>(s: State<L, C>, id: L)
    requires Inv(s) && id in s.listeners && Connected(s.listeners[id])
    requires s.listeners[id].status == LISTEN_COMMAND && s.listeners[id].result == []
    ensures Listen(id) in s.tags <==> s.listeners[id].surplus >= 1
    ensures forall e: Event<L, C> :: Enabled(s, e) && e.Deliver? && e.tag == Listen(id) ==>
      id in Step(s, e).listeners && Step(s, e).listeners[id].status == FINISH && id !in Step(s, e).responders
  {
    forall e: Event<L, C> | Enabled(s, e) && e.Deliver? && e.tag == Listen(id)
      ensures id in Step(s, e).listeners && Step(s, e).listeners[id].status == FINISH && id !in Step(s, e).responders
    {
      WithoutIs(s.responders, id);
    }
  }

  /** A connected phone without surplus stays connected, whatever happens, until it hangs up or a
      batch overlaps another. */
  lemma PhoneStays<L, C>(s: State<L, C>, e: Event<L, C>, id: L)
    requires Inv(s) && Enabled(s, e) && id in s.listeners && Connected(s.listeners[id]) && s.listeners[id].surplus == 0
    requires e != HangUp(id) && !Overlaps(s, e, id)
    ensures id in Step(s, e).listeners && Connected(Step(s, e).listeners[id]) && Step(s, e).listeners[id].surplus == 0
  {
    assert s.tags[Listen(id)] == Awaited(s.listeners[id]);
    hide Step, Inv;
    if e.Deliver? && e.tag == Manager {
      ManagerEffect(s, e, id);
    } else if e.Deliver? && e.tag.Listen? {
      ListenEffect(s, e, id);
    } else {
      OtherEffect(s, e, id);
    }
  }

  // ----- coming to rest -----

  /** How many messages are queued for phones. */
  ghost function Queued<L>(listeners: map<L, Listener>): nat
    decreases |listeners|
  {
    if listeners == map[] then 0
    else
      var id :| id in listeners;
      |listeners[id].result| + Queued(listeners - {id})
  }

  lemma {:induction false} QueuedSplit<L>(listeners: map<L, Listener>, id: L)
    requires id in listeners
    ensures Queued(listeners) == |listeners[id].result| + Queued(listeners - {id})
    decreases |listeners|
  {
    var k :| k in listeners && Queued(listeners) == |listeners[k].result| + Queued(listeners - {k});
    if k != id {
      QueuedSplit(listeners - {k}, id);
      QueuedSplit(listeners - {id}, k);
      assert listeners - {k} - {id} == listeners - {id} - {k};
    }
  }

  lemma QueuedUpdate<L>(listeners: map<L, Listener>, id: L, l: Listener)
    requires id in listeners
    ensures Queued(listeners[id := l]) == Queued(listeners) - |listeners[id].result| + |l.result|
  {
    hide Queued;
    QueuedSplit(listeners, id);
    QueuedSplit(listeners[id := l], id);
    assert listeners[id := l] - {id} == listeners - {id};
  }

  /** Delivering a tag that is already the server's own: no client connects, calls or hangs up. */
  ghost predicate Internal<L, C>(s: State<L, C>, e: Event<L, C>) {
    && Enabled(s, e) && e.Deliver?
    && (e.tag.Listen? ==> s.listeners[e.tag.listener].newResponderCreated)
    && (e.tag.Unary? ==> s.calls[e.tag.call].newResponderCreated)
  }

  /** The measure by which internal events run out. */
  ghost predicate Smaller<L, C>(s': State<L, C>, s: State<L, C>) {
    || s'.tags[Manager] < s.tags[Manager]
    || (s'.tags[Manager] == s.tags[Manager] &&
        (Queued(s'.listeners) < Queued(s.listeners)
         || (Queued(s'.listeners) == Queued(s.listeners) &&
             (|s'.tags| < |s.tags|
              || (|s'.tags| == |s.tags| && |s'.responders| < |s.responders|)))))
  }

  lemma InternalSmaller<L, C>(s: State<L, C>, e: Event<L, C>)
    requires Inv(s) && Internal(s, e)
    ensures Smaller(Step(s, e), s)
  {
    hide Queued, Step;
    match e.tag
    case Manager =>
      ManagerKeepsTags(s, e);
    case Unary(id) =>
      CallSmaller(s, e);
    case Listen(id) =>
      var l := s.listeners[id];
      SoundListener(s, id);
      if l.result != [] {
        WriteSmaller(s, e);
      } else if l.status == LISTEN_COMMAND_SENT {
        IdleSmaller(s, e);
      } else if l.status == LISTEN_COMMAND {
        TearDownSmaller(s, e);
      } else {
        DeleteSmaller(s, e);
      }
  }

  lemma CallSmaller<L, C>(s: State<L, C>, e: Event<L, C>)
    requires Inv(s) && Internal(s, e) && e.tag.Unary?
    ensures Smaller(Step(s, e), s)
  {
    assert WellFormed(s);
    hide Queued, Serve, ProceedManager, ProceedListener, Registered, OneAcceptor, TagsAccounted;
    assert Step(s, e).tags == s.tags - multiset{e.tag};
  }

  lemma WriteSmaller<L, C>(s: State<L, C>, e: Event<L, C>)
    requires WellFormed(s) && Internal(s, e) && e.tag.Listen? && s.listeners[e.tag.listener].result != []
    requires s.listeners[e.tag.listener].status == LISTEN_COMMAND
      || s.listeners[e.tag.listener].status == LISTEN_COMMAND_SENT
    ensures Smaller(Step(s, e), s)
  {
    hide Queued, ProceedManager, ProceedCall;
    var s', id := Step(s, e), e.tag.listener;
    QueuedUpdate(s.listeners, id, s'.listeners[id]);
    assert s'.listeners == s.listeners[id := s'.listeners[id]];
    assert s'.tags[Manager] == s.tags[Manager];
  }

  lemma IdleSmaller<L, C>(s: State<L, C>, e: Event<L, C>)
    requires WellFormed(s) && Internal(s, e) && e.tag.Listen?
    requires s.listeners[e.tag.listener].result == [] && s.listeners[e.tag.listener].status == LISTEN_COMMAND_SENT
    ensures Smaller(Step(s, e), s)
  {
    hide Queued, ProceedManager, ProceedCall;
    var s', id := Step(s, e), e.tag.listener;
    QueuedUpdate(s.listeners, id, s'.listeners[id]);
    assert s'.tags == s.tags - multiset{Listen(id)};
  }

  lemma TearDownSmaller<L, C>(s: State<L, C>, e: Event<L, C>)
    requires Registered(s) && Internal(s, e) && e.tag.Listen?
    requires s.listeners[e.tag.listener].result == [] && s.listeners[e.tag.listener].status == LISTEN_COMMAND
    ensures WellFormed(s) && Smaller(Step(s, e), s)
  {
    hide Queued, ProceedManager, ProceedCall, Sound, Distinct;
    var s', id := Step(s, e), e.tag.listener;
    QueuedUpdate(s.listeners, id, s'.listeners[id]);
    assert s'.tags == s.tags;
    WithoutShorter(s.responders, id);
  }

  lemma DeleteSmaller<L, C>(s: State<L, C>, e: Event<L, C>)
    requires WellFormed(s) && Internal(s, e) && e.tag.Listen?
    requires s.listeners[e.tag.listener].result == [] && s.listeners[e.tag.listener].status == FINISH
    ensures Smaller(Step(s, e), s)
  {
    hide Queued, ProceedManager, ProceedCall;
    var s', id := Step(s, e), e.tag.listener;
    QueuedSplit(s.listeners, id);
    assert s'.tags == s.tags[Listen(id) := 0];
  }

  lemma WithoutShorter<T>(s: seq<T>, x: T)
    requires x in s
    ensures |Without(s, x)| < |s|
  {
  }

  lemma ManagerKeepsTags<L, C>(s: State<L, C>, e: Event<L, C>)
    requires Inv(s) && Enabled(s, e) && e.Deliver? && e.tag == Manager
    ensures Step(s, e).tags[Manager] < s.tags[Manager]
  {
    var s1 := s.(tags := s.tags - multiset{Manager});
    assert s1.tags == s.tags[Manager := s1.tags[Manager]];
    SameCore(s, s1);
    if s.buffer != [] && s.responders != [] {
      if s.policy == NP_ALL {
        EnqueueToAllKeeps(s1, s.responders, s.buffer);
      } else {
        EnqueueToKeeps(s1, s.responders[NextIndex(s.responders, s.lastResponder)], s.buffer);
      }
    }
  }

  /** When no internal event is left, every queue is empty, nothing is waiting that could be sent,
      and only phones without surplus are still connected. */
  lemma AtRest<L, C>(s: State<L, C>)
    requires Inv(s)
    requires forall id :: id in s.listeners && s.listeners[id].newResponderCreated ==> Listen(id) !in s.tags
    requires Manager !in s.tags
    ensures forall id :: id in s.listeners ==> s.listeners[id].result == [] && s.listeners[id].surplus == 0
    ensures forall id :: id in s.listeners ==> s.listeners[id].status == LISTEN_COMMAND
    ensures s.buffer == [] || s.responders == []
  {
    forall id | id in s.listeners
      ensures s.listeners[id].result == [] && s.listeners[id].surplus == 0 && s.listeners[id].status == LISTEN_COMMAND
    {
      assert Sound(s.listeners[id]);
      assert s.listeners[id].newResponderCreated ==> s.tags[Listen(id)] == 0;
    }
  }
}
