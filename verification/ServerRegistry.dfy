/** What every event of the server keeps: the registry of phones, the acceptors, and the account
    of outstanding tags, from which it follows that no wake-up is lost. */
module ServerRegistry {
  import opened Server

  /** How many tags a listener in this situation is waiting for. */
  function Awaited(l: Listener): nat {
    if !l.newResponderCreated then 1
    else if l.status == LISTEN_COMMAND then if l.result == [] then 0 else 1
    else if l.status == LISTEN_COMMAND_SENT then 1
    else 0
  }

  predicate Connected(l: Listener) {
    l.newResponderCreated && l.status != FINISH
  }

  /** The situations a listener can be in: a fresh acceptor, a connected phone, or one that is
      finished, with nothing left to write. */
  predicate Sound(l: Listener) {
    && (l.status == LISTEN_COMMAND || l.status == LISTEN_COMMAND_SENT || l.status == FINISH)
    && (!l.newResponderCreated ==> l == Listener(LISTEN_COMMAND, false, [], 0))
    && (l.status == FINISH ==> l.result == [] && l.surplus >= 1)
  }

  ghost predicate Distinct<T>(s: seq<T>) {
    forall i, j :: 0 <= i < j < |s| ==> s[i] != s[j]
  }

  /** The responder list holds exactly the connected phones, each once. */
  ghost predicate Registered<L, C>(s: State<L, C>) {
    && s.listeners.Keys <= s.sent.Keys
    && Distinct(s.responders)
    && (forall id :: id in s.responders ==> id in s.listeners && Connected(s.listeners[id]))
    && (forall id :: id in s.listeners && Connected(s.listeners[id]) ==> id in s.responders)
    && (forall id :: id in s.listeners ==> Sound(s.listeners[id]))
  }

  /** Each listener has the tag it waits for, and its surplus; no tag names a deleted object. */
  ghost predicate TagsAccounted<L, C>(s: State<L, C>) {
    && (forall id :: id in s.listeners ==> s.tags[Listen(id)] == Awaited(s.listeners[id]) + s.listeners[id].surplus)
    && (forall id :: id in s.calls ==> s.tags[Unary(id)] == 1)
    && (forall t :: t in s.tags && t.Listen? ==> t.listener in s.listeners)
    && (forall t :: t in s.tags && t.Unary? ==> t.call in s.calls)
  }

  /** Exactly one listener is waiting for a phone to connect. */
  ghost predicate OneAcceptor<L>(listeners: map<L, Listener>) {
    exists a :: a in listeners && !listeners[a].newResponderCreated
      && forall b :: b in listeners && !listeners[b].newResponderCreated ==> b == a
  }

  /** Exactly one call object of each kind is waiting for a client. */
  ghost predicate OneCallAcceptor<C>(calls: map<C, Call>, rpc: Rpc) {
    exists a :: a in calls && calls[a] == Call(rpc, PROCESS, false)
      && forall b :: b in calls && calls[b].rpc == rpc && calls[b].status == PROCESS ==> b == a
  }

  ghost predicate CallsSound<C>(calls: map<C, Call>) {
    && (forall id :: id in calls ==> calls[id].status == (if calls[id].newResponderCreated then FINISH else PROCESS))
    && OneCallAcceptor(calls, REQUEST_TO_SEND) && OneCallAcceptor(calls, COUNT_SMS_TO_SEND)
    && OneCallAcceptor(calls, LAST_SMS_TO_SEND)
  }

  /** If there are messages and phones, the manager is about to run. */
  ghost predicate ManagerAwake<L, C>(s: State<L, C>) {
    s.buffer != [] && s.responders != [] ==> s.tags[Manager] >= 1
  }

  ghost predicate Inv<L, C>(s: State<L, C>) {
    Core(s) && ManagerAwake(s)
  }

  /** The parts of the invariant that are not about the manager's buffer. */
  ghost predicate Core<L, C>(s: State<L, C>) {
    Registered(s) && TagsAccounted(s) && OneAcceptor(s.listeners) && CallsSound(s.calls)
  }

  // ----- what a change to one object has to respect -----

  lemma AcceptorUnchanged<L>(ls: map<L, Listener>, ls': map<L, Listener>)
    requires OneAcceptor(ls) && ls'.Keys == ls.Keys
    requires forall id :: id in ls ==> ls'[id].newResponderCreated == ls[id].newResponderCreated
    ensures OneAcceptor(ls')
  {
    var a :| a in ls && !ls[a].newResponderCreated && forall b :: b in ls && !ls[b].newResponderCreated ==> b == a;
    assert a in ls' && !ls'[a].newResponderCreated;
  }

  /** `s'` differs from `s` in listener `id`, its tags, and perhaps those of the manager. */
  ghost predicate ChangesOnly<L, C>(s: State<L, C>, s': State<L, C>, id: L) {
    && id in s.listeners && id in s'.listeners
    && s'.listeners == s.listeners[id := s'.listeners[id]]
    && s'.calls == s.calls && s.sent.Keys <= s'.sent.Keys
    && s'.tags == s.tags[Listen(id) := s'.tags[Listen(id)]][Manager := s'.tags[Manager]]
  }

  /** A connected phone may change in any way that leaves it connected, sound, and with the tags
      it needs. */
  lemma ListenerChanged<L, C>(s: State<L, C>, s': State<L, C>, id: L)
    requires Core(s) && ChangesOnly(s, s', id) && s'.responders == s.responders
    requires Connected(s.listeners[id]) <==> Connected(s'.listeners[id])
    requires s.listeners[id].newResponderCreated && s'.listeners[id].newResponderCreated
    requires Sound(s'.listeners[id]) && s'.tags[Listen(id)] == Awaited(s'.listeners[id]) + s'.listeners[id].surplus
    ensures Core(s')
  {
    hide Sound, Awaited, CallsSound, Registered, TagsAccounted, OneAcceptor, Connected;
    ListenersChanged(s, s', id);
    TagsChanged(s, s', id);
  }

  lemma ListenersChanged<L, C>(s: State<L, C>, s': State<L, C>, id: L)
    requires Registered(s) && OneAcceptor(s.listeners) && ChangesOnly(s, s', id) && s'.responders == s.responders
    requires Connected(s.listeners[id]) <==> Connected(s'.listeners[id])
    requires s.listeners[id].newResponderCreated && s'.listeners[id].newResponderCreated && Sound(s'.listeners[id])
    ensures Registered(s') && OneAcceptor(s'.listeners)
  {
    hide Sound;
    AcceptorUnchanged(s.listeners, s'.listeners);
  }

  lemma TagsChanged<L, C>(s: State<L, C>, s': State<L, C>, id: L)
    requires TagsAccounted(s) && ChangesOnly(s, s', id)
    requires s'.tags[Listen(id)] == Awaited(s'.listeners[id]) + s'.listeners[id].surplus
    ensures TagsAccounted(s')
  {
    hide Awaited;
  }

  // ----- the start -----

  lemma InitInv<L, C>(policy: NotifyPolicy, l: L, request: C, count: C, last: C)
    requires request != count && request != last && count != last
    ensures Inv(Init<L, C>(policy, l, request, count, last))
  {
    InitParts(policy, l, request, count, last);
    InitCalls(request, count, last);
    hide Init, CallsSound;
    var s := Init<L, C>(policy, l, request, count, last);
    assert s.listeners[l] == Listener(LISTEN_COMMAND, false, [], 0);
  }

  lemma InitCalls<C>(request: C, count: C, last: C)
    requires request != count && request != last && count != last
    ensures CallsSound(map[request := Call(REQUEST_TO_SEND, PROCESS, false),
                           count := Call(COUNT_SMS_TO_SEND, PROCESS, false),
                           last := Call(LAST_SMS_TO_SEND, PROCESS, false)])
  {
    var calls := map[request := Call(REQUEST_TO_SEND, PROCESS, false), count := Call(COUNT_SMS_TO_SEND, PROCESS, false),
                     last := Call(LAST_SMS_TO_SEND, PROCESS, false)];
    assert OneCallAcceptor(calls, REQUEST_TO_SEND) by {
      assert calls[request] == Call(REQUEST_TO_SEND, PROCESS, false);
    }
    assert OneCallAcceptor(calls, COUNT_SMS_TO_SEND) by {
      assert calls[count] == Call(COUNT_SMS_TO_SEND, PROCESS, false);
    }
    assert OneCallAcceptor(calls, LAST_SMS_TO_SEND) by {
      assert calls[last] == Call(LAST_SMS_TO_SEND, PROCESS, false);
    }
  }

  lemma InitParts<L, C>(policy: NotifyPolicy, l: L, request: C, count: C, last: C)
    requires request != count && request != last && count != last
    ensures var s := Init<L, C>(policy, l, request, count, last);
      && s.listeners == map[l := Listener(LISTEN_COMMAND, false, [], 0)]
      && s.calls == map[request := Call(REQUEST_TO_SEND, PROCESS, false),
                        count := Call(COUNT_SMS_TO_SEND, PROCESS, false),
                        last := Call(LAST_SMS_TO_SEND, PROCESS, false)]
      && s.tags == multiset{Unary(request), Listen(l), Unary(count), Unary(last)}
      && s.responders == [] && s.sent == map[l := []] && s.buffer == []
  {
  }

  // ----- one lemma for each kind of event -----

  lemma HangUpInv<L, C>(s: State<L, C>, e: Event<L, C>)
    requires Inv(s) && Enabled(s, e) && e.HangUp?
    ensures Inv(Step(s, e))
  {
    var s' := Step(s, e);
    assert s'.tags == s.tags[Listen(e.phone) := s.tags[Listen(e.phone)] + 1];
    ListenerChanged(s, s', e.phone);
  }

  /** `ListenData::enqueue` for a connected phone arms exactly the tag it will be waiting for. */
  lemma EnqueueToKeeps<L, C>(s: State<L, C>, id: L, values: seq<SMS>)
    requires Core(s) && id in s.responders && values != []
    ensures var s' := EnqueueTo(s, id, values);
      Core(s') && s'.responders == s.responders && s'.tags[Manager] == s.tags[Manager]
  {
    var s' := EnqueueTo(s, id, values);
    assert s'.tags == s.tags[Listen(id) := s'.tags[Listen(id)]];
    ListenerChanged(s, s', id);
  }

  lemma {:induction false} EnqueueToAllKeeps<L, C>(s: State<L, C>, ids: seq<L>, values: seq<SMS>)
    requires Core(s) && (forall id :: id in ids ==> id in s.responders) && values != []
    ensures var s' := EnqueueToAll(s, ids, values);
      Core(s') && s'.responders == s.responders && s'.tags[Manager] == s.tags[Manager]
    decreases |ids|
  {
    if ids != [] {
      EnqueueToKeeps(s, ids[0], values);
      EnqueueToAllKeeps(EnqueueTo(s, ids[0], values), ids[1..], values);
    }
  }

  /** The manager's tags, its buffer, and the histories are none of the core's business. */
  lemma SameCore<L, C>(s: State<L, C>, s': State<L, C>)
    requires Core(s)
    requires s'.listeners == s.listeners && s'.responders == s.responders && s'.calls == s.calls
      && s'.sent.Keys == s.sent.Keys
    requires s'.tags == s.tags[Manager := s'.tags[Manager]]
    ensures Core(s')
  {
    AcceptorUnchanged(s.listeners, s'.listeners);
  }

  lemma ManagerInv<L, C>(s: State<L, C>, e: Event<L, C>)
    requires Inv(s) && Enabled(s, e) && e.Deliver? && e.tag.Manager?
    ensures Inv(Step(s, e))
  {
    var s1 := s.(tags := s.tags - multiset{Manager});
    assert s1.tags == s.tags[Manager := s1.tags[Manager]];
    SameCore(s, s1);
    if s.buffer != [] && s.responders != [] {
      var s2 := if s.policy == NP_ALL then EnqueueToAll(s1, s.responders, s.buffer)
                else EnqueueTo(s1, s.responders[NextIndex(s.responders, s.lastResponder)], s.buffer);
      if s.policy == NP_ALL {
        EnqueueToAllKeeps(s1, s.responders, s.buffer);
      } else {
        EnqueueToKeeps(s1, s.responders[NextIndex(s.responders, s.lastResponder)], s.buffer);
      }
      var s' := Step(s, e);
      assert s'.tags == s2.tags == s2.tags[Manager := s2.tags[Manager]];
      SameCore(s2, s');
    }
  }

  /** A listener that has a tag, and is not an acceptor or finished, writes or goes idle. */
  lemma WriteOrIdleInv<L, C>(s: State<L, C>, e: Event<L, C>)
    requires Inv(s) && Enabled(s, e) && e.Deliver? && e.tag.Listen?
    requires var l := s.listeners[e.tag.listener];
      l.newResponderCreated && (l.status == LISTEN_COMMAND_SENT || (l.status == LISTEN_COMMAND && l.result != []))
    ensures Inv(Step(s, e))
  {
    SoundListener(s, e.tag.listener);
    ListenerTag(s, e.tag.listener);
    hide Inv;
    WriteOrIdle(s, e);
    hide Step, Core;
    Rearmed(s, Step(s, e), e.tag.listener);
  }

  /** A phone that stays connected, with the tags it needs, leaves the whole invariant intact. */
  lemma Rearmed<L, C>(s: State<L, C>, s': State<L, C>, id: L)
    requires Inv(s) && ChangesOnly(s, s', id) && s'.responders == s.responders && s'.buffer == s.buffer
    requires s'.tags[Manager] == s.tags[Manager]
    requires s.listeners[id].newResponderCreated && s'.listeners[id].newResponderCreated
    requires Connected(s.listeners[id]) && Connected(s'.listeners[id]) && Sound(s'.listeners[id])
    requires s'.tags[Listen(id)] == Awaited(s'.listeners[id]) + s'.listeners[id].surplus
    ensures Inv(s')
  {
    hide Core;
    ListenerChanged(s, s', id);
  }

  lemma WriteOrIdle<L, C>(s: State<L, C>, e: Event<L, C>)
    requires WellFormed(s) && Enabled(s, e) && e.Deliver? && e.tag.Listen?
    requires var l := s.listeners[e.tag.listener];
      l.newResponderCreated && (l.status == LISTEN_COMMAND_SENT || (l.status == LISTEN_COMMAND && l.result != []))
    ensures var s', id, l := Step(s, e), e.tag.listener, s.listeners[e.tag.listener];
      && ChangesOnly(s, s', id) && s'.responders == s.responders && s'.buffer == s.buffer
      && s'.listeners[id] == (if l.result == [] then l.(status := LISTEN_COMMAND)
                              else l.(result := l.result[1..], status := LISTEN_COMMAND_SENT))
      && s'.tags[Listen(id)] == s.tags[Listen(id)] - (if l.result == [] then 1 else 0)
      && s'.tags[Manager] == s.tags[Manager]
  {
    hide ProceedManager, ProceedCall, WellFormed;
    var s', id := Step(s, e), e.tag.listener;
    assert s'.tags == s.tags[Listen(id) := s'.tags[Listen(id)]];
  }

  lemma WithoutIs<T>(s: seq<T>, x: T)
    requires Distinct(s)
    ensures Distinct(Without(s, x))
    ensures forall y :: y in Without(s, x) <==> y in s && y != x
  {
    var i, w := Find(s, x), Without(s, x);
    if i < |s| {
      forall y ensures y in w <==> y in s && y != x {
        if y in s && y != x {
          var k :| 0 <= k < |s| && s[k] == y;
          assert y == if k < i then w[k] else w[k - 1];
        }
        if y in w {
          var k :| 0 <= k < |w| && w[k] == y;
          assert y == if k < i then s[k] else s[k + 1];
        }
      }
    }
  }

  /** An idle phone is taken for gone: this needs a tag it was not waiting for. */
  lemma TearDownInv<L, C>(s: State<L, C>, e: Event<L, C>)
    requires Inv(s) && Enabled(s, e) && e.Deliver? && e.tag.Listen?
    requires var l := s.listeners[e.tag.listener];
      l.newResponderCreated && l.status == LISTEN_COMMAND && l.result == []
    ensures Inv(Step(s, e))
  {
    var id := e.tag.listener;
    var s' := s.(listeners := s.listeners[id := s.listeners[id].(status := FINISH)],
                 responders := Without(s.responders, id));
    assert s.tags - multiset{Listen(id)} + multiset{Listen(id)} == s.tags;
    assert Step(s, e) == s';
    TornDown(s, s', id);
  }

  lemma TornDown<L, C>(s: State<L, C>, s': State<L, C>, id: L)
    requires Core(s) && id in s.listeners && Connected(s.listeners[id])
    requires s.listeners[id].status == LISTEN_COMMAND && s.listeners[id].result == [] && s.listeners[id].surplus >= 1
    requires s' == s.(listeners := s.listeners[id := s.listeners[id].(status := FINISH)],
                      responders := Without(s.responders, id))
    ensures Core(s') && (s'.responders != [] ==> s.responders != [])
  {
    hide Without, Find, CallsSound, Registered, TagsAccounted, OneAcceptor;
    AcceptorUnchanged(s.listeners, s'.listeners);
    TornDownRegistered(s, s', id);
    TornDownTags(s, s', id);
  }

  lemma TornDownRegistered<L, C>(s: State<L, C>, s': State<L, C>, id: L)
    requires Registered(s) && id in s.listeners && Connected(s.listeners[id])
    requires s.listeners[id].status == LISTEN_COMMAND && s.listeners[id].result == [] && s.listeners[id].surplus >= 1
    requires s' == s.(listeners := s.listeners[id := s.listeners[id].(status := FINISH)],
                      responders := Without(s.responders, id))
    ensures Registered(s') && (s'.responders != [] ==> s.responders != [])
  {
    WithoutIs(s.responders, id);
    assert Sound(s'.listeners[id]) && !Connected(s'.listeners[id]);
    hide Without, Find, Distinct, Sound, Connected;
    assert s'.responders != [] ==> s'.responders[0] in s'.responders;
  }

  lemma TornDownTags<L, C>(s: State<L, C>, s': State<L, C>, id: L)
    requires TagsAccounted(s) && id in s.listeners && Connected(s.listeners[id])
    requires s.listeners[id].status == LISTEN_COMMAND && s.listeners[id].result == []
    requires s' == s.(listeners := s.listeners[id := s.listeners[id].(status := FINISH)], responders := s'.responders)
    ensures TagsAccounted(s')
  {
  }

  lemma DeleteInv<L, C>(s: State<L, C>, e: Event<L, C>)
    requires Inv(s) && Enabled(s, e) && e.Deliver? && e.tag.Listen?
    requires s.listeners[e.tag.listener].status == FINISH
    ensures Inv(Step(s, e))
  {
    var id := e.tag.listener;
    var s' := s.(listeners := s.listeners - {id}, tags := s.tags[Listen(id) := 0]);
    assert (s.tags - multiset{Listen(id)})[Listen(id) := 0] == s.tags[Listen(id) := 0];
    assert Step(s, e) == s';
    Deleted(s, s', id);
  }

  lemma Deleted<L, C>(s: State<L, C>, s': State<L, C>, id: L)
    requires Core(s) && id in s.listeners && s.listeners[id].newResponderCreated && s.listeners[id].status == FINISH
    requires s' == s.(listeners := s.listeners - {id}, tags := s.tags[Listen(id) := 0])
    ensures Core(s')
  {
    var a :| a in s.listeners && !s.listeners[a].newResponderCreated
      && forall b :: b in s.listeners && !s.listeners[b].newResponderCreated ==> b == a;
    assert a in s'.listeners && !s'.listeners[a].newResponderCreated;
  }

  /** A phone connects: it is registered, and a new acceptor takes its place. */
  lemma ConnectInv<L, C>(s: State<L, C>, e: Event<L, C>)
    requires Inv(s) && Enabled(s, e) && e.Deliver? && e.tag.Listen?
    requires !s.listeners[e.tag.listener].newResponderCreated
    ensures Inv(Step(s, e))
  {
    var s', id := Step(s, e), e.tag.listener;
    var woken := if s.buffer != [] then multiset{Manager} else multiset{};
    assert s'.tags == s.tags - multiset{Listen(id)} + multiset{Listen(e.freshL)} + woken;
    assert s'.listeners == s.listeners[e.freshL := Listener(LISTEN_COMMAND, false, [], 0)]
                             [id := s.listeners[id].(newResponderCreated := true)];
    assert s'.responders == s.responders + [id] && s'.calls == s.calls && s'.sent.Keys == s.sent.Keys + {e.freshL};
    ConnectedNow(s, s', id, e.freshL, woken);
  }

  lemma ConnectedNow<L, C>(s: State<L, C>, s': State<L, C>, id: L, acceptor: L, woken: multiset<Tag<L, C>>)
    requires Core(s) && id in s.listeners && !s.listeners[id].newResponderCreated && acceptor !in s.sent
    requires woken == multiset{} || woken == multiset{Manager}
    requires s'.tags == s.tags - multiset{Listen(id)} + multiset{Listen(acceptor)} + woken
    requires s'.listeners == s.listeners[acceptor := Listener(LISTEN_COMMAND, false, [], 0)]
                               [id := s.listeners[id].(newResponderCreated := true)]
    requires s'.responders == s.responders + [id] && s'.calls == s.calls && s'.sent.Keys == s.sent.Keys + {acceptor}
    ensures Core(s')
  {
    hide TagsAccounted, CallsSound;
    assert acceptor !in s.listeners;
    NoTagsFor(s, acceptor);
    ConnectedRegistered(s, s', id, acceptor);
    ConnectedTags(s, s', id, acceptor, woken);
    ConnectedAcceptor(s.listeners, s'.listeners, id, acceptor);
  }

  lemma NoTagsFor<L, C>(s: State<L, C>, id: L)
    requires TagsAccounted(s) && id !in s.listeners
    ensures Listen(id) !in s.tags
  {
  }

  lemma ConnectedAcceptor<L>(ls: map<L, Listener>, ls': map<L, Listener>, id: L, acceptor: L)
    requires OneAcceptor(ls) && id in ls && !ls[id].newResponderCreated && acceptor !in ls
    requires ls' == ls[acceptor := Listener(LISTEN_COMMAND, false, [], 0)][id := ls[id].(newResponderCreated := true)]
    ensures OneAcceptor(ls')
  {
    assert acceptor in ls' && !ls'[acceptor].newResponderCreated;
    forall b | b in ls' && !ls'[b].newResponderCreated ensures b == acceptor {
      assert b != id;
    }
  }

  lemma ConnectedRegistered<L, C>(s: State<L, C>, s': State<L, C>, id: L, acceptor: L)
    requires Registered(s) && id in s.listeners && !s.listeners[id].newResponderCreated && acceptor !in s.listeners
    requires s'.listeners == s.listeners[acceptor := Listener(LISTEN_COMMAND, false, [], 0)]
                               [id := s.listeners[id].(newResponderCreated := true)]
    requires s'.responders == s.responders + [id] && s'.sent.Keys == s.sent.Keys + {acceptor}
    ensures Registered(s')
  {
    assert id !in s.responders;
    assert s'.listeners.Keys == s.listeners.Keys + {acceptor};
  }

  lemma ConnectedTags<L, C>(s: State<L, C>, s': State<L, C>, id: L, acceptor: L, woken: multiset<Tag<L, C>>)
    requires TagsAccounted(s) && id in s.listeners && Sound(s.listeners[id]) && !s.listeners[id].newResponderCreated
    requires acceptor !in s.listeners && Listen(acceptor) !in s.tags
      && (woken == multiset{} || woken == multiset{Manager})
    requires s'.tags == s.tags - multiset{Listen(id)} + multiset{Listen(acceptor)} + woken
    requires s'.listeners == s.listeners[acceptor := Listener(LISTEN_COMMAND, false, [], 0)]
                               [id := s.listeners[id].(newResponderCreated := true)]
    requires s'.calls == s.calls
    ensures TagsAccounted(s')
  {
    assert s.tags[Listen(id)] == 1;
    assert s'.listeners[id] == Listener(LISTEN_COMMAND, true, [], 0);
    forall k | k in s'.listeners ensures s'.tags[Listen(k)] == Awaited(s'.listeners[k]) + s'.listeners[k].surplus {
      if k != id && k != acceptor {
        assert s'.tags[Listen(k)] == s.tags[Listen(k)];
      }
    }
    forall k | k in s'.calls ensures s'.tags[Unary(k)] == 1 {
      assert s'.tags[Unary(k)] == s.tags[Unary(k)];
    }
    forall t | t in s'.tags
      ensures t.Listen? ==> t.listener in s'.listeners
      ensures t.Unary? ==> t.call in s'.calls
    {
      assert t in s.tags || t == Listen(acceptor) || t == Manager;
    }
  }

  // ----- unary calls -----

  /** A client calls: it is answered, and a new acceptor takes its place. */
  lemma ServeInv<L, C>(s: State<L, C>, e: Event<L, C>)
    requires Inv(s) && Enabled(s, e) && e.Deliver? && e.tag.Unary?
    requires s.calls[e.tag.call].status == PROCESS
    ensures Inv(Step(s, e))
  {
    var s', id := Step(s, e), e.tag.call;
    var c := s.calls[id];
    var woken := if e.request.allowed && c.rpc == REQUEST_TO_SEND then multiset{Manager} else multiset{};
    NoTagsForCall(s, e.freshC);
    assert !c.newResponderCreated;
    ServeParts(s, e, woken);
    Served(s, s', id, e.freshC, woken);
  }

  lemma NoTagsForCall<L, C>(s: State<L, C>, id: C)
    requires TagsAccounted(s) && id !in s.calls
    ensures Unary(id) !in s.tags
  {
  }

  /** Answering a client is none of the phones' business. */
  lemma ServeElsewhere<L, C>(s: State<L, C>, rpc: Rpc, request: Request)
    ensures var s' := Serve(s, rpc, request);
      && s'.policy == s.policy && s'.listeners == s.listeners && s'.responders == s.responders
      && s'.lastResponder == s.lastResponder && s'.sent == s.sent && s'.calls == s.calls
  {
  }

  lemma ServeWakes<L, C>(s: State<L, C>, rpc: Rpc, request: Request, woken: multiset<Tag<L, C>>)
    requires woken == if request.allowed && rpc == REQUEST_TO_SEND then multiset{Manager} else multiset{}
    ensures Serve(s, rpc, request).tags == s.tags + woken
    ensures Serve(s, rpc, request).buffer != [] ==> s.buffer != [] || woken != multiset{}
  {
  }

  lemma ServeParts<L, C>(s: State<L, C>, e: Event<L, C>, woken: multiset<Tag<L, C>>)
    requires Enabled(s, e) && WellFormed(s) && e.Deliver? && e.tag.Unary?
    requires s.calls[e.tag.call].status == PROCESS && !s.calls[e.tag.call].newResponderCreated
    requires woken == if e.request.allowed && s.calls[e.tag.call].rpc == REQUEST_TO_SEND then multiset{Manager}
      else multiset{}
    ensures var s', c := Step(s, e), s.calls[e.tag.call];
      && s'.tags == s.tags + woken + multiset{Unary(e.freshC)}
      && s'.calls == s.calls[e.freshC := Call(c.rpc, PROCESS, false)][e.tag.call := Call(c.rpc, FINISH, true)]
      && s'.listeners == s.listeners && s'.responders == s.responders && s'.sent == s.sent
      && (s'.buffer != [] ==> s.buffer != [] || woken != multiset{})
  {
    var id, c := e.tag.call, s.calls[e.tag.call];
    var s1 := s.(tags := s.tags - multiset{Unary(id)});
    hide ProceedManager, ProceedListener, Serve;
    assert Step(s, e) == ProceedCall(s1, id, e.request, e.freshC);
    ServeElsewhere(s1, c.rpc, e.request);
    ServeWakes(s1, c.rpc, e.request, woken);
    TagBack(s.tags, Unary(id), woken, Unary(e.freshC));
  }

  lemma TagBack<T>(tags: multiset<T>, t: T, woken: multiset<T>, u: T)
    requires t in tags
    ensures tags - multiset{t} + woken + multiset{u} + multiset{t} == tags + woken + multiset{u}
  {
  }

  lemma Served<L, C>(s: State<L, C>, s': State<L, C>, id: C, acceptor: C, woken: multiset<Tag<L, C>>)
    requires Core(s) && id in s.calls && s.calls[id].status == PROCESS && acceptor !in s.calls
    requires woken == multiset{} || woken == multiset{Manager}
    requires s'.listeners == s.listeners && s'.responders == s.responders && s'.sent == s.sent
    requires s'.calls == s.calls[acceptor := Call(s.calls[id].rpc, PROCESS, false)]
                               [id := Call(s.calls[id].rpc, FINISH, true)]
    requires s'.tags == s.tags + woken + multiset{Unary(acceptor)} && Unary(acceptor) !in s.tags
    ensures Core(s')
  {
    AcceptorUnchanged(s.listeners, s'.listeners);
    forall t | t in s'.tags
      ensures t.Listen? ==> t.listener in s'.listeners
      ensures t.Unary? ==> t.call in s'.calls
    {
      assert t in s.tags || t == Unary(acceptor) || t == Manager;
    }
    ServedCalls(s.calls, s'.calls, id, acceptor);
  }

  lemma ServedCalls<C>(cs: map<C, Call>, cs': map<C, Call>, id: C, acceptor: C)
    requires CallsSound(cs) && id in cs && cs[id].status == PROCESS && acceptor !in cs
    requires cs' == cs[acceptor := Call(cs[id].rpc, PROCESS, false)][id := Call(cs[id].rpc, FINISH, true)]
    ensures CallsSound(cs')
  {
    forall rpc | OneCallAcceptor(cs, rpc) ensures OneCallAcceptor(cs', rpc) {
      var a :| a in cs && cs[a] == Call(rpc, PROCESS, false)
        && forall b :: b in cs && cs[b].rpc == rpc && cs[b].status == PROCESS ==> b == a;
      if rpc == cs[id].rpc {
        assert a == id && cs'[acceptor] == Call(rpc, PROCESS, false);
      } else {
        assert cs'[a] == Call(rpc, PROCESS, false);
      }
    }
  }

  /** The answer is out, and the call object is deleted. */
  lemma AnsweredInv<L, C>(s: State<L, C>, e: Event<L, C>)
    requires Inv(s) && Enabled(s, e) && e.Deliver? && e.tag.Unary?
    requires s.calls[e.tag.call].status == FINISH
    ensures Inv(Step(s, e))
  {
    var id := e.tag.call;
    var s' := s.(calls := s.calls - {id}, tags := s.tags - multiset{Unary(id)});
    assert Step(s, e) == s';
    Answered(s, s', id);
  }

  lemma Answered<L, C>(s: State<L, C>, s': State<L, C>, id: C)
    requires Core(s) && id in s.calls && s.calls[id].status == FINISH
    requires s' == s.(calls := s.calls - {id}, tags := s.tags - multiset{Unary(id)})
    ensures Core(s')
  {
    hide Sound, Awaited, Connected, Distinct, OneAcceptor, CallsSound;
    AnsweredCalls(s.calls, id);
  }

  lemma AnsweredCalls<C>(cs: map<C, Call>, id: C)
    requires CallsSound(cs) && id in cs && cs[id].status == FINISH
    ensures CallsSound(cs - {id})
  {
    forall rpc | OneCallAcceptor(cs, rpc) ensures OneCallAcceptor(cs - {id}, rpc) {
      var a :| a in cs && cs[a] == Call(rpc, PROCESS, false)
        && forall b :: b in cs && cs[b].rpc == rpc && cs[b].status == PROCESS ==> b == a;
      assert (cs - {id})[a] == Call(rpc, PROCESS, false);
    }
  }

  // ----- every event, every run -----

  lemma StepInv<L, C>(s: State<L, C>, e: Event<L, C>)
    requires Inv(s) && Enabled(s, e)
    ensures Inv(Step(s, e))
  {
    hide Step, Inv;
    if e.HangUp? {
      HangUpInv(s, e);
    } else {
      match e.tag
      case Manager => ManagerInv(s, e);
      case Listen(id) =>
        var l := s.listeners[id];
        SoundListener(s, id);
        if !l.newResponderCreated {
          ConnectInv(s, e);
        } else if l.status == FINISH {
          DeleteInv(s, e);
        } else if l.status == LISTEN_COMMAND && l.result == [] {
          TearDownInv(s, e);
        } else {
          WriteOrIdleInv(s, e);
        }
      case Unary(id) =>
        SoundCall(s, id);
        if s.calls[id].status == PROCESS {
          ServeInv(s, e);
        } else {
          AnsweredInv(s, e);
        }
    }
  }

  lemma SoundListener<L, C>(s: State<L, C>, id: L)
    requires Inv(s) && id in s.listeners
    ensures Sound(s.listeners[id])
  {
  }

  lemma ListenerTag<L, C>(s: State<L, C>, id: L)
    requires Inv(s) && id in s.listeners
    ensures WellFormed(s) && s.tags[Listen(id)] == Awaited(s.listeners[id]) + s.listeners[id].surplus
  {
  }

  lemma SoundCall<L, C>(s: State<L, C>, id: C)
    requires Inv(s) && id in s.calls
    ensures s.calls[id].status == PROCESS || s.calls[id].status == FINISH
  {
  }
}