/** The server's objects, updated in place: every method is proved to do to the state what the
    functions of `Server` say, so that whatever holds of all runs of the state machine holds of
    these objects.

    A pointer may be null, as in the source.  `listeners` and `calls` are the objects that have not
    been deleted; a tag of a deleted object is dropped. */
module ServerObjects {
  import opened Server
  import opened ServerRegistry
  import opened ServerOrder
  import opened ServerRuns
  import opened Wrappers

  type QueueTag = Tag<ListenData?, UnaryData?>
  type Snapshot = State<ListenData?, UnaryData?>
  type ServerEvent = Event<ListenData?, UnaryData?>

  datatype History = History(accepted: seq<SMS>, log: seq<Entry<ListenData?>>, sent: map<ListenData?, seq<SMS>>,
                             joined: map<ListenData?, nat>, replies: seq<Reply>)

  class SMSServiceImpl {
    const login: string
    const password: string
    var cq: multiset<QueueTag>
    var clientsListenSMS: ListenSMS?
    var queuingMgr: QueuingMgr?
    var alive: set<ListenData?>
    ghost var listeners: map<ListenData?, Listener>
    ghost var calls: map<UnaryData?, Call>
    ghost var history: History

    /** The maps say what the objects amount to that have not been deleted. */
    ghost predicate Valid()
      reads this, clientsListenSMS, queuingMgr, listeners.Keys, calls.Keys
    {
      && clientsListenSMS != null && clientsListenSMS.smsService == this
      && queuingMgr != null && queuingMgr.smsService == this
      && (forall l :: l in listeners ==>
            && l != null && l.smsService == this
            && Listener(l.status, l.newResponderCreated, l.result, l.surplus) == listeners[l])
      && alive == listeners.Keys && null !in history.sent
      && (forall c :: c in calls ==>
            && c != null && c.smsService == this
            && Call(c.rpc, c.status, c.newResponderCreated) == calls[c])
    }

    ghost function Now(): Snapshot
      requires clientsListenSMS != null && queuingMgr != null
      reads this, clientsListenSMS, queuingMgr
    {
      State(clientsListenSMS.policy, queuingMgr.result, clientsListenSMS.listenResponders,
            if clientsListenSMS.lastResponder == null then None else Some(clientsListenSMS.lastResponder),
            listeners, calls, cq, history.accepted, history.log, history.sent, history.joined, history.replies)
    }

    constructor (login: string, password: string, policy: NotifyPolicy)
      ensures Valid() && this.login == login && this.password == password
      ensures Now() == State(policy, [], [], None, map[], map[], multiset{}, [], [], map[], map[], [])
      ensures fresh(clientsListenSMS) && fresh(queuingMgr)
    {
      this.login, this.password := login, password;
      cq, alive, listeners, calls := multiset{}, {}, map[], map[];
      clientsListenSMS, queuingMgr := null, null;
      history := History([], [], map[], map[], []);
      new;
      clientsListenSMS := new ListenSMS(this, policy);
      queuingMgr := new QueuingMgr(this);
    }

    /** The completion queue will deliver the new object's tag when a phone connects. */
    method Register(l: ListenData)
      requires Valid() && l.smsService == this && l.View() == Listener(LISTEN_COMMAND, false, [], 0)
      modifies this`cq, this`alive, this`listeners, this`history
      ensures Valid()
      ensures Now() == old(Now()).(listeners := old(listeners)[l := Listener(LISTEN_COMMAND, false, [], 0)],
                                   sent := old(history.sent)[l := []], tags := old(cq) + multiset{Listen(l)})
    {
      alive, listeners := alive + {l}, listeners[l := l.View()];
      cq := cq + multiset{Listen(l)};
      history := history.(sent := history.sent[l := []]);
    }

    predicate IsAllowed(login: string, password: string) {
      login == this.login && password == this.password
    }

    /** The phone is gone: its tag is put on the completion queue. */
    method HangUp(phone: ListenData)
      requires Valid() && phone in alive && phone.newResponderCreated
      modifies this`cq, this`listeners, phone`surplus
      ensures Valid()
      ensures Now() == (var l := old(listeners)[phone];
        old(Now()).(listeners := old(listeners)[phone := l.(surplus := l.surplus + 1)],
                    tags := old(cq) + multiset{Listen(phone)}))
    {
      phone.surplus := phone.surplus + 1;
      listeners := listeners[phone := phone.View()];
      cq := cq + multiset{Listen(phone)};
    }

    method DeliverManager(ghost request: Request) returns (ghost e: ServerEvent)
      requires Valid() && Inv(Now()) && Manager in cq
      modifies this`cq, this`listeners, this`history, clientsListenSMS, queuingMgr, listeners.Keys
      ensures Valid() && listeners.Keys == old(listeners.Keys)
      ensures e == Deliver(Manager, request, null, null)
      ensures WellFormed(old(Now())) && Enabled(old(Now()), e) && Now() == Step(old(Now()), e)
    {
      hide Inv, WellFormed, ProceedManager, Step, Enabled;
      e := Deliver(Manager, request, null, null);
      Deliverable(Now(), e);
      cq := cq - multiset{Manager};
      queuingMgr.Proceed();
    }

    method DeliverToListener(l: ListenData?, ghost request: Request) returns (ghost e: ServerEvent)
      requires Valid() && Inv(Now()) && Listen(l) in cq
      modifies this`cq, this`alive, this`listeners, this`history, clientsListenSMS`listenResponders, listeners.Keys
      ensures Valid() && forall k :: k in listeners && k !in old(listeners) ==> fresh(k)
      ensures e.Deliver? && e.tag == Listen(l) && e.request == request
      ensures WellFormed(old(Now())) && Enabled(old(Now()), e) && Now() == Step(old(Now()), e)
    {
      hide Inv, WellFormed, ProceedListener, Step, Enabled;
      ghost var was := Now();
      Deliverable(was, Deliver(Listen(l), request, null, null));
      cq := cq - multiset{Listen(l)};
      ghost var acceptor := l.Proceed();
      hide *;
      e := Deliver(Listen(l), request, acceptor, null);
      Deliverable(was, e);
    }

    method DeliverToCall(c: UnaryData?, login: string, password: string, sms: SMS) returns (ghost e: ServerEvent)
      requires Valid() && Inv(Now()) && Unary(c) in cq
      modifies this`cq, this`calls, this`history, queuingMgr`result, calls.Keys
      ensures Valid() && forall k :: k in calls && k !in old(calls) ==> fresh(k)
      ensures e.Deliver? && e.tag == Unary(c) && e.request == Request(IsAllowed(login, password), sms)
      ensures WellFormed(old(Now())) && Enabled(old(Now()), e) && Now() == Step(old(Now()), e)
    {
      hide Inv, WellFormed, ProceedCall, Step, Enabled;
      ghost var was := Now();
      ghost var request := Request(IsAllowed(login, password), sms);
      Deliverable(was, Deliver(Unary(c), request, null, null));
      cq := cq - multiset{Unary(c)};
      ghost var acceptor := c.Proceed(login, password, sms);
      hide *;
      e := Deliver(Unary(c), request, null, acceptor);
      Deliverable(was, e);
    }

    /** One turn of the event loop: the completion queue has delivered `tag`.  The other parameters
        are what a client has sent, if the tag is that of a unary call: it is allowed to do what it
        asks for exactly if it has both the login and the password of the service. */
    method Turn(tag: QueueTag, login: string, password: string, sms: SMS) returns (ghost e: ServerEvent)
      requires Valid() && Inv(Now()) && tag in cq
      modifies this`cq, this`alive, this`listeners, this`calls, this`history,
        clientsListenSMS, queuingMgr, listeners.Keys, calls.Keys
      ensures Valid()
      ensures forall l :: l in listeners && l !in old(listeners) ==> fresh(l)
      ensures forall c :: c in calls && c !in old(calls) ==> fresh(c)
      ensures e.Deliver? && e.tag == tag && e.request.sms == sms
      ensures e.request.allowed <==> login == this.login && password == this.password
      ensures WellFormed(old(Now())) && Enabled(old(Now()), e) && Now() == Step(old(Now()), e)
    {
      hide Inv, WellFormed, Step, Enabled;
      match tag {
        case Manager => e := DeliverManager(Request(IsAllowed(login, password), sms));
        case Listen(l) => e := DeliverToListener(l, Request(IsAllowed(login, password), sms));
        case Unary(c) => e := DeliverToCall(c, login, password, sms);
      }
    }

    /** What `Run` does before its loop: one object waits for the clients of each RPC. */
    method Open() returns (l: ListenData, request: UnaryData, count: UnaryData, last: UnaryData)
      requires Valid()
      requires Now() == State(clientsListenSMS.policy, [], [], None, map[], map[], multiset{}, [], [], map[], map[], [])
      modifies this`cq, this`alive, this`listeners, this`calls, this`history
      ensures Valid() && listeners.Keys == {l} && calls.Keys == {request, count, last}
      ensures fresh(l) && fresh(request) && fresh(count) && fresh(last)
      ensures request != count && request != last && count != last
      ensures Now() == Init<ListenData?, UnaryData?>(clientsListenSMS.policy, l, request, count, last)
    {
      hide NewCall, NewListener;
      assert listeners.Keys == {} && calls.Keys == {};
      request := new UnaryData(this, REQUEST_TO_SEND);
      l := new ListenData(this);
      assert calls.Keys == {request} && listeners.Keys == {l};
      count := new UnaryData(this, COUNT_SMS_TO_SEND);
      assert calls.Keys == {request, count};
      last := new UnaryData(this, LAST_SMS_TO_SEND);
    }

    /** Waits for an event and deals with it. */
    method Next(ghost start: Snapshot, ghost events: seq<ServerEvent>) returns (ghost longer: seq<ServerEvent>)
      requires Valid() && Inv(Now()) && OrderInv(Now()) && Possible(start, events) && Now() == After(start, events)
      modifies this`cq, this`alive, this`listeners, this`calls, this`history,
        clientsListenSMS, queuingMgr, listeners.Keys, calls.Keys
      ensures Valid() && Inv(Now()) && OrderInv(Now()) && Possible(start, longer) && Now() == After(start, longer)
      ensures forall l :: l in listeners && l !in old(listeners) ==> fresh(l)
      ensures forall c :: c in calls && c !in old(calls) ==> fresh(c)
    {
      hide Step, Enabled, Inv, OrderInv, After, Possible, WellFormed;
      ghost var was := Now();
      longer := events;
      var hangsUp: bool := *;
      if hangsUp {
        if phone: ListenData :| phone in alive && phone.newResponderCreated {
          HangUp(phone);
          HungUp(was, phone);
          Extended(start, events, was, Event.HangUp(phone));
          longer := events + [Event.HangUp(phone)];
        }
      } else {
        if tag :| tag in cq {
          var login: string, password: string, sms: SMS := *, *, *;
          ghost var e := Turn(tag, login, password, sms);
          Extended(start, events, was, e);
          longer := events + [e];
        }
      }
    }

    /** The event loop, for some number of turns: the completion queue chooses whose tag it
        delivers, clients send what they like, and phones hang up when they like. */
    method Run(turns: nat) returns (ghost start: Snapshot, ghost events: seq<ServerEvent>)
      requires Valid()
      requires Now() == State(clientsListenSMS.policy, [], [], None, map[], map[], multiset{}, [], [], map[], map[], [])
      modifies this`cq, this`alive, this`listeners, this`calls, this`history, clientsListenSMS, queuingMgr
      ensures Valid() && Inv(Now()) && OrderInv(Now())
      ensures exists l, request, count, last :: IsStart(start, clientsListenSMS.policy, l, request, count, last)
      ensures Possible(start, events) && Now() == After(start, events)
    {
      hide Step, Enabled, Inv, OrderInv, After, Possible, WellFormed, Init;
      var l, request, count, last := Open();
      start, events := Now(), [];
      assert IsStart(start, clientsListenSMS.policy, l, request, count, last);
      StartKeeps(start, clientsListenSMS.policy, l, request, count, last);
      var i := 0;
      while i < turns
        invariant Valid() && Inv(Now()) && OrderInv(Now())
        invariant Possible(start, events) && Now() == After(start, events)
        invariant fresh(listeners.Keys) && fresh(calls.Keys)
      {
        events := Next(start, events);
        i := i + 1;
      }
    }
  }

  ghost predicate IsStart(s: Snapshot, policy: NotifyPolicy, l: ListenData, request: UnaryData, count: UnaryData,
                          last: UnaryData) {
    && request != count && request != last && count != last
    && s == Init<ListenData?, UnaryData?>(policy, l, request, count, last)
  }

  lemma StartKeeps(s: Snapshot, policy: NotifyPolicy, l: ListenData, request: UnaryData, count: UnaryData,
                   last: UnaryData)
    requires IsStart(s, policy, l, request, count, last)
    ensures Possible(s, []) && After(s, []) == s && Inv(s) && OrderInv(s)
  {
    hide Init, Inv, OrderInv;
    InitInv<ListenData?, UnaryData?>(policy, l, request, count, last);
    InitOrder<ListenData?, UnaryData?>(policy, l, request, count, last);
    EmptyRun(s);
  }

  lemma HungUp(s: Snapshot, phone: ListenData)
    requires Inv(s) && phone in s.listeners && s.listeners[phone].newResponderCreated
    ensures WellFormed(s) && Enabled(s, HangUp(phone))
    ensures var l := s.listeners[phone];
      Step(s, HangUp(phone)) == s.(listeners := s.listeners[phone := l.(surplus := l.surplus + 1)],
                                   tags := s.tags + multiset{Listen(phone)})
  {
    hide ProceedManager, ProceedListener, ProceedCall, TagsAccounted, OneAcceptor, CallsSound, Distinct, ManagerAwake;
  }

  lemma Extended(s: Snapshot, events: seq<ServerEvent>, t: Snapshot, e: ServerEvent)
    requires Possible(s, events) && t == After(s, events) && Inv(t) && OrderInv(t) && WellFormed(t) && Enabled(t, e)
    ensures Possible(s, events + [e]) && After(s, events + [e]) == Step(t, e)
    ensures Inv(Step(t, e)) && OrderInv(Step(t, e))
  {
    hide *;
    RunExtended(s, events, e);
    StepInv(t, e);
    StepOrder(t, e);
  }

  /** Who can be delivered a tag, and what the event amounts to. */
  lemma Deliverable(s: Snapshot, e: ServerEvent)
    requires Inv(s) && e.Deliver? && e.tag in s.tags && e.freshL !in s.sent && e.freshC !in s.calls
    ensures Enabled(s, e) && WellFormed(s) && forall id :: id in s.responders ==> id in s.listeners
    ensures var s1 := s.(tags := s.tags - multiset{e.tag});
      && (e.tag.Manager? ==> Step(s, e) == ProceedManager(s1))
      && (e.tag.Listen? ==>
            && e.tag.listener in s.listeners && e.tag.listener in s.sent
            && Step(s, e) == ProceedListener(s1, e.tag.listener, e.freshL))
      && (e.tag.Unary? ==> e.tag.call in s.calls && Step(s, e) == ProceedCall(s1, e.tag.call, e.request, e.freshC))
  {
    hide ProceedManager, ProceedListener, ProceedCall;
  }

  lemma DispatchParts(s: Snapshot, values: seq<SMS>)
    requires forall id :: id in s.responders ==> id in s.listeners
    ensures s.responders == [] ==> EnqueueToAll(s, s.responders, values) == s
    ensures s.responders != [] && s.policy == NP_ALL ==>
      Dispatch(s, values) == EnqueueToAll(s, s.responders, values).(log := s.log + LogTo(values, ToAll))
    ensures s.responders != [] && s.policy != NP_ALL ==>
      var id := s.responders[NextIndex(s.responders, s.lastResponder)];
      Dispatch(s, values)
        == EnqueueTo(s, id, values).(lastResponder := Some(id), log := s.log + LogTo(values, ToPhone(id)))
    ensures forall id :: id in s.responders ==> EnqueueTo(s, id, values).log == s.log
    ensures EnqueueToAll(s, s.responders, values).log == s.log
  {
    AllKeepLog(s, s.responders, values);
    if s.responders == [] {
      EnqueuedNone(s, values);
    }
    hide EnqueueTo, EnqueueToAll, NextIndex, LogTo;
    forall id | id in s.responders ensures EnqueueTo(s, id, values).log == s.log {
      KeepsLog(s, id, values);
    }
  }

  lemma KeepsLog(s: Snapshot, id: ListenData?, values: seq<SMS>)
    requires id in s.listeners
    ensures EnqueueTo(s, id, values).log == s.log
  {
  }

  lemma {:induction false} AllKeepLog(s: Snapshot, ids: seq<ListenData?>, values: seq<SMS>)
    requires forall id :: id in ids ==> id in s.listeners
    ensures EnqueueToAll(s, ids, values).log == s.log
    decreases |ids|
  {
    if ids != [] {
      AllKeepLog(EnqueueTo(s, ids[0], values), ids[1..], values);
    }
  }

  /** What becomes of a listener that is not an acceptor. */
  lemma ListenerParts(s: Snapshot, id: ListenData?)
    requires id in s.listeners && id in s.sent && id != null
    requires s.listeners[id].status == LISTEN_COMMAND ==> s.listeners[id].newResponderCreated
    ensures var l := s.listeners[id];
      && (l.result != [] && (l.status == LISTEN_COMMAND || l.status == LISTEN_COMMAND_SENT) ==>
            ProceedListener(s, id, null)
            == s.(listeners := s.listeners[id := l.(result := l.result[1..], status := LISTEN_COMMAND_SENT)],
                  sent := s.sent[id := s.sent[id] + [l.result[0]]], tags := s.tags + multiset{Listen(id)}))
      && (l.result == [] && l.status == LISTEN_COMMAND_SENT ==>
            ProceedListener(s, id, null) == s.(listeners := s.listeners[id := l.(status := LISTEN_COMMAND)]))
      && (l.result == [] && l.status == LISTEN_COMMAND ==>
            ProceedListener(s, id, null)
            == s.(listeners := s.listeners[id := l.(status := FINISH)], responders := Without(s.responders, id),
                  tags := s.tags + multiset{Listen(id)}))
  {
    hide Without;
  }

  function JoinedAt(s: Snapshot, id: ListenData?): Snapshot
    requires id in s.listeners
  {
    s.(listeners := s.listeners[id := s.listeners[id].(newResponderCreated := true)],
       responders := s.responders + [id], joined := s.joined[id := |s.log|])
  }

  /** What becomes of an acceptor. */
  lemma ConnectParts(s: Snapshot, id: ListenData?, acceptor: ListenData?)
    requires id in s.listeners && id in s.sent && id != acceptor
    requires s.listeners[id].status == LISTEN_COMMAND && !s.listeners[id].newResponderCreated
    ensures id in NewListener(s, acceptor).listeners
    ensures ProceedListener(s, id, acceptor) == JoinedAt(NewListener(s, acceptor), id)
  {
  }

  lemma UpdatedTwice<K, V>(m: map<K, V>, k: K, a: V, b: V)
    ensures m[k := a][k := b] == m[k := b]
  {
  }

  lemma EnqueuedFirst(s: Snapshot, ids: seq<ListenData?>, values: seq<SMS>)
    requires ids != [] && forall id :: id in ids ==> id in s.listeners
    ensures EnqueueToAll(s, ids, values) == EnqueueToAll(EnqueueTo(s, ids[0], values), ids[1..], values)
    ensures EnqueueTo(s, ids[0], values).listeners.Keys == s.listeners.Keys
  {
  }

  lemma EnqueuedNone(s: Snapshot, values: seq<SMS>)
    ensures EnqueueToAll(s, [], values) == s
  {
  }

  lemma DispatchKeeps(s: Snapshot, values: seq<SMS>)
    requires forall id :: id in s.responders ==> id in s.listeners
    ensures s.responders != [] ==> Dispatch(s, values).listeners.Keys == s.listeners.Keys
  {
    hide NextIndex, EnqueueTo, EnqueueToAll, LogTo;
    if s.responders != [] {
      EnqueueToKeys(s, s.responders[NextIndex(s.responders, s.lastResponder)], values);
    }
  }

  lemma EnqueueToKeys(s: Snapshot, id: ListenData?, values: seq<SMS>)
    requires id in s.listeners
    ensures EnqueueTo(s, id, values).listeners.Keys == s.listeners.Keys
  {
    if s.listeners[id].result + values != [] {
      UpdatedKeys(s.listeners, id, EnqueueTo(s, id, values).listeners[id]);
    }
  }

  lemma UpdatedKeys<K, V>(m: map<K, V>, k: K, v: V)
    requires k in m
    ensures m[k := v].Keys == m.Keys
  {
  }

  /** The cursor of the round robin and the log do not matter to the phones. */
  lemma EnqueueElsewhere(s: Snapshot, id: ListenData?, values: seq<SMS>, last: Option<ListenData?>)
    requires id in s.listeners
    ensures EnqueueTo(s.(lastResponder := last), id, values) == EnqueueTo(s, id, values).(lastResponder := last)
  {
    hide EnqueueTo;
    var was := s.listeners[id];
    var wakes := was.status == LISTEN_COMMAND && was.result + values != [];
    var l := was.(result := was.result + values, surplus := was.surplus + if wakes && was.result != [] then 1 else 0);
    var tags := s.tags + if wakes then multiset{Listen(id)} else multiset{};
    Woke(s, id, values, l, tags);
    Woke(s.(lastResponder := last), id, values, l, tags);
  }

  lemma Woke(s: Snapshot, id: ListenData?, values: seq<SMS>, l: Listener, tags: multiset<QueueTag>)
    requires id in s.listeners
    requires var was := s.listeners[id]; var wakes := was.status == LISTEN_COMMAND && was.result + values != [];
      && l == was.(result := was.result + values, surplus := was.surplus + if wakes && was.result != [] then 1 else 0)
      && tags == s.tags + if wakes then multiset{Listen(id)} else multiset{}
    ensures EnqueueTo(s, id, values) == s.(listeners := s.listeners[id := l], tags := tags)
  {
    var was := s.listeners[id];
    if was.result + values == [] {
      assert s.listeners[id := l] == s.listeners;
    }
  }

  class ListenSMS {
    const policy: NotifyPolicy
    const smsService: SMSServiceImpl
    var listenResponders: seq<ListenData?>
    var lastResponder: ListenData?

    constructor (owner: SMSServiceImpl, policy: NotifyPolicy)
      ensures smsService == owner && this.policy == policy && listenResponders == [] && lastResponder == null
    {
      smsService, this.policy := owner, policy;
      listenResponders, lastResponder := [], null;
    }

    method Put(value: ListenData)
      modifies this`listenResponders
      ensures listenResponders == old(listenResponders) + [value]
    {
      listenResponders := listenResponders + [value];
    }

    method Rm(value: ListenData) returns (found: bool)
      modifies this`listenResponders
      ensures listenResponders == Without(old(listenResponders), value)
      ensures found <==> value in old(listenResponders)
    {
      var it := 0;
      while it < |listenResponders|
        invariant it <= |listenResponders| && listenResponders == old(listenResponders)
        invariant value !in listenResponders[..it]
      {
        if listenResponders[it] == value {
          assert Find(listenResponders, value) == it;
          listenResponders := listenResponders[..it] + listenResponders[it + 1..];
          return true;
        }
        it := it + 1;
      }
      return false;
    }

    /** The NP_ALL branch of `Enqueue`. */
    method EnqueueToEach(values: seq<SMS>) returns (r: nat)
      requires smsService.Valid() && smsService.clientsListenSMS == this
      requires forall id :: id in listenResponders ==> id in smsService.listeners
      modifies smsService`cq, smsService`listeners, listenResponders
      ensures smsService.Valid() && r == |listenResponders|
      ensures smsService.Now() == EnqueueToAll(old(smsService.Now()), listenResponders, values)
    {
      r := 0;
      hide Dispatch, EnqueueTo, EnqueueToAll;
      ghost var was, ids := smsService.Now(), listenResponders;
      assert ids[0..] == ids;
      while r < |listenResponders|
        invariant r <= |ids| && listenResponders == ids
        invariant smsService.Valid() && smsService.listeners.Keys == was.listeners.Keys
        invariant EnqueueToAll(smsService.Now(), ids[r..], values) == EnqueueToAll(was, ids, values)
      {
        assert ids[r] in ids && ids[r..][1..] == ids[r + 1..];
        EnqueuedFirst(smsService.Now(), ids[r..], values);
        listenResponders[r].Enqueue(values);
        r := r + 1;
      }
      assert ids[r..] == [];
      EnqueuedNone(smsService.Now(), values);
    }

    /** The NP_ROUND_ROBIN branch of `Enqueue`. */
    method EnqueueToNext(values: seq<SMS>) returns (r: nat)
      requires smsService.Valid() && smsService.clientsListenSMS == this
      requires forall id :: id in listenResponders ==> id in smsService.listeners
      modifies this`lastResponder, smsService`cq, smsService`listeners, listenResponders
      ensures smsService.Valid()
      ensures r == (if listenResponders == [] then 0 else 1)
      ensures r == 0 ==> smsService.Now() == old(smsService.Now())
      ensures r == 1 ==>
        var id := listenResponders[NextIndex(listenResponders, old(smsService.Now().lastResponder))];
        && lastResponder == id
        && smsService.Now() == EnqueueTo(old(smsService.Now()), id, values).(lastResponder := Some(id))
    {
      r := 0;
      hide Dispatch, EnqueueTo;
      ghost var was := smsService.Now();
      if lastResponder != null {
        var it := Find(listenResponders, lastResponder);
        if it != |listenResponders| {
          it := it + 1;
        }
        if it == |listenResponders| {
          it := 0;
        }
        if it != |listenResponders| {
          assert it == NextIndex(listenResponders, Some(lastResponder));
          lastResponder := listenResponders[it];
          assert lastResponder in listenResponders;
          lastResponder.Enqueue(values);
          EnqueueElsewhere(was, lastResponder, values, Some(lastResponder));
          r := r + 1;
        }
      } else {
        if listenResponders != [] {
          lastResponder := listenResponders[0];
          assert lastResponder in listenResponders;
          lastResponder.Enqueue(values);
          EnqueueElsewhere(was, lastResponder, values, Some(lastResponder));
          r := r + 1;
        }
      }
    }

    /** For the record only. */
    ghost method Record(values: seq<SMS>, dest: Dest<ListenData?>)
      requires smsService.Valid()
      modifies smsService`history
      ensures smsService.Valid() && smsService.history.sent == old(smsService.history.sent)
      ensures smsService.Now() == old(smsService.Now()).(log := old(smsService.Now()).log + LogTo(values, dest))
    {
      smsService.history := smsService.history.(log := smsService.history.log + LogTo(values, dest));
    }

    lemma ListView()
      requires smsService.Valid() && smsService.clientsListenSMS == this
      ensures smsService.queuingMgr != null
      ensures var s := smsService.Now();
        s.policy == policy && s.responders == listenResponders && s.listeners == smsService.listeners
    {
    }

    /** Passes a batch on to one phone or to all; the result is the number of recipients. */
    method Enqueue(values: seq<SMS>) returns (r: nat)
      requires smsService.Valid() && smsService.clientsListenSMS == this
      requires forall id :: id in listenResponders ==> id in smsService.listeners
      modifies this`lastResponder, smsService`cq, smsService`listeners, smsService`history, listenResponders
      ensures smsService.Valid()
      ensures r == if listenResponders == [] then 0 else if policy == NP_ALL then |listenResponders| else 1
      ensures smsService.Now() == if listenResponders == [] then old(smsService.Now())
        else Dispatch(old(smsService.Now()), values)
    {
      hide *;
      ListView();
      DispatchParts(smsService.Now(), values);
      if policy == NP_ALL {
        r := EnqueueToEach(values);
        if r > 0 {
          Record(values, ToAll);
        }
      } else {
        r := EnqueueToNext(values);
        if r > 0 {
          Record(values, ToPhone(lastResponder));
        }
      }
    }
  }

  class QueuingMgr {
    const smsService: SMSServiceImpl
    var result: seq<SMS>

    constructor (smsService: SMSServiceImpl)
      ensures this.smsService == smsService && result == []
    {
      this.smsService, result := smsService, [];
    }

    method WakeUp()
      modifies smsService`cq
      ensures smsService.cq == old(smsService.cq) + multiset{Manager}
    {
      smsService.cq := smsService.cq + multiset{Manager};
    }

    method Enqueue(value: SMS)
      modifies this`result, smsService`cq
      ensures result == old(result) + [value] && smsService.cq == old(smsService.cq) + multiset{Manager}
    {
      result := result + [value];
      WakeUp();
    }

    function SmsCountReady2Send(): nat
      reads this
    {
      |result|
    }

    /** Hands out the first message that is waiting. */
    method FirstSmsCountReady2Send() returns (r: bool, sms: SMS)
      modifies this`result
      ensures r <==> old(result) != []
      ensures if r then old(result) == [sms] + result else result == old(result)
    {
      r, sms := result != [], SMS("", "");
      if r {
        sms, result := result[0], result[1..];
      }
    }

    method Proceed()
      requires smsService.Valid() && smsService.queuingMgr == this
      requires forall id :: id in smsService.clientsListenSMS.listenResponders ==> id in smsService.listeners
      modifies this`result, smsService`cq, smsService`listeners, smsService`history,
        smsService.clientsListenSMS`lastResponder, smsService.clientsListenSMS.listenResponders
      ensures smsService.Valid() && smsService.Now() == ProceedManager(old(smsService.Now()))
      ensures smsService.listeners.Keys == old(smsService.listeners.Keys)
    {
      hide Dispatch;
      if result == [] {
        return;
      }
      DispatchKeeps(smsService.Now(), result);
      var cnt := smsService.clientsListenSMS.Enqueue(result);
      if cnt > 0 {
        result := [];
      }
    }
  }

  class ListenData {
    const smsService: SMSServiceImpl
    var status: Status
    var newResponderCreated: bool
    var result: seq<SMS>
    ghost var surplus: nat

    ghost function View(): Listener
      reads this
    {
      Listener(status, newResponderCreated, result, surplus)
    }

    constructor (service: SMSServiceImpl)
      requires service.Valid()
      modifies service`cq, service`alive, service`listeners, service`history
      ensures service.Valid() && service.Now() == NewListener(old(service.Now()), this)
      ensures smsService == service && service.listeners.Keys == old(service.listeners.Keys) + {this}
    {
      smsService := service;
      status, newResponderCreated, result, surplus := LISTEN_COMMAND, false, [], 0;
      new;
      service.Register(this);
      WakeIfWaiting(service);
    }

    /** Messages may be waiting for somebody to come. */
    static method WakeIfWaiting(service: SMSServiceImpl)
      requires service.Valid()
      modifies service`cq
      ensures service.Valid()
      ensures service.Now() == old(service.Now()).(tags :=
        old(service.Now()).tags + if old(service.Now()).buffer != [] then multiset{Manager} else multiset{})
    {
      if |service.queuingMgr.result| > 0 {
        service.queuingMgr.WakeUp();
      }
    }

    method WakeUp()
      modifies smsService`cq
      ensures smsService.cq == old(smsService.cq) + multiset{Listen(this)}
    {
      smsService.cq := smsService.cq + multiset{Listen(this)};
    }

    method PushAll(values: seq<SMS>)
      modifies this`result
      ensures result == old(result) + values
    {
      var it := 0;
      while it < |values|
        invariant it <= |values| && result == old(result) + values[..it]
      {
        result := result + [values[it]];
        it := it + 1;
      }
      assert values[..|values|] == values;
    }

    /** Queues the messages; on an idle phone that has some already, the alarm to come is one too
        many. */
    method Take(values: seq<SMS>)
      requires smsService.Valid() && this in smsService.listeners
      modifies this`result, this`surplus, smsService`listeners
      ensures smsService.Valid() && result == old(result) + values
      ensures smsService.Now() == old(smsService.Now()).(listeners := old(smsService.listeners)[this :=
        Listener(status, newResponderCreated, result,
                 old(surplus) + if status == LISTEN_COMMAND && old(result) != [] then 1 else 0)])
    {
      surplus := if status == LISTEN_COMMAND && result != [] then surplus + 1 else surplus;
      PushAll(values);
      smsService.listeners := smsService.listeners[this := View()];
    }

    method Enqueue(values: seq<SMS>)
      requires smsService.Valid() && this in smsService.listeners
      modifies this`result, this`surplus, smsService`cq, smsService`listeners
      ensures smsService.Valid() && smsService.Now() == EnqueueTo(old(smsService.Now()), this, values)
    {
      hide EnqueueTo;
      ghost var was := smsService.Now();
      Take(values);
      if result != [] && status == LISTEN_COMMAND {
        WakeUp();
      }
      Woke(was, this, values, smsService.listeners[this], smsService.cq);
    }

    /** Writes the next message that is queued for the phone, if there is one. */
    method WriteNext() returns (r: bool)
      requires smsService.Valid() && this in smsService.listeners && this in smsService.history.sent
      modifies this`result, smsService`cq, smsService`listeners, smsService`history
      ensures smsService.Valid() && (r <==> old(result) != [])
      ensures !r ==> smsService.Now() == old(smsService.Now()) && result == []
      ensures r ==> result == old(result)[1..]
      ensures r ==> smsService.Now() == old(smsService.Now().(
        listeners := smsService.listeners[this := smsService.listeners[this].(result := result[1..])],
        sent := smsService.history.sent[this := smsService.history.sent[this] + [result[0]]],
        tags := smsService.cq + multiset{Listen(this)}))
    {
      if result == [] {
        return false;
      }
      ghost var was := smsService.Now();
      var sms := result[0];
      result := result[1..];
      assert View() == was.listeners[this].(result := result);
      smsService.listeners := smsService.listeners[this := View()];
      var written := smsService.history.sent[this] + [sms];
      smsService.history := smsService.history.(sent := smsService.history.sent[this := written]);
      smsService.cq := smsService.cq + multiset{Listen(this)};
      return true;
    }

    /** A phone has connected: another object waits for the next one. */
    method Connect() returns (ghost acceptor: ListenData?)
      requires smsService.Valid() && this in smsService.listeners && this in smsService.history.sent
      requires status == LISTEN_COMMAND && !newResponderCreated
      modifies this, smsService`cq, smsService`alive, smsService`listeners, smsService`history,
        smsService.clientsListenSMS`listenResponders
      ensures acceptor != this && (acceptor != null ==> fresh(acceptor))
      ensures smsService.Valid() && smsService.Now() == ProceedListener(old(smsService.Now()), this, acceptor)
      ensures forall l :: l in smsService.listeners && l !in old(smsService.listeners) ==> fresh(l)
    {
      ghost var was := smsService.Now();
      assert was.listeners[this].status == LISTEN_COMMAND && !was.listeners[this].newResponderCreated;
      var successor := new ListenData(smsService);
      acceptor := successor;
      hide *;
      ConnectParts(was, this, acceptor);
      Join();
    }

    method Join()
      requires smsService.Valid() && this in smsService.listeners
      modifies this`newResponderCreated, smsService`listeners, smsService`history,
        smsService.clientsListenSMS`listenResponders
      ensures smsService.Valid()
      ensures this in old(smsService.Now()).listeners
      ensures smsService.Now() == JoinedAt(old(smsService.Now()), this)
    {
      newResponderCreated := true;
      smsService.clientsListenSMS.Put(this);
      smsService.history := smsService.history.(joined := smsService.history.joined[this := |smsService.history.log|]);
      smsService.listeners := smsService.listeners[this := View()];
    }

    method SetStatus(status: Status)
      requires smsService.Valid() && this in smsService.listeners
      modifies this`status, smsService`listeners
      ensures smsService.Valid()
      ensures smsService.Now() == old(smsService.Now()).(listeners :=
        old(smsService.listeners)[this := old(smsService.listeners)[this].(status := status)])
    {
      this.status := status;
      smsService.listeners := smsService.listeners[this := View()];
    }

    method Leave()
      requires smsService.Valid()
      modifies smsService`cq, smsService.clientsListenSMS`listenResponders
      ensures smsService.Valid()
      ensures smsService.Now() == old(smsService.Now()).(tags := old(smsService.cq) + multiset{Listen(this)},
        responders := Without(old(smsService.clientsListenSMS.listenResponders), this))
    {
      hide Without, Find;
      var _ := smsService.clientsListenSMS.Rm(this);
      smsService.cq := smsService.cq + multiset{Listen(this)};
    }

    /** There is nothing to write: the phone is taken for gone. */
    method TearDown()
      requires smsService.Valid() && this in smsService.listeners && this in smsService.history.sent
      requires status == LISTEN_COMMAND && newResponderCreated && result == []
      modifies this, smsService`cq, smsService`listeners, smsService.clientsListenSMS`listenResponders
      ensures smsService.Valid() && smsService.Now() == ProceedListener(old(smsService.Now()), this, null)
    {
      hide ProceedListener, Without, Find;
      ListenerParts(smsService.Now(), this);
      SetStatus(FINISH);
      Leave();
    }

    /** Something was written, or is to be written. */
    method WriteOn()
      requires smsService.Valid() && this in smsService.listeners && this in smsService.history.sent
      requires status == LISTEN_COMMAND_SENT || (status == LISTEN_COMMAND && newResponderCreated && result != [])
      modifies this, smsService`cq, smsService`listeners, smsService`history
      ensures smsService.Valid() && smsService.Now() == ProceedListener(old(smsService.Now()), this, null)
    {
      hide ProceedListener;
      ListenerParts(smsService.Now(), this);
      ghost var ls := smsService.listeners;
      var more := WriteNext();
      ghost var written := smsService.listeners[this];
      SetStatus(if more then LISTEN_COMMAND_SENT else LISTEN_COMMAND);
      UpdatedTwice(ls, this, written, smsService.listeners[this]);
    }

    /** `acceptor` is the object that takes this one's place, when a phone connects. */
    method Proceed() returns (ghost acceptor: ListenData?)
      requires smsService.Valid() && this in smsService.listeners && this in smsService.history.sent
      modifies this, smsService`cq, smsService`alive, smsService`listeners, smsService`history,
        smsService.clientsListenSMS`listenResponders
      ensures acceptor != this && (acceptor != null ==> fresh(acceptor))
      ensures smsService.Valid() && smsService.Now() == ProceedListener(old(smsService.Now()), this, acceptor)
      ensures forall l :: l in smsService.listeners && l !in old(smsService.listeners) ==> fresh(l)
    {
      acceptor := null;
      match status {
        case LISTEN_COMMAND =>
          if !newResponderCreated {
            acceptor := Connect();
          } else if result == [] {
            TearDown();
          } else {
            WriteOn();
          }
        case LISTEN_COMMAND_SENT =>
          WriteOn();
        case FINISH =>
          smsService.alive, smsService.listeners := smsService.alive - {this}, smsService.listeners - {this};
          smsService.cq := smsService.cq[Listen(this) := 0];
        case PROCESS =>
      }
    }
  }

  /** An object that serves `requestToSend`, `countSMSToSend` or `lastSMSToSend`. */
  class UnaryData {
    const smsService: SMSServiceImpl
    const rpc: Rpc
    var status: Status
    var newResponderCreated: bool

    ghost function View(): Call
      reads this
    {
      Call(rpc, status, newResponderCreated)
    }

    constructor (service: SMSServiceImpl, rpc: Rpc)
      requires service.Valid()
      modifies service`cq, service`calls
      ensures service.Valid() && service.Now() == NewCall(old(service.Now()), this, rpc)
      ensures smsService == service && this.rpc == rpc && service.calls.Keys == old(service.calls.Keys) + {this}
    {
      smsService, this.rpc := service, rpc;
      status, newResponderCreated := PROCESS, false;
      new;
      service.calls := service.calls[this := View()];
      service.cq := service.cq + multiset{Unary(this)};
    }

    /** Works out the answer to a client. */
    method Answer(login: string, password: string, sms: SMS) returns (reply: Reply)
      requires smsService.Valid()
      modifies smsService`cq, smsService`history, smsService.queuingMgr`result
      ensures smsService.Valid()
      ensures smsService.Now() == Serve(old(smsService.Now()), rpc, Request(smsService.IsAllowed(login, password), sms))
      ensures smsService.history.replies == old(smsService.history.replies) + [reply]
    {
      ghost var was := smsService.Now();
      match rpc {
        case REQUEST_TO_SEND =>
          if smsService.IsAllowed(login, password) {
            smsService.queuingMgr.Enqueue(sms);
            smsService.history := smsService.history.(accepted := smsService.history.accepted + [sms]);
            reply := Count(1);
          } else {
            reply := Count(-1);
          }
        case COUNT_SMS_TO_SEND =>
          reply := Count(if smsService.IsAllowed(login, password) then smsService.queuingMgr.SmsCountReady2Send()
                         else -1);
        case LAST_SMS_TO_SEND =>
          if smsService.IsAllowed(login, password) {
            var r, first := smsService.queuingMgr.FirstSmsCountReady2Send();
            if r {
              smsService.history := smsService.history.(log := smsService.history.log + [Entry(first, ToReader)]);
            }
            reply := Message(if r then first else SMS("", ""));
          } else {
            reply := Message(SMS("", "N/A"));
          }
      }
      smsService.history := smsService.history.(replies := smsService.history.replies + [reply]);
    }

    /** The first `Proceed` after a client has called. */
    method AnswerAndReplace(login: string, password: string, sms: SMS) returns (ghost acceptor: UnaryData?)
      requires smsService.Valid() && this in smsService.calls && status == PROCESS && !newResponderCreated
      modifies this, smsService`cq, smsService`calls, smsService`history, smsService.queuingMgr`result
      ensures acceptor != this && (acceptor != null ==> fresh(acceptor))
      ensures smsService.Valid()
      ensures smsService.Now()
        == ProceedCall(old(smsService.Now()), this, Request(smsService.IsAllowed(login, password), sms), acceptor)
      ensures forall c :: c in smsService.calls && c !in old(smsService.calls) ==> fresh(c)
    {
      hide Serve;
      var reply := Answer(login, password, sms);
      var successor := new UnaryData(smsService, rpc);
      acceptor := successor;
      SendReply();
    }

    method SendReply()
      requires smsService.Valid() && this in smsService.calls
      modifies this, smsService`cq, smsService`calls
      ensures smsService.Valid()
      ensures smsService.Now()
        == old(smsService.Now()).(calls := old(smsService.calls)[this := Call(rpc, FINISH, true)],
                                                         tags := old(smsService.cq) + multiset{Unary(this)})
    {
      newResponderCreated, status := true, FINISH;
      smsService.cq := smsService.cq + multiset{Unary(this)};
      smsService.calls := smsService.calls[this := View()];
    }

    /** What the client sent is a parameter; `acceptor` is the object that takes this one's place. */
    method Proceed(login: string, password: string, sms: SMS) returns (ghost acceptor: UnaryData?)
      requires smsService.Valid() && this in smsService.calls
      modifies this, smsService`cq, smsService`calls, smsService`history, smsService.queuingMgr`result
      ensures acceptor != this && (acceptor != null ==> fresh(acceptor))
      ensures smsService.Valid()
      ensures smsService.Now()
        == ProceedCall(old(smsService.Now()), this, Request(smsService.IsAllowed(login, password), sms), acceptor)
      ensures forall c :: c in smsService.calls && c !in old(smsService.calls) ==> fresh(c)
    {
      ghost var was := smsService.Now();
      acceptor := null;
      match status {
        case PROCESS =>
          if !newResponderCreated {
            acceptor := AnswerAndReplace(login, password, sms);
          } else {
            status := FINISH;
            smsService.calls := smsService.calls[this := View()];
          }
        case FINISH =>
          smsService.calls := smsService.calls - {this};
        case LISTEN_COMMAND =>
        case LISTEN_COMMAND_SENT =>
      }
    }
  }
}
