/** Where the messages go: nothing is lost, duplicated or reordered. */
module ServerOrder {
  import opened Server
  import opened ServerRegistry

  // ----- reading the log -----

  function Messages<L>(log: seq<Entry<L>>): (r: seq<SMS>)
    ensures |r| == |log|
  {
    if log == [] then [] else [log[0].sms] + Messages(log[1..])
  }

  /** The messages with destination `d`, in order. */
  function Sent<L(==)>(log: seq<Entry<L>>, d: Dest<L>): seq<SMS> {
    if log == [] then []
    else (if log[0].dest == d then [log[0].sms] else []) + Sent(log[1..], d)
  }

  lemma {:induction false} SentAppend<L>(a: seq<Entry<L>>, b: seq<Entry<L>>, d: Dest<L>)
    ensures Sent(a + b, d) == Sent(a, d) + Sent(b, d)
  {
    if a == [] {
      assert a + b == b && [] + Sent(b, d) == Sent(b, d);
    } else {
      var first := if a[0].dest == d then [a[0].sms] else [];
      assert (a + b)[0] == a[0] && (a + b)[1..] == a[1..] + b;
      assert Sent(a + b, d) == first + Sent(a[1..] + b, d);
      assert Sent(a, d) == first + Sent(a[1..], d);
      hide Sent;
      SentAppend(a[1..], b, d);
      assert first + (Sent(a[1..], d) + Sent(b, d)) == first + Sent(a[1..], d) + Sent(b, d);
    }
  }

  lemma {:induction false} MessagesAppend<L>(a: seq<Entry<L>>, b: seq<Entry<L>>)
    ensures Messages(a + b) == Messages(a) + Messages(b)
  {
    if a == [] {
      assert a + b == b;
    } else {
      assert (a + b)[1..] == a[1..] + b;
      MessagesAppend(a[1..], b);
    }
  }

  lemma {:induction false} LoggedAs<L>(values: seq<SMS>, dest: Dest<L>, d: Dest<L>)
    ensures Messages(LogTo(values, dest)) == values
    ensures Sent(LogTo(values, dest), d) == if d == dest then values else []
  {
    var r := LogTo(values, dest);
    if values != [] {
      assert r[1..] == LogTo(values[1..], dest);
      LoggedAs(values[1..], dest, d);
    }
  }

  /** What a phone has been given: written to it, or waiting in its queue. */
  ghost function History<L, C>(s: State<L, C>, id: L): seq<SMS>
    requires id in s.sent
  {
    s.sent[id] + if id in s.listeners then s.listeners[id].result else []
  }

  /** What has been accepted is what has been handed on, in that order, and what is waiting. */
  ghost predicate InOrder<L, C>(s: State<L, C>) {
    s.accepted == Messages(s.log) + s.buffer
  }

  /** Round robin: every phone, gone or not, was given exactly the messages dispatched to it. */
  ghost predicate EachItsOwn<L, C>(s: State<L, C>) {
    && (forall i :: 0 <= i < |s.log| ==>
         s.log[i].dest.ToReader? || (s.log[i].dest.ToPhone? && s.log[i].dest.phone in s.sent))
    && (forall id :: id in s.sent ==> History(s, id) == Sent(s.log, ToPhone(id)))
  }

  /** Send to all: every connected phone was given exactly what was dispatched since it joined,
      and phones are listed in the order in which they joined. */
  ghost predicate EachEverything<L, C>(s: State<L, C>) {
    && (forall i :: 0 <= i < |s.log| ==> !s.log[i].dest.ToPhone?)
    && (forall id :: id in s.responders ==> id in s.joined && s.joined[id] <= |s.log|)
    && (forall id :: id in s.responders && id in s.sent ==> History(s, id) == Sent(s.log[s.joined[id]..], ToAll))
    && JoinedInOrder(s.responders, s.joined)
  }

  ghost predicate JoinedInOrder<L>(responders: seq<L>, joined: map<L, nat>) {
    forall i, j :: 0 <= i < j < |responders| ==>
      responders[i] in joined && responders[j] in joined && joined[responders[i]] <= joined[responders[j]]
  }

  /** Nothing is written to an acceptor. */
  ghost predicate AcceptorUnwritten<L, C>(s: State<L, C>) {
    forall id :: id in s.listeners && id in s.sent && !s.listeners[id].newResponderCreated ==> s.sent[id] == []
  }

  ghost predicate OrderInv<L, C>(s: State<L, C>) {
    && InOrder(s) && AcceptorUnwritten(s)
    && if s.policy == NP_ROUND_ROBIN then EachItsOwn(s) else EachEverything(s)
  }

  lemma InitOrder<L, C>(policy: NotifyPolicy, l: L, request: C, count: C, last: C)
    requires request != count && request != last && count != last
    ensures OrderInv(Init<L, C>(policy, l, request, count, last))
  {
    InitParts<L, C>(policy, l, request, count, last);
    var s := Init<L, C>(policy, l, request, count, last);
    assert s.log == [] && s.accepted == [];
  }

  // ----- events that move no message between log and buffer -----

  /** Log and buffer are the same, and so is every history. */
  ghost predicate SameHistories<L, C>(s: State<L, C>, s': State<L, C>) {
    && s'.policy == s.policy && s'.log == s.log && s'.buffer == s.buffer && s'.accepted == s.accepted
    && s'.joined == s.joined
    && s'.sent.Keys == s.sent.Keys && AcceptorUnwritten(s')
    && (forall id :: id in s.sent ==> History(s', id) == History(s, id))
  }

  /** `x` stands before `y` in the list. */
  ghost predicate Before<L>(r: seq<L>, x: L, y: L) {
    exists k, m :: 0 <= k < m < |r| && r[k] == x && r[m] == y
  }

  /** Responders may leave, as long as those who stay keep their order. */
  ghost predicate Thinned<L>(r: seq<L>, r': seq<L>) {
    && (forall id :: id in r' ==> id in r)
    && (forall i, j :: 0 <= i < j < |r'| ==> Before(r, r'[i], r'[j]))
  }

  lemma SameHistoriesKeep<L, C>(s: State<L, C>, s': State<L, C>)
    requires OrderInv(s) && Registered(s) && SameHistories(s, s') && Thinned(s.responders, s'.responders)
    ensures OrderInv(s')
  {
    forall i, j | s.policy == NP_ALL && 0 <= i < j < |s'.responders|
      ensures s'.responders[i] in s'.joined && s'.responders[j] in s'.joined
      ensures s'.joined[s'.responders[i]] <= s'.joined[s'.responders[j]]
    {
      assert Before(s.responders, s'.responders[i], s'.responders[j]);
    }
  }

  lemma PlacedBefore<L>(r: seq<L>, k: int, m: int)
    requires 0 <= k < m < |r|
    ensures Before(r, r[k], r[m])
  {
  }

  lemma ThinnedSame<L>(r: seq<L>)
    ensures Thinned(r, r)
  {
    forall i, j | 0 <= i < j < |r| ensures Before(r, r[i], r[j]) {
      PlacedBefore(r, i, j);
    }
  }

  lemma ThinnedWithout<L>(r: seq<L>, x: L)
    ensures Thinned(r, Without(r, x))
  {
    var f, w := Find(r, x), Without(r, x);
    if f == |r| {
      ThinnedSame(r);
    } else {
      forall i | 0 <= i < |w| ensures w[i] == r[if i < f then i else i + 1] {
      }
      forall i, j | 0 <= i < j < |w| ensures Before(r, w[i], w[j]) {
        PlacedBefore(r, if i < f then i else i + 1, if j < f then j else j + 1);
      }
    }
  }

  lemma HangUpOrder<L, C>(s: State<L, C>, e: Event<L, C>)
    requires Inv(s) && OrderInv(s) && Enabled(s, e) && e.HangUp?
    ensures OrderInv(Step(s, e))
  {
    ThinnedSame(s.responders);
    SameHistoriesKeep(s, Step(s, e));
  }

  /** Writing moves a message from the queue to what has been written. */
  lemma WriteOrder<L, C>(s: State<L, C>, s': State<L, C>, id: L)
    requires Registered(s) && OrderInv(s)
    requires id in s.listeners && s.listeners[id].newResponderCreated && s.listeners[id].result != []
    requires s' == s.(tags := s'.tags, sent := s.sent[id := s.sent[id] + [s.listeners[id].result[0]]],
                      listeners := s.listeners[id := s.listeners[id].(result := s.listeners[id].result[1..],
                                                                      status := LISTEN_COMMAND_SENT)])
    ensures OrderInv(s')
  {
    var l := s.listeners[id];
    assert s.sent[id] + [l.result[0]] + l.result[1..] == s.sent[id] + l.result;
    assert SameHistories(s, s') by {
      forall k | k in s.sent ensures History(s', k) == History(s, k) {
        assert k != id ==> s'.sent[k] == s.sent[k];
      }
    }
    ThinnedSame(s.responders);
    SameHistoriesKeep(s, s');
  }

  /** Going idle, being taken for gone, and being deleted change no history. */
  lemma QuietOrder<L, C>(s: State<L, C>, s': State<L, C>, id: L)
    requires Registered(s) && OrderInv(s) && id in s.listeners && s.listeners[id].newResponderCreated
      && s.listeners[id].result == []
    requires s'.listeners == s.listeners - {id}
      || (exists status :: s'.listeners == s.listeners[id := s.listeners[id].(status := status)])
    requires s' == s.(listeners := s'.listeners, responders := s'.responders, tags := s'.tags)
    requires s'.responders == s.responders || s'.responders == Without(s.responders, id)
    ensures OrderInv(s')
  {
    ThinnedSame(s.responders);
    ThinnedWithout(s.responders, id);
    assert SameHistories(s, s') by {
      forall k | k in s.sent ensures History(s', k) == History(s, k) {
        if k == id {
          assert s.sent[id] + [] == s.sent[id];
        }
      }
    }
    SameHistoriesKeep(s, s');
  }

  // ----- a phone connects -----

  lemma {:induction false} NeverSent<L>(log: seq<Entry<L>>, d: Dest<L>)
    requires forall i :: 0 <= i < |log| ==> log[i].dest != d
    ensures Sent(log, d) == []
  {
    if log != [] {
      assert log[0].dest != d;
      NeverSent(log[1..], d);
    }
  }

  lemma ConnectOrder<L, C>(s: State<L, C>, s': State<L, C>, id: L, acceptor: L)
    requires Registered(s) && OrderInv(s) && id in s.listeners && !s.listeners[id].newResponderCreated
      && acceptor !in s.sent
    requires s' == s.(tags := s'.tags, sent := s.sent[acceptor := []], joined := s.joined[id := |s.log|],
                      responders := s.responders + [id],
                      listeners := s.listeners[acceptor := Listener(LISTEN_COMMAND, false, [], 0)]
                                     [id := s.listeners[id].(newResponderCreated := true)])
    ensures OrderInv(s')
  {
    assert acceptor !in s.listeners && id !in s.responders;
    ConnectHistories(s, s', id, acceptor);
    hide Registered, History, AcceptorUnwritten;
    if s.policy == NP_ROUND_ROBIN {
      ConnectOwn(s, s', acceptor);
    } else {
      ConnectEverything(s, s', id, acceptor);
    }
  }

  lemma ConnectOwn<L, C>(s: State<L, C>, s': State<L, C>, acceptor: L)
    requires EachItsOwn(s) && acceptor !in s.sent && s'.log == s.log && s'.sent.Keys == s.sent.Keys + {acceptor}
    requires History(s', acceptor) == [] && forall k :: k in s.sent ==> History(s', k) == History(s, k)
    ensures EachItsOwn(s')
  {
    hide History, Sent;
    NeverSent(s.log, ToPhone(acceptor));
  }

  lemma ConnectEverything<L, C>(s: State<L, C>, s': State<L, C>, id: L, acceptor: L)
    requires EachEverything(s) && acceptor !in s.sent && s'.log == s.log && s'.sent.Keys == s.sent.Keys + {acceptor}
    requires id in s.sent && id !in s.responders && forall k :: k in s.responders ==> k in s.sent
    requires s'.responders == s.responders + [id] && s'.joined == s.joined[id := |s.log|]
    requires History(s', id) == [] && forall k :: k in s.sent ==> History(s', k) == History(s, k)
    ensures EachEverything(s')
  {
    assert s.log[|s.log|..] == [];
    assert Sent<L>([], ToAll) == [];
    hide History, Sent;
    assert JoinedInOrder(s'.responders, s'.joined) by {
      forall i, j | 0 <= i < j < |s'.responders|
        ensures s'.responders[i] in s'.joined && s'.responders[j] in s'.joined
        ensures s'.joined[s'.responders[i]] <= s'.joined[s'.responders[j]]
      {
        assert s'.responders[i] == s.responders[i];
      }
    }
  }

  lemma ConnectHistories<L, C>(s: State<L, C>, s': State<L, C>, id: L, acceptor: L)
    requires Registered(s) && AcceptorUnwritten(s) && id in s.listeners && !s.listeners[id].newResponderCreated
      && acceptor !in s.sent
    requires s'.sent == s.sent[acceptor := []]
    requires s'.listeners == s.listeners[acceptor := Listener(LISTEN_COMMAND, false, [], 0)]
                               [id := s.listeners[id].(newResponderCreated := true)]
    ensures AcceptorUnwritten(s') && History(s', id) == [] && History(s', acceptor) == []
    ensures forall k :: k in s.sent ==> History(s', k) == History(s, k)
  {
    assert acceptor !in s.listeners;
  }

  // ----- messages come and go -----

  /** The log grows by `more`, which the phones' histories account for: round robin. */
  lemma OwnGrows<L, C>(s: State<L, C>, s': State<L, C>, more: seq<Entry<L>>)
    requires EachItsOwn(s) && s'.sent.Keys == s.sent.Keys && s'.log == s.log + more
    requires forall i :: 0 <= i < |more| ==>
      more[i].dest.ToReader? || (more[i].dest.ToPhone? && more[i].dest.phone in s.sent)
    requires forall id :: id in s.sent ==> History(s', id) == History(s, id) + Sent(more, ToPhone(id))
    ensures EachItsOwn(s')
  {
    hide History, Sent;
    forall id | id in s'.sent ensures History(s', id) == Sent(s'.log, ToPhone(id)) {
      SentAppend(s.log, more, ToPhone(id));
    }
  }

  /** The log grows by `more`, which the phones' histories account for: send to all. */
  lemma EverythingGrows<L, C>(s: State<L, C>, s': State<L, C>, more: seq<Entry<L>>)
    requires EachEverything(s) && s'.sent.Keys == s.sent.Keys && s'.log == s.log + more
    requires s'.responders == s.responders && s'.joined == s.joined
    requires forall i :: 0 <= i < |more| ==> !more[i].dest.ToPhone?
    requires forall id :: id in s.responders && id in s.sent ==> History(s', id) == History(s, id) + Sent(more, ToAll)
    ensures EachEverything(s')
  {
    hide History, Sent, JoinedInOrder;
    forall id | id in s'.responders && id in s'.sent ensures History(s', id) == Sent(s'.log[s'.joined[id]..], ToAll) {
      SuffixGrows(s.log, more, s.joined[id], ToAll);
    }
    LogGrows(s.log, more, s'.log);
  }

  lemma LogGrows<L>(log: seq<Entry<L>>, more: seq<Entry<L>>, all: seq<Entry<L>>)
    requires all == log + more && forall i :: 0 <= i < |log| ==> !log[i].dest.ToPhone?
    requires forall i :: 0 <= i < |more| ==> !more[i].dest.ToPhone?
    ensures forall i :: 0 <= i < |all| ==> !all[i].dest.ToPhone?
  {
  }

  lemma SuffixGrows<L>(log: seq<Entry<L>>, more: seq<Entry<L>>, k: nat, d: Dest<L>)
    requires k <= |log|
    ensures Sent((log + more)[k..], d) == Sent(log[k..], d) + Sent(more, d)
  {
    hide Sent;
    assert (log + more)[k..] == log[k..] + more;
    SentAppend(log[k..], more, d);
  }

  lemma ServeOrder<L, C>(s: State<L, C>, s1: State<L, C>, rpc: Rpc, request: Request)
    requires Registered(s) && OrderInv(s) && s1 == s.(tags := s1.tags)
    ensures OrderInv(Serve(s1, rpc, request))
  {
    hide OrderInv, Registered;
    var s' := Serve(s1, rpc, request);
    if request.allowed && rpc == LAST_SMS_TO_SEND && s.buffer != [] {
      var e := Entry(s.buffer[0], ToReader);
      assert s'.log == s.log + [e];
      Popped(s, s', e);
    } else if request.allowed && rpc == REQUEST_TO_SEND {
      Accepted(s, s', request.sms);
    } else {
      Untouched(s, s');
    }
  }

  lemma ServeRegistered<L, C>(s: State<L, C>, s1: State<L, C>, rpc: Rpc, request: Request)
    requires Registered(s) && s1 == s.(tags := s1.tags)
    ensures Registered(Serve(s1, rpc, request))
  {
    hide Distinct, Connected, Sound;
    var s' := Serve(s1, rpc, request);
    assert s'.listeners == s.listeners && s'.responders == s.responders && s'.sent == s.sent;
  }

  lemma Untouched<L, C>(s: State<L, C>, s': State<L, C>)
    requires Registered(s) && OrderInv(s) && s' == s.(tags := s'.tags, replies := s'.replies)
    ensures OrderInv(s')
  {
    hide Sent, Messages;
    ThinnedSame(s.responders);
    SameHistoriesKeep(s, s');
  }

  lemma Accepted<L, C>(s: State<L, C>, s': State<L, C>, sms: SMS)
    requires Registered(s) && OrderInv(s)
    requires s' == s.(tags := s'.tags, replies := s'.replies, buffer := s.buffer + [sms],
                      accepted := s.accepted + [sms])
    ensures OrderInv(s')
  {
    hide Sent, Messages;
    assert Messages(s.log) + s.buffer + [sms] == Messages(s.log) + (s.buffer + [sms]);
    HistoriesGrow(s, s', []);
  }

  /** Nothing is added to any history. */
  lemma HistoriesGrow<L, C>(s: State<L, C>, s': State<L, C>, more: seq<Entry<L>>)
    requires AcceptorUnwritten(s) && (if s.policy == NP_ROUND_ROBIN then EachItsOwn(s) else EachEverything(s))
    requires s'.policy == s.policy && s'.sent == s.sent && s'.listeners == s.listeners && s'.log == s.log + more
    requires s'.responders == s.responders && s'.joined == s.joined
    requires forall i :: 0 <= i < |more| ==> more[i].dest.ToReader?
    ensures AcceptorUnwritten(s') && (if s.policy == NP_ROUND_ROBIN then EachItsOwn(s') else EachEverything(s'))
  {
    hide Sent;
    forall id | id in s.sent
      ensures History(s', id) == History(s, id) + Sent(more, ToPhone(id)) == History(s, id) + Sent(more, ToAll)
    {
      NeverSent(more, ToPhone(id));
      NeverSent(more, ToAll);
      assert History(s, id) + [] == History(s, id);
    }
    hide EachItsOwn, EachEverything;
    if s.policy == NP_ROUND_ROBIN {
      OwnGrows(s, s', more);
    } else {
      EverythingGrows(s, s', more);
    }
  }

  lemma Popped<L, C>(s: State<L, C>, s': State<L, C>, e: Entry<L>)
    requires Registered(s) && OrderInv(s) && s.buffer != [] && e == Entry(s.buffer[0], ToReader)
    requires s' == s.(tags := s'.tags, replies := s'.replies, buffer := s.buffer[1..], log := s.log + [e])
    ensures OrderInv(s')
  {
    assert [e][1..] == [];
    assert Messages([e]) == [e.sms];
    hide Sent, Messages;
    MessagesAppend(s.log, [e]);
    assert s.buffer == [e.sms] + s.buffer[1..];
    assert Messages(s.log) + [e.sms] + s.buffer[1..] == Messages(s.log) + s.buffer;
    HistoriesGrow(s, s', [e]);
  }

  // ----- dispatch -----

  /** `s'` is `s` after each of `ids` has been given `values`. */
  ghost predicate Given<L, C>(s: State<L, C>, s': State<L, C>, ids: seq<L>, values: seq<SMS>) {
    && s' == s.(listeners := s'.listeners, tags := s'.tags) && s'.listeners.Keys == s.listeners.Keys
    && (forall id :: id in s.listeners ==>
          s'.listeners[id].result == (if id in ids then s.listeners[id].result + values else s.listeners[id].result))
    && (forall id :: id in s.listeners ==> s'.listeners[id].newResponderCreated == s.listeners[id].newResponderCreated)
  }

  lemma EnqueueToReaches<L, C>(s: State<L, C>, id: L, values: seq<SMS>)
    requires id in s.listeners && values != []
    ensures Given(s, EnqueueTo(s, id, values), [id], values)
  {
  }

  lemma GivenTwice<L, C>(s: State<L, C>, s1: State<L, C>, s2: State<L, C>, ids: seq<L>, values: seq<SMS>)
    requires ids != [] && Distinct(ids) && Given(s, s1, [ids[0]], values) && Given(s1, s2, ids[1..], values)
    ensures Given(s, s2, ids, values)
  {
    assert ids == [ids[0]] + ids[1..];
    assert ids[0] !in ids[1..];
  }

  /** A batch reaches every one of `ids` once, and nobody else. */
  lemma {:induction false} EnqueueToAllReaches<L, C>(s: State<L, C>, ids: seq<L>, values: seq<SMS>)
    requires (forall id :: id in ids ==> id in s.listeners) && Distinct(ids) && values != []
    ensures Given(s, EnqueueToAll(s, ids, values), ids, values)
    decreases |ids|
  {
    if ids != [] {
      var s1 := EnqueueTo(s, ids[0], values);
      EnqueueToReaches(s, ids[0], values);
      EnqueueToAllReaches(s1, ids[1..], values);
      hide EnqueueTo, Given;
      GivenTwice(s, s1, EnqueueToAll(s1, ids[1..], values), ids, values);
    }
  }

  /** Round robin: the batch goes to one phone, and is logged for it. */
  lemma DispatchOneOrder<L, C>(s: State<L, C>, s': State<L, C>, id: L)
    requires Registered(s) && OrderInv(s) && s.policy == NP_ROUND_ROBIN && id in s.responders
    requires s'.listeners.Keys == s.listeners.Keys
    requires forall k :: k in s.listeners ==>
      && s'.listeners[k].result == (if k == id then s.listeners[k].result + s.buffer else s.listeners[k].result)
      && s'.listeners[k].newResponderCreated == s.listeners[k].newResponderCreated
    requires s' == s.(listeners := s'.listeners, tags := s'.tags, lastResponder := s'.lastResponder, buffer := [],
                      log := s.log + LogTo(s.buffer, ToPhone(id)))
    ensures OrderInv(s')
  {
    hide Sent, Messages;
    var batch := LogTo(s.buffer, ToPhone(id));
    LoggedAs(s.buffer, ToPhone(id), ToPhone(id));
    MessagesAppend(s.log, batch);
    assert Messages(s.log) + s.buffer + [] == Messages(s.log) + s.buffer;
    forall k | k in s.sent ensures History(s', k) == History(s, k) + Sent(batch, ToPhone(k)) {
      LoggedAs(s.buffer, ToPhone(id), ToPhone(k));
      hide Connected, Sound, Distinct, EachItsOwn, InOrder;
      GivenHistory(s, s', k, if k == id then s.buffer else []);
    }
    hide EachItsOwn, History;
    OwnGrows(s, s', batch);
  }

  lemma GivenHistory<L, C>(s: State<L, C>, s': State<L, C>, k: L, values: seq<SMS>)
    requires s'.sent == s.sent && s'.listeners.Keys == s.listeners.Keys && k in s.sent
    requires if k in s.listeners then s'.listeners[k].result == s.listeners[k].result + values else values == []
    ensures History(s', k) == History(s, k) + values
  {
  }

  /** Send to all: the batch goes to every connected phone, and is logged once. */
  lemma DispatchAllOrder<L, C>(s: State<L, C>, s': State<L, C>)
    requires Registered(s) && OrderInv(s) && s.policy == NP_ALL
    requires s'.listeners.Keys == s.listeners.Keys
    requires forall k :: k in s.listeners ==>
      && s'.listeners[k].result
           == (if k in s.responders then s.listeners[k].result + s.buffer else s.listeners[k].result)
      && s'.listeners[k].newResponderCreated == s.listeners[k].newResponderCreated
    requires s' == s.(listeners := s'.listeners, tags := s'.tags, buffer := [], log := s.log + LogTo(s.buffer, ToAll))
    ensures OrderInv(s')
  {
    hide Sent, Messages, EachEverything;
    var batch := LogTo<L>(s.buffer, ToAll);
    LoggedAs<L>(s.buffer, ToAll, ToAll);
    MessagesAppend(s.log, batch);
    assert Messages(s.log) + s.buffer + [] == Messages(s.log) + s.buffer;
    forall k | k in s.responders && k in s.sent ensures History(s', k) == History(s, k) + Sent(batch, ToAll) {
      GivenHistory(s, s', k, s.buffer);
    }
    EverythingGrows(s, s', batch);
  }

  lemma ManagerOrder<L, C>(s: State<L, C>, e: Event<L, C>)
    requires Inv(s) && OrderInv(s) && Enabled(s, e) && e.Deliver? && e.tag.Manager?
    ensures OrderInv(Step(s, e))
  {
    hide OrderInv, OneAcceptor, CallsSound, TagsAccounted, NextIndex, ProceedListener, ProceedCall;
    var s1 := s.(tags := s.tags - multiset{Manager});
    assert Step(s, e) == ProceedManager(s1);
    hide Step;
    if s.buffer == [] || s.responders == [] {
      ThinnedSame(s.responders);
      TagsOnly(s, s1);
    } else if s.policy == NP_ALL {
      EnqueueToAllReaches(s1, s.responders, s.buffer);
      DispatchAllOrder(s, ProceedManager(s1));
    } else {
      var id := s.responders[NextIndex(s.responders, s.lastResponder)];
      EnqueueToReaches(s1, id, s.buffer);
      hide EnqueueTo, EnqueueToAll, LogTo, Connected, Sound, Distinct;
      DispatchOneOrder(s, ProceedManager(s1), id);
    }
  }

  lemma TagsOnly<L, C>(s: State<L, C>, s': State<L, C>)
    requires OrderInv(s) && Registered(s) && s' == s.(tags := s'.tags, calls := s'.calls)
    ensures OrderInv(s')
  {
    ThinnedSame(s.responders);
    SameHistoriesKeep(s, s');
  }

  lemma ListenOrder<L, C>(s: State<L, C>, e: Event<L, C>)
    requires Inv(s) && OrderInv(s) && Enabled(s, e) && e.Deliver? && e.tag.Listen?
    ensures OrderInv(Step(s, e))
  {
    hide OrderInv, TagsAccounted, CallsSound, OneAcceptor, Distinct, ProceedManager, ProceedCall, Without;
    var s', id := Step(s, e), e.tag.listener;
    var l := s.listeners[id];
    if !l.newResponderCreated {
      ConnectOrder(s, s', id, e.freshL);
    } else if l.result != [] {
      WriteOrder(s, s', id);
    } else {
      assert l.status == FINISH || l.status == LISTEN_COMMAND || l.status == LISTEN_COMMAND_SENT;
      if l.status == LISTEN_COMMAND {
        assert s'.listeners == s.listeners[id := l.(status := FINISH)];
      } else if l.status == LISTEN_COMMAND_SENT {
        assert s'.listeners == s.listeners[id := l.(status := LISTEN_COMMAND)];
      }
      QuietOrder(s, s', id);
    }
  }

  lemma UnaryOrder<L, C>(s: State<L, C>, e: Event<L, C>)
    requires Inv(s) && OrderInv(s) && Enabled(s, e) && e.Deliver? && e.tag.Unary?
    ensures OrderInv(Step(s, e))
  {
    hide OrderInv, Serve, ProceedManager, ProceedListener, TagsAccounted, OneAcceptor;
    var s', id := Step(s, e), e.tag.call;
    var s1 := s.(tags := s.tags - multiset{Unary(id)});
    assert s' == ProceedCall(s1, id, e.request, e.freshC);
    if s.calls[id].status == PROCESS {
      ServeOrder(s, s1, s.calls[id].rpc, e.request);
      ServeRegistered(s, s1, s.calls[id].rpc, e.request);
      TagsOnly(Serve(s1, s.calls[id].rpc, e.request), s');
    } else {
      TagsOnly(s, s');
    }
  }

  lemma StepOrder<L, C>(s: State<L, C>, e: Event<L, C>)
    requires Inv(s) && OrderInv(s) && Enabled(s, e)
    ensures OrderInv(Step(s, e))
  {
    hide *;
    match e
    case HangUp(_) => HangUpOrder(s, e);
    case Deliver(tag, _, _, _) =>
      match tag
      case Manager => ManagerOrder(s, e);
      case Listen(_) => ListenOrder(s, e);
      case Unary(_) => UnaryOrder(s, e);
  }
}