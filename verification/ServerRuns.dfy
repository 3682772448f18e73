/** What holds after any run of the server. */
module ServerRuns {
  import opened Server
  import opened ServerRegistry
  import opened ServerOrder

  // ----- runs -----

  /** The events can happen one after another. */
  ghost predicate Possible<L, C>(s: State<L, C>, events: seq<Event<L, C>>)
    decreases |events|
  {
    events == [] || (WellFormed(s) && Enabled(s, events[0]) && Possible(Step(s, events[0]), events[1..]))
  }

  ghost function After<L, C>(s: State<L, C>, events: seq<Event<L, C>>): State<L, C>
    requires Possible(s, events)
    decreases |events|
  {
    if events == [] then s else After(Step(s, events[0]), events[1..])
  }

  lemma EmptyRun<L, C>(s: State<L, C>)
    ensures Possible(s, []) && After(s, []) == s
  {
  }

  lemma {:induction false} RunExtended<L, C>(s: State<L, C>, events: seq<Event<L, C>>, e: Event<L, C>)
    requires Possible(s, events) && WellFormed(After(s, events)) && Enabled(After(s, events), e)
    ensures Possible(s, events + [e]) && After(s, events + [e]) == Step(After(s, events), e)
    decreases |events|
  {
    hide Step, Enabled, WellFormed;
    if events == [] {
      assert [e][1..] == [];
    } else {
      assert (events + [e])[1..] == events[1..] + [e];
      RunExtended(Step(s, events[0]), events[1..], e);
    }
  }

  lemma {:induction false} RunKeeps<L, C>(s: State<L, C>, events: seq<Event<L, C>>)
    requires Inv(s) && OrderInv(s) && Possible(s, events)
    ensures Inv(After(s, events)) && OrderInv(After(s, events))
    decreases |events|
  {
    hide Step, Inv, OrderInv;
    if events != [] {
      StepInv(s, events[0]);
      StepOrder(s, events[0]);
      RunKeeps(Step(s, events[0]), events[1..]);
    }
  }

  /** Every state the server can reach satisfies both invariants. */
  lemma Reachable<L, C>(policy: NotifyPolicy, l: L, request: C, count: C, last: C, events: seq<Event<L, C>>)
    requires request != count && request != last && count != last
    requires Possible(Init(policy, l, request, count, last), events)
    ensures Inv(After(Init(policy, l, request, count, last), events))
    ensures OrderInv(After(Init(policy, l, request, count, last), events))
  {
    hide *;
    InitInv<L, C>(policy, l, request, count, last);
    InitOrder<L, C>(policy, l, request, count, last);
    RunKeeps(Init(policy, l, request, count, last), events);
  }

  // ----- no lost wake-up -----

  /** Whoever has something to do has a tag on the completion queue. */
  ghost predicate Awake<L, C>(s: State<L, C>) {
    && (s.buffer != [] && s.responders != [] ==> Manager in s.tags)
    && forall id :: id in s.listeners && s.listeners[id].result != [] ==>
         && (s.listeners[id].status == LISTEN_COMMAND || s.listeners[id].status == LISTEN_COMMAND_SENT)
         && Listen(id) in s.tags
  }

  lemma NoLostWakeUp<L, C>(s: State<L, C>)
    requires Inv(s)
    ensures Awake(s)
  {
    forall id | id in s.listeners && s.listeners[id].result != []
      ensures s.listeners[id].status == LISTEN_COMMAND || s.listeners[id].status == LISTEN_COMMAND_SENT
      ensures Listen(id) in s.tags
    {
      assert Sound(s.listeners[id]);
      assert s.tags[Listen(id)] >= 1;
    }
  }

  // ----- conservation -----

  /** All messages of a family of queues. */
  ghost function SumOf<L>(m: map<L, seq<SMS>>): multiset<SMS>
    decreases |m|
  {
    if m == map[] then multiset{}
    else
      var id :| id in m;
      multiset(m[id]) + SumOf(m - {id})
  }

  /** The sum does not depend on the order in which it is taken. */
  lemma {:induction false} SumSplit<L>(m: map<L, seq<SMS>>, id: L)
    requires id in m
    ensures SumOf(m) == multiset(m[id]) + SumOf(m - {id})
    decreases |m|
  {
    var k :| k in m && SumOf(m) == multiset(m[k]) + SumOf(m - {k});
    if k != id {
      SumSplit(m - {k}, id);
      SumSplit(m - {id}, k);
      assert m - {k} - {id} == m - {id} - {k};
    }
  }

  lemma SumUpdate<L>(m: map<L, seq<SMS>>, m': map<L, seq<SMS>>, id: L, x: SMS)
    requires id in m && m' == m[id := [x] + m[id]]
    ensures SumOf(m') == SumOf(m) + multiset{x}
  {
    hide SumOf;
    SumSplit(m, id);
    SumSplit(m', id);
    assert m' - {id} == m - {id};
    assert multiset([x] + m[id]) == multiset{x} + multiset(m[id]);
  }

  lemma {:induction false} SumEmpty<L>(m: map<L, seq<SMS>>)
    requires forall id :: id in m ==> m[id] == []
    ensures SumOf(m) == multiset{}
    decreases |m|
  {
    if m != map[] {
      var id :| id in m && SumOf(m) == multiset(m[id]) + SumOf(m - {id});
      SumEmpty(m - {id});
    }
  }

  /** What the log says each phone was sent. */
  ghost function Shares<L>(log: seq<Entry<L>>, ids: set<L>): map<L, seq<SMS>> {
    map id | id in ids :: Sent(log, ToPhone(id))
  }

  lemma SharesStep<L>(log: seq<Entry<L>>, ids: set<L>)
    requires log != []
    ensures var e, m := log[0], Shares(log[1..], ids);
      Shares(log, ids)
        == if e.dest.ToPhone? && e.dest.phone in ids then m[e.dest.phone := [e.sms] + m[e.dest.phone]] else m
  {
    var e, m, m' := log[0], Shares(log[1..], ids), Shares(log, ids);
    hide Sent;
    forall id | id in ids
      ensures m'[id] == if e.dest == ToPhone(id) then [e.sms] + m[id] else m[id]
    {
      SentStep(log, ToPhone(id));
    }
  }

  lemma SentStep<L>(log: seq<Entry<L>>, d: Dest<L>)
    requires log != []
    ensures Sent(log, d) == if log[0].dest == d then [log[0].sms] + Sent(log[1..], d) else Sent(log[1..], d)
  {
    assert [] + Sent(log[1..], d) == Sent(log[1..], d);
  }

  lemma {:induction false} SharesCover<L>(log: seq<Entry<L>>, ids: set<L>)
    requires forall i :: 0 <= i < |log| ==> log[i].dest.ToReader? || (log[i].dest.ToPhone? && log[i].dest.phone in ids)
    ensures multiset(Messages(log)) == SumOf(Shares(log, ids)) + multiset(Sent(log, ToReader))
  {
    if log == [] {
      SumEmpty(Shares(log, ids));
    } else {
      hide Shares, SumOf;
      var e, m := log[0], Shares(log[1..], ids);
      SharesCover(log[1..], ids);
      SharesStep(log, ids);
      assert multiset([e.sms] + Messages(log[1..])) == multiset{e.sms} + multiset(Messages(log[1..]));
      if e.dest.ToPhone? {
        assert e.dest.phone in m by { SharesKeys(log[1..], ids); }
        SumUpdate(m, Shares(log, ids), e.dest.phone, e.sms);
      } else {
        assert multiset([e.sms] + Sent(log[1..], ToReader)) == multiset{e.sms} + multiset(Sent(log[1..], ToReader));
      }
    }
  }

  lemma SharesKeys<L>(log: seq<Entry<L>>, ids: set<L>)
    ensures Shares(log, ids).Keys == ids
  {
  }

  ghost function Histories<L, C>(s: State<L, C>): map<L, seq<SMS>> {
    map id | id in s.sent :: History(s, id)
  }

  /** Every accepted message is in exactly one place -- the manager's buffer, one phone's queue or
      writes, or the hands of a `lastSMSToSend` caller. */
  ghost predicate Conserved<L, C>(s: State<L, C>) {
    multiset(s.accepted) == multiset(s.buffer) + SumOf(Histories(s)) + multiset(Sent(s.log, ToReader))
  }

  lemma Conservation<L, C>(s: State<L, C>)
    requires OrderInv(s) && s.policy == NP_ROUND_ROBIN
    ensures Conserved(s)
  {
    hide SumOf, Messages, AcceptorUnwritten;
    SharesCover(s.log, s.sent.Keys);
    HistoriesShare(s);
  }

  lemma HistoriesShare<L, C>(s: State<L, C>)
    requires EachItsOwn(s)
    ensures Histories(s) == Shares(s.log, s.sent.Keys)
  {
    hide Sent, History;
  }

  /** An object that is about to be deleted has nothing left to write, and nobody to give it more. */
  lemma FinishedIsEmpty<L, C>(s: State<L, C>, id: L)
    requires Inv(s) && id in s.listeners && s.listeners[id].status == FINISH
    ensures s.listeners[id].result == [] && id !in s.responders
  {
    assert Sound(s.listeners[id]);
  }

  // ----- send to all -----

  ghost predicate IsSuffix(a: seq<SMS>, b: seq<SMS>) {
    |a| <= |b| && a == b[|b| - |a|..]
  }

  /** Send to all: a phone further down the list was given a suffix of what one before it was. */
  lemma SendToAllSuffix<L, C>(s: State<L, C>, i: int, j: int)
    requires Inv(s) && OrderInv(s) && s.policy == NP_ALL && 0 <= i < j < |s.responders|
    ensures s.responders[i] in s.sent && s.responders[j] in s.sent
    ensures IsSuffix(History(s, s.responders[j]), History(s, s.responders[i]))
  {
    var k, m := JoinedBefore(s, i, j);
    hide *;
    LaterSuffix(s.log, k, m, ToAll);
  }

  lemma LaterSuffix<L>(log: seq<Entry<L>>, k: nat, m: nat, d: Dest<L>)
    requires k <= m <= |log|
    ensures IsSuffix(Sent(log[m..], d), Sent(log[k..], d))
  {
    hide Sent;
    assert log[k..] == log[k..m] + log[m..];
    SentAppend(log[k..m], log[m..], d);
    AppendedSuffix(Sent(log[k..m], d), Sent(log[m..], d));
  }

  lemma AppendedSuffix(a: seq<SMS>, b: seq<SMS>)
    ensures IsSuffix(b, a + b)
  {
  }

  /** A phone further down the list has joined later. */
  lemma JoinedBefore<L, C>(s: State<L, C>, i: int, j: int) returns (k: nat, m: nat)
    requires Inv(s) && OrderInv(s) && s.policy == NP_ALL && 0 <= i < j < |s.responders|
    ensures k <= m <= |s.log| && s.responders[i] in s.sent && s.responders[j] in s.sent
    ensures History(s, s.responders[i]) == Sent(s.log[k..], ToAll)
    ensures History(s, s.responders[j]) == Sent(s.log[m..], ToAll)
  {
    hide History, Sent, Messages, TagsAccounted, CallsSound, OneAcceptor, Sound, Connected;
    var a, b := s.responders[i], s.responders[j];
    assert a in s.responders && b in s.responders;
    k, m := s.joined[a], s.joined[b];
  }

  // ----- the registry, as its callers see it -----

  /** A phone is in the list exactly while it is connected; and for every RPC exactly one object
      is waiting for the next client, with one registration outstanding. */
  ghost predicate InRegister<L, C>(s: State<L, C>) {
    && Distinct(s.responders)
    && (forall id :: id in s.responders ==> id in s.listeners && Connected(s.listeners[id]))
    && (forall id :: id in s.listeners && Connected(s.listeners[id]) ==> id in s.responders)
    && OneAcceptor(s.listeners)
    && (forall id :: id in s.listeners && !s.listeners[id].newResponderCreated ==> s.tags[Listen(id)] == 1)
    && (forall rpc :: OneCallAcceptor(s.calls, rpc))
    && (forall id :: id in s.calls ==> s.tags[Unary(id)] == 1)
  }

  lemma RegistryExact<L, C>(s: State<L, C>)
    requires Inv(s)
    ensures InRegister(s)
  {
    forall rpc ensures OneCallAcceptor(s.calls, rpc) {
      match rpc
      case REQUEST_TO_SEND =>
      case COUNT_SMS_TO_SEND =>
      case LAST_SMS_TO_SEND =>
    }
    forall id | id in s.listeners && !s.listeners[id].newResponderCreated ensures s.tags[Listen(id)] == 1 {
      assert Sound(s.listeners[id]);
    }
  }

  // ----- the order in which a phone gets its messages -----

  ghost predicate Subsequence(a: seq<SMS>, b: seq<SMS>)
    decreases |b|
  {
    a == [] || (b != [] && ((a[0] == b[0] && Subsequence(a[1..], b[1..])) || Subsequence(a, b[1..])))
  }

  lemma {:induction false} SubsequenceWithin(a: seq<SMS>, front: seq<SMS>, b: seq<SMS>, back: seq<SMS>)
    requires Subsequence(a, b)
    ensures Subsequence(a, front + b + back)
    decreases |front|, |b|
  {
    var all := front + b + back;
    if front != [] {
      assert all[1..] == front[1..] + b + back;
      SubsequenceWithin(a, front[1..], b, back);
    } else if a != [] {
      assert all == b + back && all[1..] == [] + b[1..] + back;
      if a[0] == b[0] && Subsequence(a[1..], b[1..]) {
        SubsequenceWithin(a[1..], [], b[1..], back);
      } else {
        SubsequenceWithin(a, [], b[1..], back);
      }
    }
  }

  lemma {:induction false} SentSubsequence<L>(log: seq<Entry<L>>, d: Dest<L>)
    ensures Subsequence(Sent(log, d), Messages(log))
  {
    if log != [] {
      SentSubsequence(log[1..], d);
      var rest := Sent(log[1..], d);
      if log[0].dest == d {
        assert ([log[0].sms] + rest)[1..] == rest;
      } else {
        assert [] + rest == rest;
      }
      assert Messages(log)[1..] == Messages(log[1..]);
    }
  }

  /** What a phone was given, it was given in the order of acceptance: any phone under round robin,
      and any connected one when everything goes to all. */
  ghost predicate GivenInOrder<L, C>(s: State<L, C>) {
    forall id :: id in s.sent && (s.policy == NP_ROUND_ROBIN || id in s.responders) ==>
      Subsequence(History(s, id), s.accepted)
  }

  lemma HistoriesInOrder<L, C>(s: State<L, C>)
    requires OrderInv(s)
    ensures GivenInOrder(s)
  {
    forall id | id in s.sent && (s.policy == NP_ROUND_ROBIN || id in s.responders)
      ensures Subsequence(History(s, id), s.accepted)
    {
      if s.policy == NP_ROUND_ROBIN {
        LogInOrder(s, 0, ToPhone(id));
        assert s.log[0..] == s.log;
      } else {
        LogInOrder(s, s.joined[id], ToAll);
      }
    }
  }

  lemma LogInOrder<L, C>(s: State<L, C>, k: nat, d: Dest<L>)
    requires InOrder(s) && k <= |s.log|
    ensures Subsequence(Sent(s.log[k..], d), s.accepted)
  {
    hide Sent, Subsequence, Messages;
    SentSubsequence(s.log[k..], d);
    MessagesAppend(s.log[..k], s.log[k..]);
    assert s.log == s.log[..k] + s.log[k..];
    SubsequenceWithin(Sent(s.log[k..], d), Messages(s.log[..k]), Messages(s.log[k..]), s.buffer);
  }

  /** Everything dispatched since it joined: what each connected phone was given, when everything
      goes to all. */
  ghost predicate GivenEverything<L, C>(s: State<L, C>) {
    && (forall id :: id in s.responders ==> id in s.joined && s.joined[id] <= |s.log| && id in s.sent)
    && (forall id :: id in s.responders && id in s.sent && id in s.joined && s.joined[id] <= |s.log| ==>
          History(s, id) == Sent(s.log[s.joined[id]..], ToAll))
  }

  /** And when it goes round: what each phone was given is what was dispatched to it. */
  ghost predicate GivenItsOwn<L, C>(s: State<L, C>) {
    forall id :: id in s.sent ==> History(s, id) == Sent(s.log, ToPhone(id))
  }

  // ----- all of it, for every run -----

  ghost predicate SuffixHistories<L, C>(s: State<L, C>) {
    forall i, j :: 0 <= i < j < |s.responders| ==>
      && s.responders[i] in s.sent && s.responders[j] in s.sent
      && IsSuffix(History(s, s.responders[j]), History(s, s.responders[i]))
  }

  /** Whatever clients send, whenever phones come and go, and in whatever order the completion queue
      delivers its tags: no wake-up is lost, the registry is exact, messages are handed on in the
      order of acceptance and none is lost or duplicated, each phone gets exactly what is dispatched
      to it, in that order, and a finished object holds none. */
  lemma EveryReachableState<L, C>(policy: NotifyPolicy, l: L, request: C, count: C, last: C, events: seq<Event<L, C>>)
    requires request != count && request != last && count != last
    requires Possible(Init(policy, l, request, count, last), events)
    ensures var s := After(Init(policy, l, request, count, last), events);
      && Awake(s) && InRegister(s) && InOrder(s) && GivenInOrder(s)
      && (s.policy == NP_ROUND_ROBIN ==> Conserved(s) && GivenItsOwn(s))
      && (s.policy == NP_ALL ==> SuffixHistories(s) && GivenEverything(s))
      && (forall id :: id in s.listeners && s.listeners[id].status == FINISH ==>
           s.listeners[id].result == [] && id !in s.responders)
  {
    Reachable(policy, l, request, count, last, events);
    var s := After(Init(policy, l, request, count, last), events);
    InvariantSays(s);
  }

  lemma PhonesGiven<L, C>(s: State<L, C>)
    requires Inv(s) && OrderInv(s)
    ensures s.policy == NP_ROUND_ROBIN ==> GivenItsOwn(s)
    ensures s.policy == NP_ALL ==> GivenEverything(s)
  {
    hide History, Sent, TagsAccounted, CallsSound, OneAcceptor, Sound;
    assert forall id :: id in s.responders ==> id in s.listeners;
  }

  lemma AllSuffixes<L, C>(s: State<L, C>)
    requires Inv(s) && OrderInv(s) && s.policy == NP_ALL
    ensures SuffixHistories(s)
  {
    RegistryExact(s);
    forall i, j | 0 <= i < j < |s.responders|
      ensures s.responders[i] in s.sent && s.responders[j] in s.sent
      ensures IsSuffix(History(s, s.responders[j]), History(s, s.responders[i]))
    {
      SendToAllSuffix(s, i, j);
    }
  }

  lemma InvariantSays<L, C>(s: State<L, C>)
    requires Inv(s) && OrderInv(s)
    ensures Awake(s) && InRegister(s) && InOrder(s) && GivenInOrder(s)
    ensures s.policy == NP_ROUND_ROBIN ==> Conserved(s) && GivenItsOwn(s)
    ensures s.policy == NP_ALL ==> SuffixHistories(s) && GivenEverything(s)
    ensures forall id :: id in s.listeners && s.listeners[id].status == FINISH ==>
      s.listeners[id].result == [] && id !in s.responders
  {
    HistoriesInOrder(s);
    PhonesGiven(s);
    assert InOrder(s);
    hide Inv, OrderInv, SumOf, Histories, History, Sent, GivenInOrder, GivenItsOwn, GivenEverything, SuffixHistories;
    NoLostWakeUp(s);
    RegistryExact(s);
    if s.policy == NP_ROUND_ROBIN {
      Conservation(s);
    } else {
      AllSuffixes(s);
    }
    forall id | id in s.listeners && s.listeners[id].status == FINISH
      ensures s.listeners[id].result == [] && id !in s.responders
    {
      FinishedIsEmpty(s, id);
    }
  }
}
