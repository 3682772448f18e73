/** A phone that never hung up is dropped: the concrete run behind the condition of
    `ServerFates.StillConnectedIff`. */
module ServerOverlap {
  import opened Server
  import opened ServerRegistry
  import opened ServerRuns
  import opened ServerPhones

  /** A state in which phone 0 is connected, with `result` queued and `tags` tags of its own, and
      call object `call` waits for a client of `requestToSend`. */
  ghost predicate Scene(s: State<nat, nat>, phone: Listener, tags: nat, buffer: seq<SMS>, call: nat) {
    && WellFormed(s) && s.policy == NP_ROUND_ROBIN && s.responders == [0]
    && 0 in s.listeners && s.listeners[0] == phone && s.tags[Listen(0)] == tags
    && s.buffer == buffer && (buffer != [] ==> Manager in s.tags)
    && call in s.calls && s.calls[call] == Call(REQUEST_TO_SEND, PROCESS, false) && Unary(call) in s.tags
    && (forall id :: id in s.calls ==> id <= call)
    && (forall id :: id in s.sent ==> id <= 1)
  }

  function Turned(tag: Tag<nat, nat>, sms: SMS, freshC: nat): Event<nat, nat> {
    Deliver(tag, Request(true, sms), 2, freshC)
  }

  /** A client hands in a message. */
  lemma HandIn(s: State<nat, nat>, phone: Listener, tags: nat, call: nat, sms: SMS)
    requires Scene(s, phone, tags, [], call)
    ensures var e := Turned(Unary(call), sms, call + 1);
      Enabled(s, e) && WellFormed(s) && Scene(Step(s, e), phone, tags, [sms], call + 1)
  {
  }

  /** The manager passes it on. */
  lemma PassOn(s: State<nat, nat>, phone: Listener, tags: nat, call: nat, sms: SMS)
    requires Scene(s, phone, tags, [sms], call) && phone.status == LISTEN_COMMAND
    ensures var e := Turned(Manager, sms, call + 1);
      Enabled(s, e) && WellFormed(s) && Scene(Step(s, e), Woken(phone, [sms]), tags + 1, [], call)
  {
  }

  /** An alarm or a finished write is delivered. */
  lemma PhoneProceeds(s: State<nat, nat>, phone: Listener, tags: nat, call: nat, sms: SMS)
    requires Scene(s, phone, tags, [], call) && tags > 0 && phone.newResponderCreated
    requires phone.status == LISTEN_COMMAND_SENT || (phone.status == LISTEN_COMMAND && phone.result != [])
    ensures var e := Turned(Listen(0), sms, call + 1);
      && Enabled(s, e) && WellFormed(s)
      && Scene(Step(s, e),
               if phone.result == [] then phone.(status := LISTEN_COMMAND)
               else phone.(result := phone.result[1..], status := LISTEN_COMMAND_SENT),
               if phone.result == [] then tags - 1 else tags, [], call)
  {
  }

  /** An idle phone with a tag left over. */
  lemma TakenForGone(s: State<nat, nat>, phone: Listener, tags: nat, call: nat, sms: SMS)
    requires Scene(s, phone, tags, [], call) && tags > 0 && phone.newResponderCreated
    requires phone.status == LISTEN_COMMAND && phone.result == []
    ensures var e := Turned(Listen(0), sms, call + 1);
      && Enabled(s, e) && WellFormed(s)
      && 0 in Step(s, e).listeners && Step(s, e).listeners[0].status == FINISH && Step(s, e).responders == []
  {
    assert Without([0], 0) == [];
  }

  lemma FirstPhone(sms: SMS)
    ensures var s: State<nat, nat>, e := Init(NP_ROUND_ROBIN, 0, 0, 1, 2), Deliver(Listen(0), Request(true, sms), 1, 3);
      && WellFormed(s) && Enabled(s, e)
      && FirstScene(Step(s, e))
  {
    InitParts<nat, nat>(NP_ROUND_ROBIN, 0, 0, 1, 2);
    hide Init;
    FirstConnected(Init<nat, nat>(NP_ROUND_ROBIN, 0, 0, 1, 2), sms);
  }

  /** The first phone connects. */
  lemma FirstConnected(s: State<nat, nat>, sms: SMS)
    requires s.policy == NP_ROUND_ROBIN && s.responders == [] && s.buffer == [] && s.sent == map[0 := []]
    requires s.listeners == map[0 := Listener(LISTEN_COMMAND, false, [], 0)]
    requires s.calls == map[0 := Call(REQUEST_TO_SEND, PROCESS, false), 1 := Call(COUNT_SMS_TO_SEND, PROCESS, false),
                            2 := Call(LAST_SMS_TO_SEND, PROCESS, false)]
    requires s.tags == multiset{Unary(0), Listen(0), Unary(1), Unary(2)}
    ensures var e := Deliver(Listen(0), Request(true, sms), 1, 3);
      && WellFormed(s) && Enabled(s, e)
      && FirstScene(Step(s, e))
  {
    hide ProceedManager, ProceedCall, FirstScene;
    var s' := Step<nat, nat>(s, Deliver(Listen(0), Request(true, sms), 1, 3));
    assert s'.policy == s.policy && s'.buffer == [] && s'.calls == s.calls;
    assert s'.responders == [0];
    assert s'.listeners == map[0 := Listener(LISTEN_COMMAND, true, [], 0), 1 := Listener(LISTEN_COMMAND, false, [], 0)];
    assert s'.sent == map[0 := [], 1 := []];
    assert s'.tags == multiset{Unary(0), Unary(1), Unary(2), Listen(1)};
    hide Step;
    IsFirstScene(s');
  }

  lemma IsFirstScene(s: State<nat, nat>)
    requires s.policy == NP_ROUND_ROBIN && s.responders == [0] && s.buffer == [] && s.sent == map[0 := [], 1 := []]
    requires s.listeners == map[0 := Listener(LISTEN_COMMAND, true, [], 0), 1 := Listener(LISTEN_COMMAND, false, [], 0)]
    requires s.calls == map[0 := Call(REQUEST_TO_SEND, PROCESS, false), 1 := Call(COUNT_SMS_TO_SEND, PROCESS, false),
                            2 := Call(LAST_SMS_TO_SEND, PROCESS, false)]
    requires s.tags == multiset{Unary(0), Unary(1), Unary(2), Listen(1)}
    ensures FirstScene(s)
  {
  }

  /** Call object 0 is the acceptor of `requestToSend`. */
  ghost predicate FirstScene(s: State<nat, nat>) {
    && WellFormed(s) && s.policy == NP_ROUND_ROBIN && s.responders == [0]
    && 0 in s.listeners && s.listeners[0] == Listener(LISTEN_COMMAND, true, [], 0) && s.tags[Listen(0)] == 0
    && s.buffer == []
    && 0 in s.calls && s.calls[0] == Call(REQUEST_TO_SEND, PROCESS, false) && Unary(0) in s.tags
    && (forall id :: id in s.calls ==> id <= 2)
    && (forall id :: id in s.sent ==> id <= 1)
  }

  lemma FirstHandIn(s: State<nat, nat>, sms: SMS)
    requires FirstScene(s)
    ensures var e := Turned(Unary(0), sms, 3);
      Enabled(s, e) && WellFormed(s) && Scene(Step(s, e), Listener(LISTEN_COMMAND, true, [], 0), 0, [sms], 3)
  {
  }

  /** The run of `OverlapDropsPhone`. */
  function TwoBatches(a: SMS, b: SMS): seq<Event<nat, nat>> {
    [Deliver(Listen(0), Request(true, a), 1, 3)]
    + [Turned(Unary(0), a, 3)] + [Turned(Manager, a, 4)]
    + [Turned(Unary(3), b, 4)] + [Turned(Manager, b, 5)]
    + [Turned(Listen(0), b, 5)] + [Turned(Listen(0), b, 5)] + [Turned(Listen(0), b, 5)]
    + [Turned(Listen(0), b, 5)]
  }

  lemma WokenIdle(a: SMS)
    ensures Woken(Listener(LISTEN_COMMAND, true, [], 0), [a]) == Listener(LISTEN_COMMAND, true, [a], 0)
  {
    assert [] + [a] == [a];
  }

  lemma WokenAgain(a: SMS, b: SMS)
    ensures Woken(Listener(LISTEN_COMMAND, true, [a], 0), [b]) == Listener(LISTEN_COMMAND, true, [a, b], 1)
    ensures [a, b][1..] == [b] && [b][1..] == []
  {
    assert [a] + [b] == [a, b];
  }

  lemma FirstBatch(a: SMS) returns (s: State<nat, nat>, events: seq<Event<nat, nat>>)
    ensures events == [Deliver(Listen(0), Request(true, a), 1, 3)] + [Turned(Unary(0), a, 3)] + [Turned(Manager, a, 4)]
    ensures Possible(Init(NP_ROUND_ROBIN, 0, 0, 1, 2), events) && s == After(Init(NP_ROUND_ROBIN, 0, 0, 1, 2), events)
    ensures Scene(s, Listener(LISTEN_COMMAND, true, [a], 0), 1, [], 3)
  {
    hide *;
    var s0: State<nat, nat> := Init(NP_ROUND_ROBIN, 0, 0, 1, 2);
    var idle := Listener(LISTEN_COMMAND, true, [], 0);
    WokenIdle(a);
    EmptyRun(s0);
    FirstPhone(a);
    var e0: Event<nat, nat> := Deliver(Listen(0), Request(true, a), 1, 3);
    RunExtended(s0, [], e0);
    assert [] + [e0] == [e0];
    var s1 := Step(s0, e0);
    FirstHandIn(s1, a);
    RunExtended(s0, [e0], Turned(Unary(0), a, 3));
    var s2 := Step(s1, Turned(Unary(0), a, 3));
    PassOn(s2, idle, 0, 3, a);
    RunExtended(s0, [e0] + [Turned(Unary(0), a, 3)], Turned(Manager, a, 4));
    s := Step(s2, Turned(Manager, a, 4));
    events := [e0] + [Turned(Unary(0), a, 3)] + [Turned(Manager, a, 4)];
  }

  /** The second message comes before the alarm of the first is delivered, and arms another alarm.
      The server writes both messages, one after the other, and the phone is idle again; then the
      late alarm finds nothing to write, and the phone is taken for gone. */
  lemma OverlapDropsPhone(a: SMS, b: SMS)
    ensures var s: State<nat, nat>, events := Init(NP_ROUND_ROBIN, 0, 0, 1, 2), TwoBatches(a, b);
      && Possible(s, events)
      && (forall e :: e in events ==> !e.HangUp?)
      && 0 in After(s, events).listeners && After(s, events).listeners[0].status == FINISH
      && After(s, events).responders == []
  {
    hide *;
    var s0: State<nat, nat> := Init(NP_ROUND_ROBIN, 0, 0, 1, 2);
    var s3, e3 := FirstBatch(a);
    var l3 := Listener(LISTEN_COMMAND, true, [a], 0);
    WokenAgain(a, b);
    var e4, e5, own := Turned(Unary(3), b, 4), Turned(Manager, b, 5), Turned(Listen(0), b, 5);
    HandIn(s3, l3, 1, 3, b);
    RunExtended(s0, e3, e4);
    var s4 := Step(s3, e4);
    PassOn(s4, l3, 1, 4, b);
    RunExtended(s0, e3 + [e4], e5);
    var s5 := Step(s4, e5);
    PhoneProceeds(s5, Listener(LISTEN_COMMAND, true, [a, b], 1), 2, 4, b);
    RunExtended(s0, e3 + [e4] + [e5], own);
    var s6 := Step(s5, own);
    PhoneProceeds(s6, Listener(LISTEN_COMMAND_SENT, true, [b], 1), 2, 4, b);
    RunExtended(s0, e3 + [e4] + [e5] + [own], own);
    var s7 := Step(s6, own);
    PhoneProceeds(s7, Listener(LISTEN_COMMAND_SENT, true, [], 1), 2, 4, b);
    RunExtended(s0, e3 + [e4] + [e5] + [own] + [own], own);
    var s8 := Step(s7, own);
    TakenForGone(s8, Listener(LISTEN_COMMAND, true, [], 1), 1, 4, b);
    RunExtended(s0, e3 + [e4] + [e5] + [own] + [own] + [own], own);
    TwoBatchesIs(a, b, e3, e4, e5, own);
  }

  lemma TwoBatchesIs(a: SMS, b: SMS, e3: seq<Event<nat, nat>>, e4: Event<nat, nat>, e5: Event<nat, nat>,
                     own: Event<nat, nat>)
    requires e3 == [Deliver(Listen(0), Request(true, a), 1, 3)] + [Turned(Unary(0), a, 3)] + [Turned(Manager, a, 4)]
    requires e4 == Turned(Unary(3), b, 4) && e5 == Turned(Manager, b, 5) && own == Turned(Listen(0), b, 5)
    ensures TwoBatches(a, b) == e3 + [e4] + [e5] + [own] + [own] + [own] + [own]
    ensures forall e :: e in TwoBatches(a, b) ==> !e.HangUp?
  {
  }
}
