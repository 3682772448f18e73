/** What the clients of the three unary calls are told: every answer, from what has been accepted and
    handed on so far; and what callers have been given is what has left the buffer for them. */
module ServerReplies {
  import opened Server
  import opened ServerRegistry
  import opened ServerOrder
  import opened ServerRuns

  // ----- one call -----

  /** The event answers a unary call. */
  ghost predicate Serves<L, C>(s: State<L, C>, e: Event<L, C>) {
    && e.Deliver? && e.tag.Unary? && e.tag.call in s.calls
    && s.calls[e.tag.call].status == PROCESS && !s.calls[e.tag.call].newResponderCreated
  }

  ghost function RpcOf<L, C>(s: State<L, C>, e: Event<L, C>): Rpc
    requires Serves(s, e)
  {
    s.calls[e.tag.call].rpc
  }

  /** Everything accepted has been handed on. */
  predicate NothingWaits<L>(accepted: seq<SMS>, log: seq<Entry<L>>) {
    |log| >= |accepted|
  }

  /** The answer: for `lastSMSToSend`, the oldest message that has not been handed on. */
  function Answer<L>(accepted: seq<SMS>, log: seq<Entry<L>>, rpc: Rpc, allowed: bool): Reply {
    match rpc
    case REQUEST_TO_SEND => Count(if allowed then 1 else -1)
    case COUNT_SMS_TO_SEND => Count(if allowed then |accepted| - |log| else -1)
    case LAST_SMS_TO_SEND =>
      Message(if !allowed then SMS("", "N/A") else if NothingWaits(accepted, log) then SMS("", "") else accepted[|log|])
  }

  /** The event is an allowed `lastSMSToSend` that finds a message. */
  ghost predicate Reads<L, C>(s: State<L, C>, e: Event<L, C>) {
    Serves(s, e) && RpcOf(s, e) == LAST_SMS_TO_SEND && e.request.allowed && !NothingWaits(s.accepted, s.log)
  }

  /** The event is an allowed `requestToSend`. */
  ghost predicate Submits<L, C>(s: State<L, C>, e: Event<L, C>) {
    Serves(s, e) && RpcOf(s, e) == REQUEST_TO_SEND && e.request.allowed
  }

  lemma ServeAnswers<L, C>(s: State<L, C>, rpc: Rpc, request: Request)
    requires InOrder(s)
    ensures var s' := Serve(s, rpc, request);
      && s'.replies == s.replies + [Answer(s.accepted, s.log, rpc, request.allowed)]
      && s'.accepted == s.accepted + (if rpc == REQUEST_TO_SEND && request.allowed then [request.sms] else [])
      && s'.log == s.log + (if rpc == LAST_SMS_TO_SEND && request.allowed && !NothingWaits(s.accepted, s.log)
                            then [Entry(s.accepted[|s.log|], ToReader)] else [])
      && (!request.allowed || rpc == COUNT_SMS_TO_SEND ==> s'.buffer == s.buffer)
  {
    assert |s.accepted| == |s.log| + |s.buffer|;
    assert s.buffer != [] ==> s.accepted[|s.log|] == s.buffer[0];
  }

  /** A call that is answered: what the client is told, what is accepted, and what is handed on. */
  lemma Answered<L, C>(s: State<L, C>, e: Event<L, C>)
    requires WellFormed(s) && Enabled(s, e) && InOrder(s) && Serves(s, e)
    ensures var s' := Step(s, e);
      && s'.replies == s.replies + [Answer(s.accepted, s.log, RpcOf(s, e), e.request.allowed)]
      && s'.accepted == s.accepted + (if Submits(s, e) then [e.request.sms] else [])
      && s'.log == s.log + (if Reads(s, e) then [Entry(s.accepted[|s.log|], ToReader)] else [])
      && (!e.request.allowed ==> s'.buffer == s.buffer)
  {
    var was := s.(tags := s.tags - multiset{e.tag});
    ServeAnswers(was, RpcOf(s, e), e.request);
    hide Serve;
  }

  /** Nothing else is answered or accepted, or read by a caller. */
  lemma NotAnswered<L, C>(s: State<L, C>, e: Event<L, C>)
    requires WellFormed(s) && Enabled(s, e) && !Serves(s, e)
    ensures var s' := Step(s, e);
      s'.replies == s.replies && s'.accepted == s.accepted && Sent(s'.log, ToReader) == Sent(s.log, ToReader)
  {
    hide Sent;
    if e.Deliver? && e.tag.Manager? && s.buffer != [] && s.responders != [] {
      var was := s.(tags := s.tags - multiset{e.tag});
      Dispatched(was, s.buffer);
      hide Dispatch;
    }
  }

  lemma {:induction false} QueuedToAll<L, C>(s: State<L, C>, ids: seq<L>, values: seq<SMS>)
    requires forall id :: id in ids ==> id in s.listeners
    ensures var s' := EnqueueToAll(s, ids, values);
      s'.replies == s.replies && s'.accepted == s.accepted && s'.log == s.log
    decreases |ids|
  {
    if ids != [] {
      QueuedToAll(EnqueueTo(s, ids[0], values), ids[1..], values);
    }
  }

  lemma Dispatched<L, C>(s: State<L, C>, values: seq<SMS>)
    requires s.responders != [] && forall id :: id in s.responders ==> id in s.listeners
    ensures var s' := Dispatch(s, values);
      s'.replies == s.replies && s'.accepted == s.accepted && Sent(s'.log, ToReader) == Sent(s.log, ToReader)
  {
    if s.policy == NP_ALL {
      QueuedToAll(s, s.responders, values);
      LoggedAs<L>(values, ToAll, ToReader);
      SentAppend(s.log, LogTo(values, ToAll), ToReader);
    } else {
      var id := s.responders[NextIndex(s.responders, s.lastResponder)];
      LoggedAs(values, ToPhone(id), ToReader);
      SentAppend(s.log, LogTo(values, ToPhone(id)), ToReader);
    }
  }

  // ----- all calls of a run -----

  /** The message in the reply to a `lastSMSToSend` call that found one. */
  ghost function ToldBy<L, C>(s: State<L, C>, e: Event<L, C>): seq<SMS>
    requires WellFormed(s) && Enabled(s, e)
  {
    var replies := Step(s, e).replies;
    if Reads(s, e) && |replies| > |s.replies| && replies[|s.replies|].Message? then [replies[|s.replies|].sms] else []
  }

  /** What callers of `lastSMSToSend` were given, in order. */
  ghost function ToldReaders<L, C>(s: State<L, C>, events: seq<Event<L, C>>): seq<SMS>
    requires Possible(s, events)
    decreases |events|
  {
    if events == [] then [] else ToldBy(s, events[0]) + ToldReaders(Step(s, events[0]), events[1..])
  }

  ghost function SubmittedBy<L, C>(s: State<L, C>, e: Event<L, C>): seq<SMS> {
    if Submits(s, e) then [e.request.sms] else []
  }

  /** What allowed clients have sent with `requestToSend`, in order. */
  ghost function Submitted<L, C>(s: State<L, C>, events: seq<Event<L, C>>): seq<SMS>
    requires Possible(s, events)
    decreases |events|
  {
    if events == [] then [] else SubmittedBy(s, events[0]) + Submitted(Step(s, events[0]), events[1..])
  }

  /** How many calls were answered. */
  ghost function CallsServed<L, C>(s: State<L, C>, events: seq<Event<L, C>>): nat
    requires Possible(s, events)
    decreases |events|
  {
    if events == [] then 0 else (if Serves(s, events[0]) then 1 else 0) + CallsServed(Step(s, events[0]), events[1..])
  }

  lemma ReplyStep<L, C>(s: State<L, C>, e: Event<L, C>)
    requires WellFormed(s) && Enabled(s, e) && InOrder(s)
    ensures var s' := Step(s, e);
      && Sent(s'.log, ToReader) == Sent(s.log, ToReader) + ToldBy(s, e)
      && s'.accepted == s.accepted + SubmittedBy(s, e)
      && |s'.replies| == |s.replies| + (if Serves(s, e) then 1 else 0)
  {
    if Serves(s, e) {
      Answered(s, e);
      hide Step, InOrder, Enabled, WellFormed, Sent;
      if Reads(s, e) {
        var sms := s.accepted[|s.log|];
        SentAppend(s.log, [Entry(sms, ToReader)], ToReader);
        OneSent<L>(sms);
      } else {
        assert s.log + [] == s.log;
      }
    } else {
      NotAnswered(s, e);
    }
  }

  lemma OneSent<L>(sms: SMS)
    ensures Sent<L>([Entry(sms, ToReader)], ToReader) == [sms]
  {
    assert [Entry<L>.Entry(sms, ToReader)][1..] == [];
  }

  lemma {:induction false} RunReplies<L, C>(s: State<L, C>, events: seq<Event<L, C>>)
    requires Inv(s) && OrderInv(s) && Possible(s, events)
    ensures var s' := After(s, events);
      && Sent(s'.log, ToReader) == Sent(s.log, ToReader) + ToldReaders(s, events)
      && s'.accepted == s.accepted + Submitted(s, events)
      && |s'.replies| == |s.replies| + CallsServed(s, events)
    decreases |events|
  {
    hide Step, Inv, OrderInv, Enabled, WellFormed, Sent, ToldBy, SubmittedBy, Serves;
    if events != [] {
      var e := events[0];
      var s1 := Step(s, e);
      StepInv(s, e);
      StepOrder(s, e);
      Ordered(s);
      ReplyStep(s, e);
      RunReplies(s1, events[1..]);
      Assoc(Sent(s.log, ToReader), ToldBy(s, e), ToldReaders(s1, events[1..]));
      Assoc(s.accepted, SubmittedBy(s, e), Submitted(s1, events[1..]));
    }
  }

  lemma Ordered<L, C>(s: State<L, C>)
    requires OrderInv(s)
    ensures InOrder(s)
  {
  }

  lemma Assoc(a: seq<SMS>, b: seq<SMS>, c: seq<SMS>)
    ensures a + b + c == a + (b + c)
  {
  }

  /** After any run of the server: every call has had one answer, what was accepted is what allowed
      clients have sent, and what left the buffer for callers of `lastSMSToSend` is what their replies
      said, in order.  So with round robin every message that was sent is in exactly one place: the
      buffer, one phone's queue or writes, or one caller's reply. */
  lemma EveryReply<L, C>(policy: NotifyPolicy, l: L, request: C, count: C, last: C, events: seq<Event<L, C>>)
    requires request != count && request != last && count != last
    requires Possible(Init(policy, l, request, count, last), events)
    ensures var s0 := Init(policy, l, request, count, last);
      var s := After(s0, events);
      && Sent(s.log, ToReader) == ToldReaders(s0, events)
      && s.accepted == Submitted(s0, events)
      && |s.replies| == CallsServed(s0, events)
      && (s.policy == NP_ROUND_ROBIN ==>
            multiset(Submitted(s0, events))
              == multiset(s.buffer) + SumOf(Histories(s)) + multiset(ToldReaders(s0, events)))
  {
    var s0 := Init<L, C>(policy, l, request, count, last);
    Started<L, C>(policy, l, request, count, last);
    hide Init, Inv, OrderInv, After, Possible, ToldReaders, Submitted, CallsServed, SumOf, Sent;
    InitInv<L, C>(policy, l, request, count, last);
    InitOrder<L, C>(policy, l, request, count, last);
    RunReplies(s0, events);
    RunKeeps(s0, events);
    assert [] + ToldReaders(s0, events) == ToldReaders(s0, events);
    assert [] + Submitted(s0, events) == Submitted(s0, events);
    if After(s0, events).policy == NP_ROUND_ROBIN {
      Conservation(After(s0, events));
    }
  }

  lemma Started<L, C>(policy: NotifyPolicy, l: L, request: C, count: C, last: C)
    ensures var s := Init<L, C>(policy, l, request, count, last);
      s.policy == policy && Sent(s.log, ToReader) == [] && s.accepted == [] && s.replies == []
  {
  }
}
