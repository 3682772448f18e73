/** The SMS dispatch server as a state machine.

    The completion queue is a multiset of tags; the environment decides which one is delivered
    next.  A tag names the object whose `Proceed` runs.  A registration of an RPC (delivered when
    a client calls it), a `Write`, a `Finish` and an alarm each put one tag on the queue; a
    disconnecting phone may put more.

    `L` and `C` are the identities of `ListenData` objects and of the objects that serve the other
    three RPCs; identities are never reused.  The fields after `tags` are history: they record
    what happened and influence nothing. */
module Server {
  import opened Wrappers

  datatype SMS = SMS(phone: string, message: string)

  datatype NotifyPolicy = NP_ROUND_ROBIN | NP_ALL

  /** `CallStatus`; CREATE is left again within the constructor, so no object is ever seen in it. */
  datatype Status = PROCESS | FINISH | LISTEN_COMMAND | LISTEN_COMMAND_SENT

  datatype Rpc = REQUEST_TO_SEND | COUNT_SMS_TO_SEND | LAST_SMS_TO_SEND

  /** `ListenData`.  `surplus` counts the tags it has been given beyond the one it is waiting for. */
  datatype Listener = Listener(status: Status, newResponderCreated: bool, result: seq<SMS>, surplus: nat)

  /** `RequestToSendData`, `CountSMSToSendData` or `LastSMSToSendData`. */
  datatype Call = Call(rpc: Rpc, status: Status, newResponderCreated: bool)

  datatype Tag<L, C> = Manager | Listen(listener: L) | Unary(call: C)

  /** Where an accepted message went. */
  datatype Dest<L> = ToPhone(phone: L) | ToAll | ToReader

  datatype Entry<L> = Entry(sms: SMS, dest: Dest<L>)

  /** What a unary call answers. */
  datatype Reply = Count(n: int) | Message(sms: SMS)

  datatype State<L, C> = State(
    policy: NotifyPolicy,
    buffer: seq<SMS>,
    responders: seq<L>,
    lastResponder: Option<L>,
    listeners: map<L, Listener>,
    calls: map<C, Call>,
    tags: multiset<Tag<L, C>>,
    accepted: seq<SMS>,
    log: seq<Entry<L>>,
    sent: map<L, seq<SMS>>,
    joined: map<L, nat>,
    replies: seq<Reply>)

  // ----- sequences -----

  /** Position of the first `x`; `|s|` if there is none (`std::find`). */
  function Find<T(==)>(s: seq<T>, x: T): (i: nat)
    ensures i <= |s| && (i < |s| ==> s[i] == x) && x !in s[..i]
    ensures i == |s| <==> x !in s
  {
    if s == [] then 0 else if s[0] == x then 0 else 1 + Find(s[1..], x)
  }

  /** `s` without its first `x`. */
  function Without<T(==)>(s: seq<T>, x: T): seq<T> {
    var i := Find(s, x);
    if i == |s| then s else s[..i] + s[i + 1..]
  }

  // ----- objects -----

  /** The constructor of `ListenData`, its CREATE step included: register the RPC, and wake the
      manager if messages are waiting. */
  function NewListener<L, C>(s: State<L, C>, id: L): State<L, C> {
    s.(listeners := s.listeners[id := Listener(LISTEN_COMMAND, false, [], 0)],
       sent := s.sent[id := []],
       tags := s.tags + multiset{Listen(id)} + if s.buffer != [] then multiset{Manager} else multiset{})
  }

  function NewCall<L, C>(s: State<L, C>, id: C, rpc: Rpc): State<L, C> {
    s.(calls := s.calls[id := Call(rpc, PROCESS, false)], tags := s.tags + multiset{Unary(id)})
  }

  /** `ListenData::enqueue`: an idle listener is woken by an alarm. */
  function EnqueueTo<L, C>(s: State<L, C>, id: L, values: seq<SMS>): State<L, C>
    requires id in s.listeners
  {
    var l := s.listeners[id];
    var result := l.result + values;
    if result == [] then s
    else if l.status == LISTEN_COMMAND then
      s.(listeners := s.listeners[id := l.(result := result, surplus := l.surplus + if l.result == [] then 0 else 1)],
         tags := s.tags + multiset{Listen(id)})
    else s.(listeners := s.listeners[id := l.(result := result)])
  }

  function EnqueueToAll<L, C>(s: State<L, C>, ids: seq<L>, values: seq<SMS>): (r: State<L, C>)
    requires forall id :: id in ids ==> id in s.listeners
    ensures r.listeners.Keys == s.listeners.Keys
    decreases |ids|
  {
    if ids == [] then s else EnqueueToAll(EnqueueTo(s, ids[0], values), ids[1..], values)
  }

  /** Round robin: the responder after the last one, or the first. */
  function NextIndex<L(==)>(responders: seq<L>, last: Option<L>): (i: nat)
    requires responders != []
    ensures i < |responders|
  {
    if last.None? then 0
    else
      var i := Find(responders, last.value);
      if i == |responders| || i + 1 == |responders| then 0 else i + 1
  }

  function LogTo<L>(values: seq<SMS>, dest: Dest<L>): (r: seq<Entry<L>>)
    ensures |r| == |values| && forall i :: 0 <= i < |r| ==> r[i] == Entry(values[i], dest)
  {
    seq(|values|, i requires 0 <= i < |values| => Entry(values[i], dest))
  }

  /** `ListenSMS::enqueue`, when there is someone to send to. */
  function Dispatch<L, C>(s: State<L, C>, values: seq<SMS>): State<L, C>
    requires s.responders != [] && forall id :: id in s.responders ==> id in s.listeners
  {
    if s.policy == NP_ALL then
      EnqueueToAll(s, s.responders, values).(log := s.log + LogTo(values, ToAll))
    else
      var id := s.responders[NextIndex(s.responders, s.lastResponder)];
      EnqueueTo(s, id, values).(lastResponder := Some(id), log := s.log + LogTo(values, ToPhone(id)))
  }

  // ----- Proceed -----

  /** `QueuingMgr::Proceed` */
  function ProceedManager<L, C>(s: State<L, C>): State<L, C>
    requires forall id :: id in s.responders ==> id in s.listeners
  {
    if s.buffer == [] || s.responders == [] then s
    else Dispatch(s, s.buffer).(buffer := [])
  }

  /** `ListenData::writeNext` with something to write. */
  function WriteNext<L, C>(s: State<L, C>, id: L): State<L, C>
    requires id in s.listeners && s.listeners[id].result != [] && id in s.sent
  {
    var l := s.listeners[id];
    s.(listeners := s.listeners[id := l.(result := l.result[1..], status := LISTEN_COMMAND_SENT)],
       sent := s.sent[id := s.sent[id] + [l.result[0]]],
       tags := s.tags + multiset{Listen(id)})
  }

  /** `ListenData::Proceed`; `acceptor` is the object it creates, if it does. */
  function ProceedListener<L, C>(s: State<L, C>, id: L, acceptor: L): State<L, C>
    requires id in s.listeners && id in s.sent && id != acceptor
  {
    var l := s.listeners[id];
    match l.status
    case LISTEN_COMMAND =>
      if !l.newResponderCreated then
        var s' := NewListener(s, acceptor);
        s'.(listeners := s'.listeners[id := l.(newResponderCreated := true)],
            responders := s.responders + [id],
            joined := s.joined[id := |s.log|])
      else if l.result == [] then
        s.(listeners := s.listeners[id := l.(status := FINISH)],
           responders := Without(s.responders, id),
           tags := s.tags + multiset{Listen(id)})
      else WriteNext(s, id)
    case LISTEN_COMMAND_SENT =>
      if l.result == [] then s.(listeners := s.listeners[id := l.(status := LISTEN_COMMAND)])
      else WriteNext(s, id)
    case FINISH =>
      // the object is deleted; tags that still name it are dropped
      s.(listeners := s.listeners - {id}, tags := s.tags[Listen(id) := 0])
    case PROCESS => s
  }

  /** What a client sends with a unary call: whether `isAllowed` accepts its credentials, and the
      message. */
  datatype Request = Request(allowed: bool, sms: SMS)

  /** The answer of a unary call, and its effect on the manager's buffer. */
  function Serve<L, C>(s: State<L, C>, rpc: Rpc, request: Request): State<L, C> {
    if !request.allowed then
      s.(replies := s.replies + [if rpc == LAST_SMS_TO_SEND then Message(SMS("", "N/A")) else Count(-1)])
    else
      match rpc
      case REQUEST_TO_SEND =>
        s.(buffer := s.buffer + [request.sms], tags := s.tags + multiset{Manager},
           accepted := s.accepted + [request.sms], replies := s.replies + [Count(1)])
      case COUNT_SMS_TO_SEND => s.(replies := s.replies + [Count(|s.buffer|)])
      case LAST_SMS_TO_SEND =>
        if s.buffer == [] then s.(replies := s.replies + [Message(SMS("", ""))])
        else
          s.(buffer := s.buffer[1..], log := s.log + [Entry(s.buffer[0], ToReader)],
             replies := s.replies + [Message(s.buffer[0])])
  }

  /** `Proceed` of the three unary calls. */
  function ProceedCall<L, C>(s: State<L, C>, id: C, request: Request, acceptor: C): State<L, C>
    requires id in s.calls && id != acceptor
  {
    var c := s.calls[id];
    match c.status
    case PROCESS =>
      if c.newResponderCreated then s.(calls := s.calls[id := c.(status := FINISH)])
      else
        var s' := NewCall(Serve(s, c.rpc, request), acceptor, c.rpc);
        s'.(calls := s'.calls[id := c.(status := FINISH, newResponderCreated := true)],
            tags := s'.tags + multiset{Unary(id)})
    case FINISH => s.(calls := s.calls - {id})
    case LISTEN_COMMAND => s
    case LISTEN_COMMAND_SENT => s
  }

  // ----- events -----

  /** One turn of the event loop, or a phone hanging up. */
  datatype Event<L, C> =
    | Deliver(tag: Tag<L, C>, request: Request, freshL: L, freshC: C)
    | HangUp(phone: L)

  ghost predicate Enabled<L, C>(s: State<L, C>, e: Event<L, C>) {
    match e
    case Deliver(tag, _, freshL, freshC) =>
      && tag in s.tags && freshL !in s.sent && freshC !in s.calls
      && (tag.Listen? ==> tag.listener in s.listeners)
      && (tag.Unary? ==> tag.call in s.calls)
    case HangUp(phone) => phone in s.listeners && s.listeners[phone].newResponderCreated
  }

  /** A fresh call identity must never have been used; only live calls matter to the model. */
  function Step<L, C>(s: State<L, C>, e: Event<L, C>): State<L, C>
    requires Enabled(s, e) && WellFormed(s)
  {
    match e
    case HangUp(phone) =>
      var l := s.listeners[phone];
      s.(tags := s.tags + multiset{Listen(phone)}, listeners := s.listeners[phone := l.(surplus := l.surplus + 1)])
    case Deliver(tag, request, freshL, freshC) =>
      var s' := s.(tags := s.tags - multiset{tag});
      match tag
      case Manager => ProceedManager(s')
      case Listen(id) => ProceedListener(s', id, freshL)
      case Unary(id) => ProceedCall(s', id, request, freshC)
  }

  ghost predicate WellFormed<L, C>(s: State<L, C>) {
    && (forall id :: id in s.responders ==> id in s.listeners)
    && s.listeners.Keys <= s.sent.Keys
  }

  /** `run()` before its loop: the manager exists, and one acceptor for each RPC. */
  function Init<L, C>(policy: NotifyPolicy, l: L, request: C, count: C, last: C): State<L, C> {
    NewCall(NewCall(NewListener(NewCall(
      State(policy, [], [], None, map[], map[], multiset{}, [], [], map[], map[], []),
      request, REQUEST_TO_SEND), l), count, COUNT_SMS_TO_SEND), last, LAST_SMS_TO_SEND)
  }
}
