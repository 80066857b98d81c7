/** The client-side message listener (AdvancedMessageListenerThreadImpl):
    a loop that receives PDUs from the server and dispatches each on the
    pair (client status, PDU kind). Every action is one atomic step on the
    client's shared data; what it asks of the connection (a confirm to
    send, the connection to close) is returned as a list of actions. */
module MessageListener {
  import opened Protocol

  /** The client state the listener reads and writes: the shared client
      data (user name, status and the three counters), the send lock the
      user interface holds while a chat message awaits its response, and
      the listener's own finished flag. */
  datatype Listener = Listener(
    userName: string,
    status: Status,
    messageCounter: nat,
    eventCounter: nat,
    confirmCounter: nat,
    locked: bool,
    finished: bool)

  /** What a step asks of the connection. */
  datatype Action = SendConfirm(pdu: Pdu) | CloseConnection

  datatype Reaction = Reaction(listener: Listener, actions: seq<Action>)

  /** The number of confirms in a list of actions. */
  function Confirms(actions: seq<Action>): nat {
    if actions == [] then 0
    else (if actions[0].SendConfirm? then 1 else 0) + Confirms(actions[1..])
  }

  lemma {:induction false} ConfirmsAppend(a: seq<Action>, b: seq<Action>)
    decreases |a|
    ensures Confirms(a + b) == Confirms(a) + Confirms(b)
  {
    if a == [] {
      assert a + b == b;
    } else {
      assert (a + b)[0] == a[0];
      assert (a + b)[1..] == a[1..] + b;
      ConfirmsAppend(a[1..], b);
    }
  }

  /** What every action keeps: the user name and the message counter are
      never touched, events and confirms are counted in step with each
      other and with the confirms sent, a status is only ever set to
      REGISTERED or UNREGISTERED, and only a logout response finishes
      the listener. */
  predicate Keeps(l: Listener, pdu: Pdu, r: Reaction) {
    && r.listener.userName == l.userName
    && r.listener.messageCounter == l.messageCounter
    && l.eventCounter <= r.listener.eventCounter
    && r.listener.eventCounter - r.listener.confirmCounter == l.eventCounter - l.confirmCounter
    && Confirms(r.actions) == r.listener.eventCounter - l.eventCounter
    && (r.listener.status == l.status || r.listener.status == Registered || r.listener.status == Unregistered)
    && (r.listener.finished ==> l.finished || pdu.kind == LogoutResponse)
  }

  /** A login response: a refused login sets UNREGISTERED and closes the
      connection without finishing the loop; any other error code
      completes the login. */
  function LoginResponseAction(l: Listener, pdu: Pdu): (r: Reaction)
    requires pdu.kind == LoginResponse
    ensures Keeps(l, pdu, r)
    ensures r.listener.status == Registered <==> pdu.errorCode != LoginError
    ensures r.listener.status == Unregistered <==> pdu.errorCode == LoginError
    ensures CloseConnection in r.actions <==> pdu.errorCode == LoginError
    ensures r.listener == l.(status := r.listener.status)
  {
    if pdu.errorCode == LoginError then Reaction(l.(status := Unregistered), [CloseConnection])
    else Reaction(l.(status := Registered), [])
  }

  /** The shared shape of the three event actions: count the event,
      attempt exactly one confirm of the matching kind for the event's
      subject, and count the confirm whether or not the send succeeds. */
  function ConfirmEvent(l: Listener, event: Pdu): (r: Reaction)
    requires IsEvent(event.kind)
    ensures Keeps(l, event, r)
    ensures r.listener == l.(eventCounter := l.eventCounter + 1, confirmCounter := l.confirmCounter + 1)
    ensures |r.actions| == 1 && r.actions[0].SendConfirm?
    ensures r.actions[0].pdu.kind == ConfirmKindFor(event.kind)
    ensures r.actions[0].pdu.userName == l.userName
    ensures r.actions[0].pdu.eventUserName == event.eventUserName
  {
    Reaction(l.(eventCounter := l.eventCounter + 1, confirmCounter := l.confirmCounter + 1),
             [SendConfirm(ConfirmPdu(l.userName, event))])
  }

  function LoginEventAction(l: Listener, pdu: Pdu): (r: Reaction)
    requires pdu.kind == LoginEvent
    ensures Keeps(l, pdu, r) && r.listener.eventCounter == l.eventCounter + 1
    ensures r.actions == [SendConfirm(ConfirmPdu(l.userName, pdu))]
    ensures r.actions[0].pdu.kind == LoginConfirm
  {
    ConfirmEvent(l, pdu)
  }

  function LogoutEventAction(l: Listener, pdu: Pdu): (r: Reaction)
    requires pdu.kind == LogoutEvent
    ensures Keeps(l, pdu, r) && r.listener.eventCounter == l.eventCounter + 1
    ensures r.actions == [SendConfirm(ConfirmPdu(l.userName, pdu))]
    ensures r.actions[0].pdu.kind == LogoutConfirm
  {
    ConfirmEvent(l, pdu)
  }

  function ChatMessageEventAction(l: Listener, pdu: Pdu): (r: Reaction)
    requires pdu.kind == ChatMessageEvent
    ensures Keeps(l, pdu, r) && r.listener.eventCounter == l.eventCounter + 1
    ensures r.actions == [SendConfirm(ConfirmPdu(l.userName, pdu))]
    ensures r.actions[0].pdu.kind == ChatMessageConfirm
  {
    ConfirmEvent(l, pdu)
  }

  /** A chat response releases the send lock only when it answers the
      latest message sent; a stale sequence number changes nothing. */
  function ChatMessageResponseAction(l: Listener, pdu: Pdu): (r: Reaction)
    requires pdu.kind == ChatMessageResponse
    ensures Keeps(l, pdu, r) && r.actions == []
    ensures r.listener == l.(locked := r.listener.locked)
    ensures !r.listener.locked <==> !l.locked || pdu.sequenceNumber == l.messageCounter
  {
    if pdu.sequenceNumber == l.messageCounter then Reaction(l.(locked := false), [])
    else Reaction(l, [])
  }

  /** A logout response ends the session and the listener loop. */
  function LogoutResponseAction(l: Listener, pdu: Pdu): (r: Reaction)
    requires pdu.kind == LogoutResponse
    ensures Keeps(l, pdu, r) && r.actions == []
    ensures r.listener.status == Unregistered && r.listener.finished
    ensures r.listener == l.(status := Unregistered, finished := true)
  {
    Reaction(l.(status := Unregistered, finished := true), [])
  }

  function Discard(l: Listener): Reaction {
    Reaction(l, [])
  }

  /** The dispatch of one received PDU, status first and kind second. */
  function Dispatch(l: Listener, pdu: Pdu): (r: Reaction)
    ensures Keeps(l, pdu, r)
  {
    match l.status
    case Registering =>
      (match pdu.kind
       case LoginResponse => LoginResponseAction(l, pdu)
       case LoginEvent => LoginEventAction(l, pdu)
       case LogoutEvent => LogoutEventAction(l, pdu)
       case ChatMessageEvent => ChatMessageEventAction(l, pdu)
       case _ => Discard(l))
    case Registered =>
      (match pdu.kind
       case ChatMessageResponse => ChatMessageResponseAction(l, pdu)
       case ChatMessageEvent => ChatMessageEventAction(l, pdu)
       case LoginEvent => LoginEventAction(l, pdu)
       case LogoutEvent => LogoutEventAction(l, pdu)
       case _ => Discard(l))
    case Unregistering =>
      (match pdu.kind
       case ChatMessageEvent => ChatMessageEventAction(l, pdu)
       case LogoutResponse => LogoutResponseAction(l, pdu)
       case LoginEvent => LoginEventAction(l, pdu)
       case LogoutEvent => LogoutEventAction(l, pdu)
       case _ => Discard(l))
    case Unregistered => Discard(l)
  }

  /** The dispatch table read kind first: the statuses in which a PDU of
      each kind is acted on. Each response kind has exactly one, the
      events have all but UNREGISTERED, every other kind has none. */
  function AcceptingStatuses(k: PduKind): set<Status> {
    match k
    case LoginResponse => {Registering}
    case ChatMessageResponse => {Registered}
    case LogoutResponse => {Unregistering}
    case LoginEvent => {Registering, Registered, Unregistering}
    case LogoutEvent => {Registering, Registered, Unregistering}
    case ChatMessageEvent => {Registering, Registered, Unregistering}
    case _ => {}
  }

  /** The action of each kind the listener acts on, whatever the status. */
  function Act(l: Listener, pdu: Pdu): Reaction
    requires AcceptingStatuses(pdu.kind) != {}
  {
    match pdu.kind
    case LoginResponse => LoginResponseAction(l, pdu)
    case ChatMessageResponse => ChatMessageResponseAction(l, pdu)
    case LogoutResponse => LogoutResponseAction(l, pdu)
    case LoginEvent => LoginEventAction(l, pdu)
    case LogoutEvent => LogoutEventAction(l, pdu)
    case ChatMessageEvent => ChatMessageEventAction(l, pdu)
  }

  /** The status-first dispatch is the kind-first table: a PDU is acted
      on exactly in its accepting statuses, by the same action in each,
      and discarded otherwise. */
  lemma DispatchFollowsTable(l: Listener, pdu: Pdu)
    ensures Dispatch(l, pdu) ==
      if l.status in AcceptingStatuses(pdu.kind) then Act(l, pdu) else Reaction(l, [])
  {
  }

  /** Each response kind is acted on in exactly one status. */
  lemma ResponsesInOneStatus(s: Status)
    ensures LoginResponse in StatusesFor(s) <==> s == Registering
    ensures ChatMessageResponse in StatusesFor(s) <==> s == Registered
    ensures LogoutResponse in StatusesFor(s) <==> s == Unregistering
    ensures StatusesFor(s) == {} <==> s == Unregistered
  {
  }

  /** The kinds acted on in one status, read off the kind-first table. */
  function StatusesFor(s: Status): (r: set<PduKind>)
    ensures forall k :: k in r <==> s in AcceptingStatuses(k)
  {
    set k: PduKind | k in AllKinds && s in AcceptingStatuses(k)
  }

  const AllKinds: set<PduKind> := {
    LoginRequest, LoginResponse, LoginEvent, LoginConfirm,
    LogoutRequest, LogoutResponse, LogoutEvent, LogoutConfirm,
    ChatMessageRequest, ChatMessageResponse, ChatMessageEvent, ChatMessageConfirm,
    Other }

  /** A PDU leaves the client exactly as it was, with nothing to send,
      iff the table discards it, or it is a chat response that does not
      match the message counter or finds the lock already released. */
  lemma DispatchChangesNothingIff(l: Listener, pdu: Pdu)
    ensures Dispatch(l, pdu) == Reaction(l, []) <==>
      || l.status !in AcceptingStatuses(pdu.kind)
      || (pdu.kind == ChatMessageResponse && (pdu.sequenceNumber != l.messageCounter || !l.locked))
  {
    DispatchFollowsTable(l, pdu);
  }

  /** The result of one loop iteration: the reaction and the PDU the next
      iteration holds as the last one received. */
  datatype Iteration = Iteration(reaction: Reaction, last: Option<Pdu>)

  /** One iteration of the listener loop. A receive that throws sets the
      finished flag, and the last PDU received, which is never cleared,
      is dispatched once more. */
  function Step(l: Listener, last: Option<Pdu>, recv: Receive): (r: Iteration)
    ensures recv.Received? ==> r.last == Some(recv.pdu) && r.reaction == Dispatch(l, recv.pdu)
    ensures !recv.Received? ==> r.last == last && r.reaction.listener.finished
    ensures !recv.Received? && last.None? ==> r.reaction == Reaction(l.(finished := true), [])
    ensures !recv.Received? && last.Some? ==> r.reaction == Dispatch(l.(finished := true), last.value)
  {
    match recv
    case Received(pdu) => Iteration(Dispatch(l, pdu), Some(pdu))
    case _ =>
      var l' := l.(finished := true);
      match last
      case None => Iteration(Reaction(l', []), last)
      case Some(pdu) => Iteration(Dispatch(l', pdu), last)
  }

  /** As written, a receive failure right after an event answers that
      event a second time: two events and two confirms are counted for
      one event received. */
  lemma FailureRepeatsLastEvent(l: Listener, event: Pdu, failure: Receive)
    requires !l.finished && l.status != Unregistered && IsEvent(event.kind)
    requires !failure.Received?
    ensures var first := Step(l, None, Received(event));
      var second := Step(first.reaction.listener, first.last, failure);
      && second.reaction.listener.eventCounter == l.eventCounter + 2
      && second.reaction.listener.confirmCounter == l.confirmCounter + 2
      && second.reaction.actions == first.reaction.actions
      && second.reaction.listener.finished
  {
  }

  /** As written, a refused login closes the connection but leaves the
      loop running: the next receive fails, which finishes the loop, and
      the refusal dispatched again is discarded in UNREGISTERED. */
  lemma RefusedLoginEndsOnNextReceive(l: Listener, refusal: Pdu, failure: Receive)
    requires !l.finished && l.status == Registering
    requires refusal.kind == LoginResponse && refusal.errorCode == LoginError
    requires !failure.Received?
    ensures var first := Step(l, None, Received(refusal));
      var second := Step(first.reaction.listener, first.last, failure);
      && first.reaction.listener == l.(status := Unregistered)
      && first.reaction.actions == [CloseConnection]
      && second.reaction == Reaction(l.(status := Unregistered, finished := true), [])
  {
  }

  /** The listener loop over a finite sequence of receive outcomes. It
      stops when the listener finishes, and then closes the connection,
      or when the outcomes run out, which stands for a listener still
      blocked in its next receive. */
  method Run(start: Listener, inputs: seq<Receive>) returns (l: Listener, actions: seq<Action>, consumed: nat)
    ensures consumed <= |inputs|
    ensures l.finished || consumed == |inputs|
    ensures l.finished ==> actions != [] && actions[|actions| - 1] == CloseConnection
    ensures l.userName == start.userName && l.messageCounter == start.messageCounter
    ensures l.eventCounter - l.confirmCounter == start.eventCounter - start.confirmCounter
    ensures start.eventCounter <= l.eventCounter
    ensures Confirms(actions) == l.eventCounter - start.eventCounter
    ensures l.status == start.status || l.status == Registered || l.status == Unregistered
    ensures start.finished ==> l == start && consumed == 0
  {
    l := start;
    actions := [];
    consumed := 0;
    var last: Option<Pdu> := None;
    while !l.finished && consumed < |inputs|
      invariant consumed <= |inputs|
      invariant l.userName == start.userName && l.messageCounter == start.messageCounter
      invariant l.eventCounter - l.confirmCounter == start.eventCounter - start.confirmCounter
      invariant start.eventCounter <= l.eventCounter
      invariant Confirms(actions) == l.eventCounter - start.eventCounter
      invariant l.status == start.status || l.status == Registered || l.status == Unregistered
      invariant start.finished ==> l == start && consumed == 0
      invariant last.Some? ==> consumed > 0
      decreases |inputs| - consumed
    {
      var it := Step(l, last, inputs[consumed]);
      ConfirmsAppend(actions, it.reaction.actions);
      l := it.reaction.listener;
      actions := actions + it.reaction.actions;
      last := it.last;
      consumed := consumed + 1;
    }
    if l.finished {
      ConfirmsAppend(actions, [CloseConnection]);
      actions := actions + [CloseConnection];
    }
  }
}
