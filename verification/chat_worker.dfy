/** The server-side session worker (AdvancedChatWorkerThreadImpl): one
    worker per client connection, driving the confirm-then-respond
    protocol. Each handler is one atomic step from the worker's own
    session and the shared server state to an outcome: the next state
    and the PDUs the step sends. Send failures are a parameter `down`,
    the connections on which a send throws. */
module ChatWorker {
  import opened Protocol
  import opened ClientList

  /** Process-wide counters shared by every worker. */
  datatype Counters = Counters(events: nat, confirms: nat, logouts: nat)

  /** The shared server state: the client registry and the counters. */
  datatype Server = Server(reg: Registry, counters: Counters)

  /** The worker's own state: the user name it serves once a login was
      accepted on its connection (None before that) and its finished flag. */
  datatype Session = Session(userName: Option<string>, finished: bool)

  const FreshSession: Session := Session(None, false)

  /** A connection to send on: the worker's own connection, or the
      connection held in a registry entry. */
  datatype Conn = Requester | Client(name: string)

  datatype Send = Send(to: Conn, pdu: Pdu)

  /** The outcome of one step. `Caught` is an exception that escapes the
      handler and is logged by the worker loop, which carries on;
      `Terminated` is a call that ends the server process. */
  datatype Outcome =
    | Next(session: Session, server: Server, sends: set<Send>)
    | Caught(session: Session, server: Server)
    | Terminated

  /** A broadcast's effect: the updated server and the sends attempted. */
  datatype Effect = Effect(server: Server, sends: set<Send>)

  /** The name a PDU carries for the worker; empty before a login. */
  function NameOf(o: Option<string>): string {
    if o.Some? then o.value else ""
  }

  /** The worker's own name as a set: empty before a login. */
  function OwnSet(session: Session): (r: set<string>)
    ensures forall n :: n in r <==> session.userName == Some(n)
  {
    if session.userName.Some? then {session.userName.value} else {}
  }

  /** existsClient(userName) for the worker's own name. */
  predicate Known(session: Session, reg: Registry) {
    session.userName.Some? && session.userName.value in reg.clients
  }

  /** Invariant kept by every step: an UNREGISTERED entry is always
      marked finished, i.e. waiting to be reclaimed. */
  predicate UnregisteredAreFinished(reg: Registry) {
    forall n :: n in reg.clients && reg.clients[n].status == Unregistered ==> reg.clients[n].finished
  }

  /** The names among `names` whose connection accepts a send. */
  function Reached(names: set<string>, down: set<Conn>): (r: set<string>)
    ensures forall n :: n in r <==> n in names && Client(n) !in down
  {
    set n | n in names && Client(n) !in down
  }

  /** sendLoginListUpdateEvent: the event, carrying the REGISTERED names
      as its roster, is sent to every name in the registry; a failed
      send is skipped and only successful sends are counted. */
  function SendLoginListUpdateEvent(server: Server, pdu: Pdu, down: set<Conn>): (e: Effect)
    ensures forall s :: s in e.sends <==>
      s.to.Client? && s.to.name in server.reg.clients && s.pdu == pdu.(clients := RegisteredNames(server.reg))
    ensures Names(e.server.reg) == Names(server.reg) && e.server.reg.waitLists == server.reg.waitLists
    ensures forall n :: n in server.reg.clients ==>
      e.server.reg.clients[n] == server.reg.clients[n].(sentEvents :=
        server.reg.clients[n].sentEvents + (if Client(n) in down then 0 else 1))
    ensures e.server.counters == server.counters.(events :=
      server.counters.events + |Reached(Names(server.reg), down)|)
  {
    var event := pdu.(clients := RegisteredNames(server.reg));
    var reached := Reached(Names(server.reg), down);
    Effect(
      Server(IncrSentEvents(server.reg, reached), server.counters.(events := server.counters.events + |reached|)),
      set n | n in server.reg.clients :: Send(Client(n), event))
  }

  /** loginRequestAction. An unknown name gets a REGISTERING entry, a
      wait list over every name (itself included) and a login event to
      every name; the response is deferred. A known name gets only an
      error response on the requester's own connection. */
  function LoginRequestAction(session: Session, server: Server, request: Pdu, down: set<Conn>): (r: Outcome)
    ensures request.userName !in server.reg.clients ==>
      && r.Next?
      && r.session == session.(userName := Some(request.userName))
      && Names(r.server.reg) == Names(server.reg) + {request.userName}
      && r.server.reg.clients[request.userName].status == Registering
      && !r.server.reg.clients[request.userName].finished
      && r.server.reg.clients[request.userName].receivedMessages == 0
      && (forall n :: n in server.reg.clients ==>
            && r.server.reg.clients[n].status == server.reg.clients[n].status
            && r.server.reg.clients[n].finished == server.reg.clients[n].finished)
      && r.server.reg.waitLists == server.reg.waitLists[request.userName := Names(server.reg) + {request.userName}]
      && (forall s :: s in r.sends ==>
            s.to.Client? && s.to.name in r.server.reg.clients
            && s.pdu == LoginEventPdu(request.userName, RegisteredNames(server.reg)))
      && (forall n :: n in r.server.reg.clients ==>
            Send(Client(n), LoginEventPdu(request.userName, RegisteredNames(server.reg))) in r.sends)
    ensures request.userName in server.reg.clients ==>
      if Requester in down then r.Terminated?
      else r == Next(session, server, {Send(Requester, LoginErrorResponsePdu(request))})
  {
    if request.userName !in server.reg.clients then
      var name := request.userName;
      var reg := CreateWaitList(Create(server.reg, name), name);
      var e := SendLoginListUpdateEvent(server.(reg := reg), LoginEventPdu(name, Names(reg)), down);
      Next(session.(userName := Some(name)), e.server, e.sends)
    else if Requester in down then
      Terminated
    else
      Next(session, server, {Send(Requester, LoginErrorResponsePdu(request))})
  }

  /** logoutRequestAction. The logout counter always grows. When the
      worker's own name is known, the requester's entry becomes
      UNREGISTERING and a logout event goes to every name; no wait list
      is created and no response is sent. */
  function LogoutRequestAction(session: Session, server: Server, request: Pdu, down: set<Conn>): (r: Outcome)
    ensures r.Next? && r.session == session
    ensures r.server.counters.logouts == server.counters.logouts + 1
    ensures r.server.counters.confirms == server.counters.confirms
    ensures !Known(session, server.reg) ==>
      r.server == server.(counters := server.counters.(logouts := server.counters.logouts + 1)) && r.sends == {}
    ensures Known(session, server.reg) ==>
      && Names(r.server.reg) == Names(server.reg)
      && r.server.reg.waitLists == server.reg.waitLists
      && (forall n :: n in server.reg.clients ==>
            && r.server.reg.clients[n].status == (if n == request.userName then Unregistering else server.reg.clients[n].status)
            && r.server.reg.clients[n].finished == server.reg.clients[n].finished
            && r.server.reg.clients[n].receivedMessages == server.reg.clients[n].receivedMessages)
      && (forall s :: s in r.sends ==>
            s.to.Client? && s.to.name in server.reg.clients
            && s.pdu == LogoutEventPdu(session.userName.value, RegisteredNames(server.reg) - {request.userName}))
      && (forall n :: n in server.reg.clients ==>
            Send(Client(n), LogoutEventPdu(session.userName.value, RegisteredNames(server.reg) - {request.userName})) in r.sends)
  {
    var counted := server.(counters := server.counters.(logouts := server.counters.logouts + 1));
    if !Known(session, server.reg) then
      Next(session, counted, {})
    else
      var event := LogoutEventPdu(session.userName.value, Names(server.reg));
      var reg := ChangeStatus(server.reg, request.userName, Unregistering);
      assert RegisteredNames(reg) == RegisteredNames(server.reg) - {request.userName};
      var e := SendLoginListUpdateEvent(counted.(reg := reg), event, down);
      Next(session, e.server, e.sends)
  }

  /** The names a chat event is sent to: every entry not UNREGISTERED. */
  function ChatTargets(reg: Registry): (r: set<string>)
    ensures forall n :: n in r <==> n in reg.clients && reg.clients[n].status != Unregistered
  {
    set n | n in reg.clients && reg.clients[n].status != Unregistered
  }

  /** chatMessageRequestAction. The sender's received-message count grows
      before the existence check. For a known sender, the worker's own
      wait list is set to every name and the event, addressed to each
      recipient, goes to every entry that is not UNREGISTERED; the
      response is deferred. */
  function ChatMessageRequestAction(session: Session, server: Server, request: Pdu, down: set<Conn>): (r: Outcome)
    ensures r.Next? && r.session == session
    ensures Names(r.server.reg) == Names(server.reg)
    ensures r.server.counters.confirms == server.counters.confirms
    ensures r.server.counters.logouts == server.counters.logouts
    ensures forall n :: n in server.reg.clients ==>
      && r.server.reg.clients[n].receivedMessages ==
           server.reg.clients[n].receivedMessages + (if n == request.userName then 1 else 0)
      && r.server.reg.clients[n].status == server.reg.clients[n].status
      && r.server.reg.clients[n].finished == server.reg.clients[n].finished
    ensures request.userName !in server.reg.clients ==> r == Next(session, server, {})
    ensures request.userName in server.reg.clients ==>
      && r.server.reg.waitLists == (if session.userName.Some?
           then server.reg.waitLists[session.userName.value := Names(server.reg)]
           else server.reg.waitLists)
      && (forall s :: s in r.sends ==>
            && s.to.Client? && s.to.name in ChatTargets(server.reg)
            && s.pdu == ChatMessageEventPdu(NameOf(session.userName), s.to.name, request))
      && (forall n :: n in ChatTargets(server.reg) ==>
            Send(Client(n), ChatMessageEventPdu(NameOf(session.userName), n, request)) in r.sends)
  {
    var reg := IncrReceivedMessages(server.reg, request.userName);
    if request.userName !in reg.clients then
      Next(session, server.(reg := reg), {})
    else
      var listed := if session.userName.Some? then CreateWaitList(reg, session.userName.value) else reg;
      var subject := NameOf(session.userName);
      var targets := ChatTargets(listed);
      var reached := Reached(targets, down);
      Next(session,
        Server(IncrSentEvents(listed, reached), server.counters.(events := server.counters.events + |reached|)),
        set n | n in targets :: Send(Client(n), ChatMessageEventPdu(subject, n, request)))
  }

  /** The part every confirm handler shares: the subject's confirm count
      and the global confirm counter grow, and the worker's own name is
      struck from the list kept for the confirm's subject. */
  function ConfirmReceipt(session: Session, server: Server, confirm: Pdu): (sv: Server)
    ensures Names(sv.reg) == Names(server.reg)
    ensures sv.counters == server.counters.(confirms := server.counters.confirms + 1)
    ensures forall n :: n in server.reg.clients ==>
      sv.reg.clients[n] == server.reg.clients[n].(receivedConfirms :=
        server.reg.clients[n].receivedConfirms + (if n == confirm.eventUserName then 1 else 0))
    ensures sv.reg.waitLists.Keys == server.reg.waitLists.Keys
    ensures forall k :: k in server.reg.waitLists ==>
      sv.reg.waitLists[k] == (if k == confirm.eventUserName
        then server.reg.waitLists[k] - OwnSet(session) else server.reg.waitLists[k])
  {
    var subject := confirm.eventUserName;
    var reg := IncrReceivedConfirms(server.reg, subject);
    var reg' := if session.userName.Some? then DeleteWaitListEntry(reg, subject, session.userName.value) else reg;
    Server(reg', server.counters.(confirms := server.counters.confirms + 1))
  }

  /** The source's release condition after the removal: the subject's
      list has size 0 and the subject's entry exists. */
  predicate Drained(reg: Registry, subject: string) {
    WaitListSize(reg, subject) == 0 && subject in reg.clients
  }

  /** The same condition read off the state before the confirm: the
      subject exists and nobody but the confirming worker is still owed. */
  predicate ReleasedBy(session: Session, reg: Registry, subject: string) {
    subject in reg.clients && (subject in reg.waitLists ==> reg.waitLists[subject] <= OwnSet(session))
  }

  lemma ReleaseCondition(session: Session, server: Server, confirm: Pdu)
    ensures Drained(ConfirmReceipt(session, server, confirm).reg, confirm.eventUserName)
      <==> ReleasedBy(session, server.reg, confirm.eventUserName)
  {
    var subject := confirm.eventUserName;
    var sv := ConfirmReceipt(session, server, confirm);
    if subject in server.reg.waitLists {
      assert sv.reg.waitLists[subject] == server.reg.waitLists[subject] - OwnSet(session);
      assert sv.reg.waitLists[subject] == {} <==> server.reg.waitLists[subject] <= OwnSet(session);
    }
  }

  /** chatMessageConfirmAction: the chat response, carrying the subject's
      received-message count, goes to the subject exactly when the
      confirm drains the subject's list; a failed send ends the process. */
  function ChatMessageConfirmAction(session: Session, server: Server, confirm: Pdu, down: set<Conn>): (r: Outcome)
    ensures r.Terminated? <==>
      ReleasedBy(session, server.reg, confirm.eventUserName) && Client(confirm.eventUserName) in down
    ensures r.Next? ==> r.session == session && r.server == ConfirmReceipt(session, server, confirm)
    ensures r.Next? ==> r.sends == (if ReleasedBy(session, server.reg, confirm.eventUserName)
      then {Send(Client(confirm.eventUserName),
                 ChatMessageResponsePdu(confirm.eventUserName, server.reg.clients[confirm.eventUserName].receivedMessages))}
      else {})
  {
    var subject := confirm.eventUserName;
    var sv := ConfirmReceipt(session, server, confirm);
    ReleaseCondition(session, server, confirm);
    if Drained(sv.reg, subject) then
      if Client(subject) in down then Terminated
      else Next(session, sv, {Send(Client(subject), ChatMessageResponsePdu(subject, sv.reg.clients[subject].receivedMessages))})
    else
      Next(session, sv, {})
  }

  /** loginConfirmAction: the login response goes to the subject exactly
      when the confirm drains the subject's list; then the worker's OWN
      name, not the subject's, is set REGISTERED. */
  function LoginConfirmAction(session: Session, server: Server, confirm: Pdu, down: set<Conn>): (r: Outcome)
    ensures r.Terminated? <==>
      ReleasedBy(session, server.reg, confirm.eventUserName) && Client(confirm.eventUserName) in down
    ensures r.Next? ==> r.session == session
    ensures r.Next? ==> r.sends == (if ReleasedBy(session, server.reg, confirm.eventUserName)
      then {Send(Client(confirm.eventUserName), LoginResponsePdu(confirm.eventUserName))} else {})
    ensures r.Next? ==>
      var sv := ConfirmReceipt(session, server, confirm);
      && r.server.counters == sv.counters && r.server.reg.waitLists == sv.reg.waitLists
      && Names(r.server.reg) == Names(server.reg)
      && forall n :: n in server.reg.clients ==>
           r.server.reg.clients[n] == (if ReleasedBy(session, server.reg, confirm.eventUserName) && session.userName == Some(n)
             then sv.reg.clients[n].(status := Registered) else sv.reg.clients[n])
  {
    var subject := confirm.eventUserName;
    var sv := ConfirmReceipt(session, server, confirm);
    ReleaseCondition(session, server, confirm);
    if Drained(sv.reg, subject) then
      if Client(subject) in down then Terminated
      else
        var reg := if session.userName.Some? then ChangeStatus(sv.reg, session.userName.value, Registered) else sv.reg;
        Next(session, sv.(reg := reg), {Send(Client(subject), LoginResponsePdu(subject))})
    else
      Next(session, sv, {})
  }

  /** sendLogoutResponse followed by finish: the subject becomes
      UNREGISTERED, gets the logout response and is marked finished; its
      entry stays. A failed send is only logged. */
  function LogoutConfirmAction(session: Session, server: Server, confirm: Pdu, down: set<Conn>): (r: Outcome)
    ensures r.Next? && r.session == session
    ensures r.sends == (if ReleasedBy(session, server.reg, confirm.eventUserName)
      then {Send(Client(confirm.eventUserName), LogoutResponsePdu(confirm.eventUserName))} else {})
    ensures
      var sv := ConfirmReceipt(session, server, confirm);
      && r.server.counters == sv.counters && r.server.reg.waitLists == sv.reg.waitLists
      && Names(r.server.reg) == Names(server.reg)
      && forall n :: n in server.reg.clients ==>
           r.server.reg.clients[n] == (if ReleasedBy(session, server.reg, confirm.eventUserName) && n == confirm.eventUserName
             then sv.reg.clients[n].(status := Unregistered, finished := true) else sv.reg.clients[n])
  {
    var subject := confirm.eventUserName;
    var sv := ConfirmReceipt(session, server, confirm);
    ReleaseCondition(session, server, confirm);
    if Drained(sv.reg, subject) then
      var reg := Finish(ChangeStatus(sv.reg, subject, Unregistered), subject);
      Next(session, sv.(reg := reg), {Send(Client(subject), LogoutResponsePdu(subject))})
    else
      Next(session, sv, {})
  }

  /** The PDU kinds the worker dispatches on. */
  predicate Dispatched(k: PduKind) {
    k == LoginRequest || k == ChatMessageRequest || k == ChatMessageConfirm
    || k == LogoutRequest || k == LoginConfirm || k == LogoutConfirm
  }

  /** The dispatch in handleIncomingMessage; any other kind is dropped. */
  function HandlePdu(session: Session, server: Server, pdu: Pdu, down: set<Conn>): (r: Outcome)
    ensures !Dispatched(pdu.kind) ==> r == Next(session, server, {})
    ensures !r.Caught?
    ensures r.Next? ==> forall s :: s in r.sends ==> s.pdu.kind != pdu.kind
  {
    match pdu.kind
    case LoginRequest => LoginRequestAction(session, server, pdu, down)
    case ChatMessageRequest => ChatMessageRequestAction(session, server, pdu, down)
    case ChatMessageConfirm => ChatMessageConfirmAction(session, server, pdu, down)
    case LogoutRequest => LogoutRequestAction(session, server, pdu, down)
    case LoginConfirm => LoginConfirmAction(session, server, pdu, down)
    case LogoutConfirm => LogoutConfirmAction(session, server, pdu, down)
    case _ => Next(session, server, {})
  }

  /** The receive part of handleIncomingMessage. End of stream, a socket
      error or any other receive failure sets finished. A timeout
      changes nothing, except that for an UNREGISTERING session the
      defensive resend dereferences the absent PDU and throws, so the
      step ends in `Caught` before anything is sent or marked. */
  function HandleReceive(session: Session, server: Server, recv: Receive, down: set<Conn>): (r: Outcome)
    ensures !recv.Received? ==> !r.Terminated? && r.server == server && r.session.userName == session.userName
    ensures !recv.Received? && r.Next? ==> r.sends == {}
    ensures (recv.EndOfFile? || recv.SocketError? || recv.Failure?) ==> r.Next? && r.session.finished
    ensures recv.Timeout? ==> r.session == session
    ensures recv.Timeout? ==> (r.Caught? <==>
      Known(session, server.reg) && server.reg.clients[session.userName.value].status == Unregistering)
    ensures recv.Received? ==> r == HandlePdu(session, server, recv.pdu, down)
  {
    match recv
    case Received(pdu) => HandlePdu(session, server, pdu, down)
    case Timeout =>
      if Known(session, server.reg) && server.reg.clients[session.userName.value].status == Unregistering
      then Caught(session, server)
      else Next(session, server, {})
    case _ => Next(session.(finished := true), server, {})
  }

  /** The result of the deletability check: whether the worker stops
      before receiving, and the updated state. */
  datatype Check = Check(stop: bool, session: Session, server: Server)

  /** The garbage-collection half of checkIfClientIsDeletable: a sweep
      that removes the worker's own name sets finished. */
  function SweepStep(session: Session, server: Server): (c: Check)
    ensures c.stop <==> session.userName.Some? && Deletable(server.reg, session.userName.value)
    ensures c.stop ==> c.session.finished
    ensures !c.stop ==> c.session == session
    ensures c.session.userName == session.userName
    ensures c.server.counters == server.counters && c.server.reg.waitLists == server.reg.waitLists
    ensures forall n :: n in c.server.reg.clients <==> n in server.reg.clients && !Deletable(server.reg, n)
    ensures forall n :: n in c.server.reg.clients ==> c.server.reg.clients[n] == server.reg.clients[n]
  {
    var (reg, deleted) := GarbageCollect(server.reg);
    if session.userName.Some? && session.userName.value in deleted then
      Check(true, session.(finished := true), server.(reg := reg))
    else
      Check(false, session, server.(reg := reg))
  }

  /** checkIfClientIsDeletable: a finished own entry that no list waits
      on is deleted and the worker stops this round (without setting
      finished); otherwise a garbage-collection sweep runs. */
  function CheckIfClientIsDeletable(session: Session, server: Server): (c: Check)
    ensures c.session.userName == session.userName
    ensures c.server.counters == server.counters && c.server.reg.waitLists == server.reg.waitLists
    ensures Names(c.server.reg) <= Names(server.reg)
    ensures forall n :: n in server.reg.clients && n !in c.server.reg.clients ==> Deletable(server.reg, n)
    ensures forall n :: n in c.server.reg.clients ==> c.server.reg.clients[n] == server.reg.clients[n]
    ensures session.userName.Some? && Deletable(server.reg, session.userName.value) ==>
      c.stop && session.userName.value !in c.server.reg.clients
    ensures c.stop ==> c.session.finished || (Known(session, server.reg) && !Known(session, c.server.reg))
    ensures !c.stop ==> c.session == session
    ensures c.stop <==> session.userName.Some? && Deletable(server.reg, session.userName.value)
    ensures !c.stop ==> forall n :: n in c.server.reg.clients <==> n in server.reg.clients && !Deletable(server.reg, n)
  {
    if session.userName.Some? && session.userName.value in server.reg.clients
       && server.reg.clients[session.userName.value].finished
    then
      var (reg, deleted) := DeleteClient(server.reg, session.userName.value);
      if deleted then Check(true, session, server.(reg := reg))
      else SweepStep(session, server)
    else
      SweepStep(session, server)
  }

  /** handleIncomingMessage: the deletability check, then (unless it
      stops the round) one receive and its handling. */
  function HandleIncomingMessage(session: Session, server: Server, recv: Receive, down: set<Conn>): (r: Outcome)
    ensures r.Caught? ==> recv.Timeout?
    ensures !recv.Received? ==> !r.Terminated? && (r.Next? ==> r.sends == {})
    ensures !recv.Received? ==> r.server.counters == server.counters && r.server.reg.waitLists == server.reg.waitLists
  {
    var c := CheckIfClientIsDeletable(session, server);
    if c.stop then Next(c.session, c.server, {})
    else HandleReceive(c.session, c.server, recv, down)
  }

  /** closeConnection: the worker's own entry is deleted whatever its
      state; nothing else changes. */
  function CloseConnection(session: Session, server: Server): (r: Server)
    ensures forall n :: n in r.reg.clients <==> n in server.reg.clients && session.userName != Some(n)
    ensures forall n :: n in r.reg.clients ==> r.reg.clients[n] == server.reg.clients[n]
    ensures r.reg.waitLists == server.reg.waitLists && r.counters == server.counters
  {
    if Known(session, server.reg) then server.(reg := DeleteWithoutCondition(server.reg, session.userName.value))
    else server
  }

  /** The end of a run: closed after the loop, waiting for more input,
      or the process ended. */
  datatype RunResult = Closed(session: Session, server: Server) | Pending(session: Session, server: Server) | Halted

  function RunMeasure(session: Session, server: Server): nat {
    (if session.finished then 0 else 1) + (if Known(session, server.reg) then 1 else 0)
  }

  /** run: handleIncomingMessage until finished, consuming one receive
      outcome per round that reaches the receive, then closeConnection. */
  function Run(session: Session, server: Server, inputs: seq<Receive>, down: set<Conn>): (r: RunResult)
    decreases |inputs|, RunMeasure(session, server)
    ensures r.Closed? ==> r.session.finished && forall n :: r.session.userName == Some(n) ==> n !in r.server.reg.clients
    ensures r.Closed? && session.finished ==> r.session == session
    ensures r.Pending? ==> !r.session.finished
  {
    if session.finished then
      Closed(session, CloseConnection(session, server))
    else
      var c := CheckIfClientIsDeletable(session, server);
      if c.stop then
        Run(c.session, c.server, inputs, down)
      else if inputs == [] then
        Pending(c.session, c.server)
      else
        match HandleReceive(c.session, c.server, inputs[0], down)
        case Next(s, sv, _) => Run(s, sv, inputs[1..], down)
        case Caught(s, sv) => Run(s, sv, inputs[1..], down)
        case Terminated => Halted
  }

  /** A round of the loop is exactly handleIncomingMessage: a round the
      deletability check stops consumes no input and goes on from the
      checked state; any other round consumes one receive outcome and
      goes on from the state handleIncomingMessage leaves. */
  lemma RunFollowsRounds(session: Session, server: Server, inputs: seq<Receive>, down: set<Conn>)
    requires !session.finished && inputs != []
    ensures var c := CheckIfClientIsDeletable(session, server);
      c.stop ==> Run(session, server, inputs, down) == Run(c.session, c.server, inputs, down)
    ensures var c := CheckIfClientIsDeletable(session, server);
      var h := HandleIncomingMessage(session, server, inputs[0], down);
      !c.stop ==>
        Run(session, server, inputs, down) ==
          (if h.Terminated? then Halted else Run(h.session, h.server, inputs[1..], down))
  {
  }
}
