/** Types shared by the server-side session worker and the client-side
    message listener of the chat protocol: the conversation status, the
    protocol data unit (PDU), the outcome of one receive call, and the
    PDU factories both sides use to build responses, events and confirms. */
module Protocol {

  datatype Option<T> = None | Some(value: T)

  /** The conversation status of one client, on the server and on the client. */
  datatype Status = Unregistered | Registering | Registered | Unregistering

  /** The PDU kinds the two state machines tell apart. `Other` stands for
      every kind neither side dispatches on. A login that the server
      refuses is answered with a `LoginResponse` carrying `LoginError`. */
  datatype PduKind =
    | LoginRequest | LoginResponse | LoginEvent | LoginConfirm
    | LogoutRequest | LogoutResponse | LogoutEvent | LogoutConfirm
    | ChatMessageRequest | ChatMessageResponse | ChatMessageEvent | ChatMessageConfirm
    | Other

  /** Error codes carried by a PDU. */
  const NoError: int := 0
  const LoginError: int := 1

  /** One protocol message. `userName` is the acting user (or the
      recipient of a chat event), `eventUserName` the subject whose
      login, logout or chat message caused a broadcast, and `clients`
      the roster carried by login and logout events. Timing fields and
      thread names are opaque and left out. */
  datatype Pdu = Pdu(
    kind: PduKind,
    userName: string,
    eventUserName: string,
    sequenceNumber: int,
    clients: set<string>,
    errorCode: int,
    message: string)

  /** The outcome of one blocking receive on a connection. */
  datatype Receive = Received(pdu: Pdu) | Timeout | EndOfFile | SocketError | Failure

  predicate IsEvent(k: PduKind) {
    k == LoginEvent || k == LogoutEvent || k == ChatMessageEvent
  }

  /** The confirm kind a client answers an event kind with. */
  function ConfirmKindFor(k: PduKind): (c: PduKind)
    requires IsEvent(k)
    ensures c == LoginConfirm || c == LogoutConfirm || c == ChatMessageConfirm
  {
    match k
    case LoginEvent => LoginConfirm
    case LogoutEvent => LogoutConfirm
    case ChatMessageEvent => ChatMessageConfirm
  }

  // PDU factories. The factory bodies are not part of this model; each
  // builds a PDU of its kind from the names it is given.

  function LoginEventPdu(subject: string, roster: set<string>): Pdu {
    Pdu(LoginEvent, subject, subject, 0, roster, NoError, "")
  }

  function LogoutEventPdu(subject: string, roster: set<string>): Pdu {
    Pdu(LogoutEvent, subject, subject, 0, roster, NoError, "")
  }

  /** The chat event for one recipient: the event PDU is re-addressed to
      each recipient before it is sent. */
  function ChatMessageEventPdu(subject: string, recipient: string, request: Pdu): Pdu {
    Pdu(ChatMessageEvent, recipient, subject, request.sequenceNumber, {}, NoError, request.message)
  }

  function LoginErrorResponsePdu(request: Pdu): Pdu {
    Pdu(LoginResponse, request.userName, "", 0, {}, LoginError, "")
  }

  function LoginResponsePdu(subject: string): Pdu {
    Pdu(LoginResponse, subject, subject, 0, {}, NoError, "")
  }

  /** The deferred chat response carries the subject's count of received
      chat messages as its sequence number; the client compares it with
      its own message counter. */
  function ChatMessageResponsePdu(subject: string, receivedMessages: nat): Pdu {
    Pdu(ChatMessageResponse, subject, subject, receivedMessages, {}, NoError, "")
  }

  function LogoutResponsePdu(subject: string): Pdu {
    Pdu(LogoutResponse, subject, subject, 0, {}, NoError, "")
  }

  /** A confirm names the confirming user and copies the subject and the
      sequence number of the event it acknowledges. */
  function ConfirmPdu(self: string, event: Pdu): (c: Pdu)
    requires IsEvent(event.kind)
    ensures c.kind == ConfirmKindFor(event.kind)
    ensures c.userName == self && c.eventUserName == event.eventUserName
  {
    Pdu(ConfirmKindFor(event.kind), self, event.eventUserName, event.sequenceNumber, {}, NoError, "")
  }
}
