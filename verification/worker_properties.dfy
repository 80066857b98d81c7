/** Properties of the server-side session worker that relate several
    steps, or a step to an invariant: the wait-list drain releases the
    deferred response exactly once, every step keeps the registry
    invariant and never lowers a counter, and the behaviour of the
    worker as written where it departs from the protocol's intent. */
module WorkerProperties {
  import opened Protocol
  import opened ClientList
  import opened ChatWorker

  predicate IsConfirm(k: PduKind) {
    k == LoginConfirm || k == LogoutConfirm || k == ChatMessageConfirm
  }

  /** The confirm a client sends, on its own connection, for an event
      about `subject`. The worker's confirm handlers read only the kind
      and the subject of a confirm; this builder fixes the other fields
      to neutral values, so that a confirm is named by its kind alone and
      not by the event it answers, as `Protocol.ConfirmPdu` builds it. */
  function ConfirmFrom(kind: PduKind, self: string, subject: string): Pdu {
    Pdu(kind, self, subject, 0, {}, NoError, "")
  }

  /** The worker serving `name`. */
  function WorkerOf(name: string): Session {
    Session(Some(name), false)
  }

  function Elems(cs: seq<string>): set<string> {
    set c | c in cs
  }

  predicate Distinct(cs: seq<string>) {
    forall i, j :: 0 <= i < j < |cs| ==> cs[i] != cs[j]
  }

  /** The state after a run of confirms and the number of PDUs sent. */
  datatype Tally = Tally(server: Server, sent: nat)

  /** The confirm handler of one kind, as the step a confirming worker
      takes: the worker serving `c` handles c's confirm for `subject`. */
  function ConfirmHandler(kind: PduKind, subject: string): (Server, string) -> Outcome {
    (sv: Server, c: string) => HandlePdu(WorkerOf(c), sv, ConfirmFrom(kind, c, subject), {})
  }

  /** What the fan-in argument needs of one confirm step while the
      subject and its list exist: it goes on, strikes exactly the
      confirmer from the list, and sends one PDU exactly when the
      confirmer was the last one owed. */
  ghost predicate StrikesConfirmer(step: (Server, string) -> Outcome, subject: string) {
    forall sv: Server, c: string {:trigger step(sv, c)} ::
      subject in sv.reg.clients && subject in sv.reg.waitLists ==>
        && step(sv, c).Next?
        && subject in step(sv, c).server.reg.clients && subject in step(sv, c).server.reg.waitLists
        && step(sv, c).server.reg.waitLists[subject] == sv.reg.waitLists[subject] - {c}
        && |step(sv, c).sends| == (if sv.reg.waitLists[subject] <= {c} then 1 else 0)
  }

  /** Confirms handled in order by the workers of `confirmers`. */
  function ConfirmRun(step: (Server, string) -> Outcome, server: Server, confirmers: seq<string>): Tally
    decreases |confirmers|
  {
    if confirmers == [] then Tally(server, 0)
    else
      match step(server, confirmers[0])
      case Next(_, sv, sends) =>
        var t := ConfirmRun(step, sv, confirmers[1..]);
        Tally(t.server, t.sent + |sends|)
      case _ => Tally(server, 0)
  }

  /** One confirm by any worker strikes exactly that worker from the
      subject's list and sends one PDU exactly when it was the last one
      owed; the same holds for the three confirm kinds. */
  lemma ConfirmStep(kind: PduKind, server: Server, subject: string, c: string)
    requires IsConfirm(kind)
    requires subject in server.reg.clients && subject in server.reg.waitLists
    ensures var r := HandlePdu(WorkerOf(c), server, ConfirmFrom(kind, c, subject), {});
      && r.Next?
      && subject in r.server.reg.clients && subject in r.server.reg.waitLists
      && r.server.reg.waitLists[subject] == server.reg.waitLists[subject] - {c}
      && |r.sends| == (if server.reg.waitLists[subject] <= {c} then 1 else 0)
      && forall s :: s in r.sends ==> s.to == Client(subject) && s.pdu.userName == subject
  {
    var confirm := ConfirmFrom(kind, c, subject);
    var sv := ConfirmReceipt(WorkerOf(c), server, confirm);
    assert OwnSet(WorkerOf(c)) == {c};
    assert sv.reg.waitLists[subject] == server.reg.waitLists[subject] - {c};
  }

  lemma ConfirmHandlerStrikes(kind: PduKind, subject: string)
    requires IsConfirm(kind)
    ensures StrikesConfirmer(ConfirmHandler(kind, subject), subject)
  {
    forall sv: Server, c: string | subject in sv.reg.clients && subject in sv.reg.waitLists
      ensures var r := ConfirmHandler(kind, subject)(sv, c);
        && r.Next?
        && subject in r.server.reg.clients && subject in r.server.reg.waitLists
        && r.server.reg.waitLists[subject] == sv.reg.waitLists[subject] - {c}
        && |r.sends| == (if sv.reg.waitLists[subject] <= {c} then 1 else 0)
    {
      ConfirmStep(kind, sv, subject, c);
    }
  }

  lemma ElemsCons(cs: seq<string>)
    requires cs != []
    ensures Elems(cs) == {cs[0]} + Elems(cs[1..])
    ensures Distinct(cs) ==> cs[0] !in Elems(cs[1..]) && Distinct(cs[1..])
  {
    var rest := cs[1..];
    forall x | x in Elems(cs) ensures x in {cs[0]} + Elems(rest) {
      var i :| 0 <= i < |cs| && cs[i] == x;
      if i > 0 { assert rest[i - 1] == x; }
    }
    if Distinct(cs) {
      forall i | 0 <= i < |rest| ensures rest[i] != cs[0] {
        assert rest[i] == cs[i + 1];
      }
      forall i, j | 0 <= i < j < |rest| ensures rest[i] != rest[j] {
        assert rest[i] == cs[i + 1] && rest[j] == cs[j + 1];
      }
    }
  }

  lemma EmptyElems(cs: seq<string>)
    ensures Elems(cs) == {} <==> cs == []
  {
    if cs != [] {
      assert cs[0] in Elems(cs);
    }
  }

  /** The fan-in argument for any step that strikes the confirmer. */
  lemma {:induction false} DrainByStrikes(step: (Server, string) -> Outcome, server: Server, subject: string, cs: seq<string>)
    requires StrikesConfirmer(step, subject)
    requires subject in server.reg.clients && subject in server.reg.waitLists
    requires server.reg.waitLists[subject] != {}
    requires Distinct(cs) && Elems(cs) <= server.reg.waitLists[subject]
    decreases |cs|
    ensures var t := ConfirmRun(step, server, cs);
      && subject in t.server.reg.clients && subject in t.server.reg.waitLists
      && t.server.reg.waitLists[subject] == server.reg.waitLists[subject] - Elems(cs)
      && t.sent == (if Elems(cs) == server.reg.waitLists[subject] then 1 else 0)
  {
    var w := server.reg.waitLists[subject];
    if cs == [] {
      assert Elems(cs) == {};
    } else {
      var c := cs[0];
      var rest := cs[1..];
      ElemsCons(cs);
      var r := step(server, c);
      if w <= {c} {
        // c was the last one owed, so nobody follows it.
        assert Elems(rest) == {};
        EmptyElems(rest);
      } else {
        DrainByStrikes(step, r.server, subject, rest);
        assert Elems(rest) == w - {c} <==> Elems(cs) == w;
      }
    }
  }

  /** A run over a concatenation is the run over the first part
      continued by the run over the second. */
  lemma {:induction false} ConfirmRunAppend(step: (Server, string) -> Outcome, server: Server, subject: string, cs: seq<string>, ds: seq<string>)
    requires StrikesConfirmer(step, subject)
    requires subject in server.reg.clients && subject in server.reg.waitLists
    decreases |cs|
    ensures var mid := ConfirmRun(step, server, cs);
      var last := ConfirmRun(step, mid.server, ds);
      ConfirmRun(step, server, cs + ds) == Tally(last.server, mid.sent + last.sent)
  {
    if cs == [] {
      assert cs + ds == ds;
    } else {
      var r := step(server, cs[0]);
      assert (cs + ds)[0] == cs[0];
      assert (cs + ds)[1..] == cs[1..] + ds;
      ConfirmRunAppend(step, r.server, subject, cs[1..], ds);
    }
  }

  /** The central fan-in property: when distinct workers that are all on
      the subject's wait list send confirms of one kind, in any order,
      the list loses exactly them, and the deferred response is sent
      once if they cover the whole list and not at all otherwise: never
      early, never twice. */
  lemma DrainRespondsOnce(kind: PduKind, server: Server, subject: string, cs: seq<string>)
    requires IsConfirm(kind)
    requires subject in server.reg.clients && subject in server.reg.waitLists
    requires server.reg.waitLists[subject] != {}
    requires Distinct(cs) && Elems(cs) <= server.reg.waitLists[subject]
    ensures var t := ConfirmRun(ConfirmHandler(kind, subject), server, cs);
      && subject in t.server.reg.clients && subject in t.server.reg.waitLists
      && t.server.reg.waitLists[subject] == server.reg.waitLists[subject] - Elems(cs)
      && t.sent == (if Elems(cs) == server.reg.waitLists[subject] then 1 else 0)
  {
    ConfirmHandlerStrikes(kind, subject);
    DrainByStrikes(ConfirmHandler(kind, subject), server, subject, cs);
  }

  /** As written, a drained list is neither removed nor guarded: once
      every listed worker has confirmed, one more confirm from any of
      them sends the response a second time. */
  lemma DuplicateConfirmRespondsTwice(kind: PduKind, server: Server, subject: string, cs: seq<string>, again: string)
    requires IsConfirm(kind)
    requires subject in server.reg.clients && subject in server.reg.waitLists
    requires server.reg.waitLists[subject] != {}
    requires Distinct(cs) && Elems(cs) == server.reg.waitLists[subject]
    ensures ConfirmRun(ConfirmHandler(kind, subject), server, cs + [again]).sent == 2
  {
    var step := ConfirmHandler(kind, subject);
    ConfirmHandlerStrikes(kind, subject);
    DrainByStrikes(step, server, subject, cs);
    var mid := ConfirmRun(step, server, cs);
    ConfirmRunAppend(step, server, subject, cs, [again]);
    assert mid.server.reg.waitLists[subject] == {};
    var r := step(mid.server, again);
    assert [again][1..] == [];
    assert ConfirmRun(step, mid.server, [again]) == Tally(r.server, |r.sends|);
  }

  /** As written, a logout request creates no wait list of its own: a
      logout confirm strikes the subject's OLD list, the one left by its
      login or its last chat message. When that old list has already
      drained, the first logout confirm from ANY worker, while every other
      peer still owes one, releases the logout response, and the subject
      becomes UNREGISTERED and finished. */
  lemma LogoutReleasedByFirstConfirm(session: Session, server: Server, down: set<Conn>, c: string)
    requires Known(session, server.reg)
    requires WaitListSize(server.reg, session.userName.value) == 0
    ensures var subject := session.userName.value;
      var r1 := LogoutRequestAction(session, server, Pdu(LogoutRequest, subject, "", 0, {}, NoError, ""), down);
      var r2 := HandlePdu(WorkerOf(c), r1.server, ConfirmFrom(LogoutConfirm, c, subject), down);
      && r1.sends != {}
      && r1.server.reg.waitLists == server.reg.waitLists
      && r2.Next?
      && r2.sends == {Send(Client(subject), LogoutResponsePdu(subject))}
      && subject in r2.server.reg.clients
      && r2.server.reg.clients[subject].status == Unregistered
      && r2.server.reg.clients[subject].finished
  {
    var subject := session.userName.value;
    var r1 := LogoutRequestAction(session, server, Pdu(LogoutRequest, subject, "", 0, {}, NoError, ""), down);
    assert Send(Client(subject), LogoutEventPdu(subject, RegisteredNames(server.reg) - {subject})) in r1.sends;
    assert ReleasedBy(WorkerOf(c), r1.server.reg, subject);
  }

  /** The other half: when the subject's old list still waits on someone
      other than the confirming worker, a logout confirm releases nothing,
      and the subject keeps its status and stays unfinished. */
  lemma LogoutHeldByPendingList(session: Session, server: Server, down: set<Conn>, c: string, owed: string)
    requires Known(session, server.reg)
    requires session.userName.value in server.reg.waitLists
    requires owed in server.reg.waitLists[session.userName.value] && owed != c
    ensures var subject := session.userName.value;
      var r1 := LogoutRequestAction(session, server, Pdu(LogoutRequest, subject, "", 0, {}, NoError, ""), down);
      var r2 := HandlePdu(WorkerOf(c), r1.server, ConfirmFrom(LogoutConfirm, c, subject), down);
      && r2.Next?
      && r2.sends == {}
      && r2.server.reg.clients[subject].status == Unregistering
      && r2.server.reg.clients[subject].finished == server.reg.clients[subject].finished
  {
    var subject := session.userName.value;
    var r1 := LogoutRequestAction(session, server, Pdu(LogoutRequest, subject, "", 0, {}, NoError, ""), down);
    assert owed in r1.server.reg.waitLists[subject];
    assert !ReleasedBy(WorkerOf(c), r1.server.reg, subject);
  }

  /** As written, the confirm that drains a login list sets the
      CONFIRMING worker's own name REGISTERED: when that worker is not
      the subject, the subject receives its login response but keeps
      the status it had, and the confirmer is set REGISTERED whatever it
      was before. */
  lemma LoginDrainRegistersConfirmer(server: Server, subject: string, c: string, down: set<Conn>)
    requires subject in server.reg.clients && c in server.reg.clients && c != subject
    requires subject in server.reg.waitLists && server.reg.waitLists[subject] == {c}
    requires Client(subject) !in down
    ensures var r := HandlePdu(WorkerOf(c), server, ConfirmFrom(LoginConfirm, c, subject), down);
      && r.Next?
      && r.sends == {Send(Client(subject), LoginResponsePdu(subject))}
      && r.server.reg.clients[c].status == Registered
      && r.server.reg.clients[subject].status == server.reg.clients[subject].status
  {
    assert ReleasedBy(WorkerOf(c), server.reg, subject);
  }

  /** A chat event skips UNREGISTERED entries, yet the wait list it
      creates names them: such an entry is owed a confirm it is never
      asked for. */
  lemma ChatListIncludesUnnotified(session: Session, server: Server, request: Pdu, down: set<Conn>, n: string)
    requires session.userName.Some? && request.userName in server.reg.clients
    requires n in server.reg.clients && server.reg.clients[n].status == Unregistered
    ensures var r := ChatMessageRequestAction(session, server, request, down);
      && n in r.server.reg.waitLists[session.userName.value]
      && forall s :: s in r.sends ==> s.to != Client(n)
  {
  }

  /** In one atomic step the garbage-collection branch of the
      deletability check never fires for the worker's own name (a
      deletable own entry is taken by the first branch), so the check
      never sets finished; after the first branch deletes the entry the
      worker goes on receiving. */
  lemma DeletabilityCheckKeepsFinished(session: Session, server: Server)
    ensures CheckIfClientIsDeletable(session, server).session == session
  {
  }

  /** As written: when the first branch of the check deletes the
      worker's own entry, it reports a stop without setting the finished
      flag. The loop therefore does not end; it goes on from the same
      session, now without an entry, and with no input left it waits in
      the receive. */
  lemma OwnDeletionLeavesWorkerReceiving(session: Session, server: Server, inputs: seq<Receive>, down: set<Conn>)
    requires session.userName.Some? && !session.finished
    requires Deletable(server.reg, session.userName.value)
    ensures var c := CheckIfClientIsDeletable(session, server);
      && c.stop && c.session == session
      && session.userName.value !in c.server.reg.clients
      && Run(session, server, inputs, down) == Run(session, c.server, inputs, down)
    ensures var r := Run(session, server, [], down);
      r.Pending? && r.session == session && session.userName.value !in r.server.reg.clients
  {
  }

  /** Every step keeps the invariant that UNREGISTERED entries are
      finished. */
  lemma HandlePduKeepsInvariant(session: Session, server: Server, pdu: Pdu, down: set<Conn>)
    requires UnregisteredAreFinished(server.reg)
    ensures var r := HandlePdu(session, server, pdu, down);
      r.Next? ==> UnregisteredAreFinished(r.server.reg)
  {
    var r := HandlePdu(session, server, pdu, down);
    if r.Next? {
      forall n | n in r.server.reg.clients && r.server.reg.clients[n].status == Unregistered
        ensures r.server.reg.clients[n].finished
      {
        assert n in server.reg.clients || (pdu.kind == LoginRequest && n == pdu.userName);
      }
    }
  }

  lemma HandleIncomingKeepsInvariant(session: Session, server: Server, recv: Receive, down: set<Conn>)
    requires UnregisteredAreFinished(server.reg)
    ensures var r := HandleIncomingMessage(session, server, recv, down);
      (r.Next? || r.Caught?) ==> UnregisteredAreFinished(r.server.reg)
  {
    var c := CheckIfClientIsDeletable(session, server);
    if !c.stop && recv.Received? {
      HandlePduKeepsInvariant(c.session, c.server, recv.pdu, down);
    }
  }

  /** A whole run of the worker keeps the invariant. */
  lemma {:induction false} RunKeepsInvariant(session: Session, server: Server, inputs: seq<Receive>, down: set<Conn>)
    requires UnregisteredAreFinished(server.reg)
    decreases |inputs|, RunMeasure(session, server)
    ensures var r := Run(session, server, inputs, down);
      !r.Halted? ==> UnregisteredAreFinished(r.server.reg)
  {
    if !session.finished {
      var c := CheckIfClientIsDeletable(session, server);
      if c.stop {
        RunKeepsInvariant(c.session, c.server, inputs, down);
      } else if inputs != [] {
        var h := HandleReceive(c.session, c.server, inputs[0], down);
        if inputs[0].Received? {
          HandlePduKeepsInvariant(c.session, c.server, inputs[0].pdu, down);
        }
        if !h.Terminated? {
          RunKeepsInvariant(h.session, h.server, inputs[1..], down);
        }
      }
    }
  }

  /** No counter, global or per entry, ever goes down. */
  predicate Grows(a: Server, b: Server) {
    && a.counters.events <= b.counters.events
    && a.counters.confirms <= b.counters.confirms
    && a.counters.logouts <= b.counters.logouts
    && forall n :: n in a.reg.clients && n in b.reg.clients ==>
         && a.reg.clients[n].receivedMessages <= b.reg.clients[n].receivedMessages
         && a.reg.clients[n].sentEvents <= b.reg.clients[n].sentEvents
         && a.reg.clients[n].receivedConfirms <= b.reg.clients[n].receivedConfirms
  }

  lemma LoginRequestGrows(session: Session, server: Server, pdu: Pdu, down: set<Conn>)
    ensures var r := LoginRequestAction(session, server, pdu, down);
      r.Next? ==> Grows(server, r.server)
  {
    if pdu.userName !in server.reg.clients {
      var reg := CreateWaitList(Create(server.reg, pdu.userName), pdu.userName);
      var e := SendLoginListUpdateEvent(server.(reg := reg), LoginEventPdu(pdu.userName, Names(reg)), down);
      assert Grows(server, server.(reg := reg));
      assert Grows(server.(reg := reg), e.server);
    }
  }

  lemma ChatRequestGrows(session: Session, server: Server, pdu: Pdu, down: set<Conn>)
    ensures Grows(server, ChatMessageRequestAction(session, server, pdu, down).server)
  {
  }

  lemma LogoutRequestGrows(session: Session, server: Server, pdu: Pdu, down: set<Conn>)
    ensures Grows(server, LogoutRequestAction(session, server, pdu, down).server)
  {
  }

  lemma ConfirmGrows(session: Session, server: Server, pdu: Pdu, down: set<Conn>)
    ensures var sv := ConfirmReceipt(session, server, pdu);
      && Grows(server, sv)
      && (LoginConfirmAction(session, server, pdu, down).Next? ==> Grows(server, LoginConfirmAction(session, server, pdu, down).server))
      && Grows(server, LogoutConfirmAction(session, server, pdu, down).server)
      && (ChatMessageConfirmAction(session, server, pdu, down).Next? ==> Grows(server, ChatMessageConfirmAction(session, server, pdu, down).server))
  {
  }

  /** A worker that logs in first and alone: its own login event is the
      only one, its own confirm drains the list, and it receives its
      login response and becomes REGISTERED. */
  lemma SoloLogin(a: string)
    ensures var r1 := HandleIncomingMessage(FreshSession, Server(Empty, Counters(0, 0, 0)),
                                            Received(Pdu(LoginRequest, a, "", 0, {}, NoError, "")), {});
      && r1.Next?
      && r1.session == WorkerOf(a)
      && r1.server.reg.waitLists == map[a := {a}]
      && r1.sends == {Send(Client(a), LoginEventPdu(a, {}))}
      && var r2 := HandleIncomingMessage(r1.session, r1.server, Received(ConfirmFrom(LoginConfirm, a, a)), {});
         && r2.Next?
         && r2.server.reg.clients[a].status == Registered
         && r2.sends == {Send(Client(a), LoginResponsePdu(a))}
  {
    var s0 := Server(Empty, Counters(0, 0, 0));
    var request := Pdu(LoginRequest, a, "", 0, {}, NoError, "");
    var r1 := HandleIncomingMessage(FreshSession, s0, Received(request), {});
    assert r1 == LoginRequestAction(FreshSession, s0, request, {});
    assert Names(r1.server.reg) == {a};
    assert RegisteredNames(s0.reg) == {};
    assert r1.sends == {Send(Client(a), LoginEventPdu(a, {}))};
    assert r1.session == WorkerOf(a);
    var c := CheckIfClientIsDeletable(r1.session, r1.server);
    assert !c.stop && c.server == r1.server;
    assert ReleasedBy(WorkerOf(a), r1.server.reg, a);
  }
}
