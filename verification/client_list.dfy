/** The shared client registry of the chat server (SharedChatClientList),
    modelled abstractly: a map from user name to session entry and a map
    from a broadcast's subject to the names that still owe a confirm for
    it. Every operation is one atomic step. */
module ClientList {
  import opened Protocol

  /** One session entry: status, the finished mark and its counters. */
  datatype Entry = Entry(
    status: Status,
    finished: bool,
    receivedMessages: nat,
    sentEvents: nat,
    receivedConfirms: nat)

  datatype Registry = Registry(
    clients: map<string, Entry>,
    waitLists: map<string, set<string>>)

  const Empty: Registry := Registry(map[], map[])

  /** The fresh entry a login request creates. */
  const FreshEntry: Entry := Entry(Registering, false, 0, 0, 0)

  /** getClientNameList: every name that has an entry. */
  function Names(reg: Registry): set<string> {
    reg.clients.Keys
  }

  /** getRegisteredClientNameList: the names whose status is REGISTERED. */
  function RegisteredNames(reg: Registry): (r: set<string>)
    ensures r <= Names(reg)
    ensures forall n :: n in r <==> n in reg.clients && reg.clients[n].status == Registered
  {
    set n | n in reg.clients && reg.clients[n].status == Registered
  }

  function Create(reg: Registry, name: string): (r: Registry)
    requires name !in reg.clients
    ensures Names(r) == Names(reg) + {name} && r.clients[name] == FreshEntry
    ensures forall n :: n in reg.clients ==> r.clients[n] == reg.clients[n]
    ensures r.waitLists == reg.waitLists
  {
    reg.(clients := reg.clients[name := FreshEntry])
  }

  /** changeClientStatus: a no-op for an unknown name. */
  function ChangeStatus(reg: Registry, name: string, s: Status): (r: Registry)
    ensures Names(r) == Names(reg) && r.waitLists == reg.waitLists
    ensures name in reg.clients ==> r.clients[name] == reg.clients[name].(status := s)
    ensures forall n :: n in reg.clients && n != name ==> r.clients[n] == reg.clients[n]
  {
    if name in reg.clients then reg.(clients := reg.clients[name := reg.clients[name].(status := s)])
    else reg
  }

  /** incrNumberOfReceivedChatMessages: a no-op for an unknown name. */
  function IncrReceivedMessages(reg: Registry, name: string): (r: Registry)
    ensures Names(r) == Names(reg) && r.waitLists == reg.waitLists
    ensures name in reg.clients ==>
      r.clients[name] == reg.clients[name].(receivedMessages := reg.clients[name].receivedMessages + 1)
    ensures forall n :: n in reg.clients && n != name ==> r.clients[n] == reg.clients[n]
  {
    if name in reg.clients then
      var e := reg.clients[name];
      reg.(clients := reg.clients[name := e.(receivedMessages := e.receivedMessages + 1)])
    else reg
  }

  /** incrNumberOfReceivedChatEventConfirms: a no-op for an unknown name. */
  function IncrReceivedConfirms(reg: Registry, name: string): (r: Registry)
    ensures Names(r) == Names(reg) && r.waitLists == reg.waitLists
    ensures name in reg.clients ==>
      r.clients[name] == reg.clients[name].(receivedConfirms := reg.clients[name].receivedConfirms + 1)
    ensures forall n :: n in reg.clients && n != name ==> r.clients[n] == reg.clients[n]
  {
    if name in reg.clients then
      var e := reg.clients[name];
      reg.(clients := reg.clients[name := e.(receivedConfirms := e.receivedConfirms + 1)])
    else reg
  }

  /** incrNumberOfSentChatEvents, once for each name in `names`. */
  function IncrSentEvents(reg: Registry, names: set<string>): (r: Registry)
    ensures Names(r) == Names(reg) && r.waitLists == reg.waitLists
    ensures forall n :: n in reg.clients ==>
      r.clients[n] == reg.clients[n].(sentEvents := reg.clients[n].sentEvents + (if n in names then 1 else 0))
  {
    reg.(clients := map n | n in reg.clients ::
      if n in names then reg.clients[n].(sentEvents := reg.clients[n].sentEvents + 1) else reg.clients[n])
  }

  /** finish: sets the finished mark; the entry stays. */
  function Finish(reg: Registry, name: string): (r: Registry)
    ensures Names(r) == Names(reg) && r.waitLists == reg.waitLists
    ensures name in reg.clients ==> r.clients[name] == reg.clients[name].(finished := true)
    ensures forall n :: n in reg.clients && n != name ==> r.clients[n] == reg.clients[n]
  {
    if name in reg.clients then reg.(clients := reg.clients[name := reg.clients[name].(finished := true)])
    else reg
  }

  /** createWaitList: the subject's list becomes the current name list. */
  function CreateWaitList(reg: Registry, subject: string): (r: Registry)
    ensures r.clients == reg.clients
    ensures r.waitLists == reg.waitLists[subject := Names(reg)]
  {
    reg.(waitLists := reg.waitLists[subject := Names(reg)])
  }

  /** deleteWaitListEntry: removes one name from the subject's list; a
      no-op when there is no such list or the name is not on it. */
  function DeleteWaitListEntry(reg: Registry, subject: string, name: string): (r: Registry)
    ensures r.clients == reg.clients
    ensures r.waitLists.Keys == reg.waitLists.Keys
    ensures subject in reg.waitLists ==> r.waitLists[subject] == reg.waitLists[subject] - {name}
    ensures forall k :: k in reg.waitLists && k != subject ==> r.waitLists[k] == reg.waitLists[k]
  {
    if subject in reg.waitLists then reg.(waitLists := reg.waitLists[subject := reg.waitLists[subject] - {name}])
    else reg
  }

  /** getWaitListSize: 0 when the subject has no list. */
  function WaitListSize(reg: Registry, subject: string): (r: nat)
    ensures r == 0 <==> subject !in reg.waitLists || reg.waitLists[subject] == {}
  {
    if subject in reg.waitLists then |reg.waitLists[subject]| else 0
  }

  predicate InAnyWaitList(reg: Registry, name: string) {
    exists k :: k in reg.waitLists && name in reg.waitLists[k]
  }

  /** An entry may be deleted when it is finished and no list waits on it. */
  predicate Deletable(reg: Registry, name: string) {
    name in reg.clients && reg.clients[name].finished && !InAnyWaitList(reg, name)
  }

  /** deleteClient: removes the entry only when it is deletable and
      reports whether it did. */
  function DeleteClient(reg: Registry, name: string): (r: (Registry, bool))
    ensures r.1 <==> Deletable(reg, name)
    ensures r.1 ==> Names(r.0) == Names(reg) - {name}
    ensures !r.1 ==> r.0 == reg
    ensures r.0.waitLists == reg.waitLists
    ensures forall n :: n in r.0.clients ==> n in reg.clients && r.0.clients[n] == reg.clients[n]
  {
    if Deletable(reg, name) then (reg.(clients := reg.clients - {name}), true) else (reg, false)
  }

  /** deleteClientWithoutCondition: removes the entry whatever its state;
      the wait lists are left as they are. */
  function DeleteWithoutCondition(reg: Registry, name: string): (r: Registry)
    ensures Names(r) == Names(reg) - {name}
    ensures r.waitLists == reg.waitLists
    ensures forall n :: n in r.clients ==> r.clients[n] == reg.clients[n]
  {
    reg.(clients := reg.clients - {name})
  }

  /** gcClientList: removes every deletable entry and returns the names
      it removed. */
  function GarbageCollect(reg: Registry): (r: (Registry, set<string>))
    ensures forall n :: n in r.1 <==> Deletable(reg, n)
    ensures Names(r.0) == Names(reg) - r.1
    ensures r.0.waitLists == reg.waitLists
    ensures forall n :: n in r.0.clients ==> r.0.clients[n] == reg.clients[n]
  {
    var deleted := set n | n in reg.clients && Deletable(reg, n);
    (reg.(clients := reg.clients - deleted), deleted)
  }
}
