# Confirm-then-respond chat protocol, modelled in Dafny

This project models the two halves of the chat protocol's confirm-then-respond
state machine.

- **The server-side session worker** (`AdvancedChatWorkerThreadImpl`). There is
  one worker per client connection, driving login, chat-message and logout
  exchanges. A request does not get its response at request time. Instead the
  worker fans an event out to the peers and records, in a *wait list* keyed by
  the event's subject, the names that still owe a confirm. The worker that
  handles the confirm which drains the list sends the deferred response to the
  subject.
- **The client-side message listener** (`AdvancedMessageListenerThreadImpl`).
  It is a table from (client status, PDU kind) to an action. Each action
  changes the status, the event and confirm counters, the send lock or the
  finished flag, and answers every event with one confirm.

Each incoming message is handled as one atomic step, so both halves are pure
transition functions over immutable data.

| file | module | contents |
|---|---|---|
| `protocol.dfy` | `Protocol` | statuses, PDU kinds, the PDU record, receive outcomes, PDU factories |
| `client_list.dfy` | `ClientList` | the shared client registry: entries by name, and wait lists by subject |
| `chat_worker.dfy` | `ChatWorker` | the worker's handlers, receive handling, deletability check, close-time cleanup and run loop |
| `worker_properties.dfy` | `WorkerProperties` | the wait-list drain, the registry invariant, counter growth, behaviour as written |
| `message_listener.dfy` | `MessageListener` | the listener's actions, its dispatch table, one loop iteration and the loop |

The code of the shared registry (`SharedChatClientList`) is not modelled;
it is abstracted as follows:

- an entry holds a status, a finished flag and three counters;
- `createWaitList(n)` sets `n`'s list to the current name list;
- `deleteWaitListEntry` removes one name;
- `getWaitListSize` is 0 for a missing list;
- `deleteClient` removes only a finished entry that no list names;
- `gcClientList` removes every such entry and returns their names.

Send failures enter the server model as a parameter `down`: the set of
connections on which a send throws. The listener's sends are returned as
actions. Their success or failure changes nothing the listener keeps.

## Behaviour as written

The model follows the code where it departs from the protocol's intent. Each
departure below is stated as a lemma.

- A logout request creates no wait list of its own. A logout confirm strikes
  the subject's old list, the one left by its login or its last chat message.
  If that old list has already drained, the first logout confirm from any
  worker releases the logout response while every other peer still owes one
  (`LogoutReleasedByFirstConfirm`). If the old list still waits on someone
  other than the confirmer, the logout confirm releases nothing
  (`LogoutHeldByPendingList`).
- A drained wait list is neither removed nor guarded. One more confirm after
  the drain sends the response a second time (`DuplicateConfirmRespondsTwice`).
- On a login drain, the confirming worker's own name is set REGISTERED, not
  the subject's (`LoginDrainRegistersConfirmer`).
- A chat event skips UNREGISTERED entries. The chat wait list still names them,
  so they owe a confirm they are never asked for (`ChatListIncludesUnnotified`).
- A receive timeout for an UNREGISTERING session dereferences the absent PDU
  before it sends anything. The exception is caught and logged by the loop,
  and the state is unchanged (`ChatWorker.HandleReceive`, outcome `Caught`).
- In the atomic model, the garbage-collection branch of the deletability check
  can never report the worker's own name, because a deletable own entry is
  already taken by the first branch (`DeletabilityCheckKeepsFinished`). In the
  running program another worker can act between `deleteClient` and
  `gcClientList`; that interleaving is what the branch handles, and it is not
  modelled.
- When the first branch of the deletability check deletes the worker's own
  entry, it reports a stop without setting the finished flag. The loop does not
  end: the worker goes on from the same session with no entry in the registry,
  and it blocks in the next receive (`OwnDeletionLeavesWorkerReceiving`).
- On the client, a receive failure dispatches the last PDU received once more,
  because the variable holding it is never cleared. An event followed by a
  failure is counted and confirmed twice (`FailureRepeatsLastEvent`). This
  assumes that a failing receive throws. The receive itself lives in
  `AbstractMessageListenerThread`, which is not part of this model. If it
  returned null instead, the log line that reads the PDU's type would throw and
  end the loop, but the null check would skip the dispatch, so nothing would be
  handled twice.
- On the client, a refused login closes the connection without finishing the
  loop. The loop ends on the next, failing, receive
  (`RefusedLoginEndsOnNextReceive`).

## Model

Source paths are relative to the repository root.

| member | source | states |
|---|---|---|
| ChatWorker.SendLoginListUpdateEvent | src/main/java/edu/hm/dako/chat/server/AdvancedChatWorkerThreadImpl.java:59-88 | The event, carrying the REGISTERED names as roster, is sent to every name in the registry. A recipient whose send fails is skipped without stopping the rest. Only recipients whose send succeeds have their sent-event counts and the global event counter raised. |
| ChatWorker.LoginRequestAction | src/main/java/edu/hm/dako/chat/server/AdvancedChatWorkerThreadImpl.java:91-154 | For an unknown name: exactly one new entry, REGISTERING and unfinished; that name's wait list over every name, itself included; the worker adopts the name; a login event goes to every entry and nothing else is sent, so no login response. For a known name: registry and wait lists unchanged, and only the error response carrying LOGIN_ERROR is sent, on the requester's own connection. A failed send of that response ends the process. |
| ChatWorker.LogoutRequestAction | src/main/java/edu/hm/dako/chat/server/AdvancedChatWorkerThreadImpl.java:157-205 | The logout counter always grows by one. For an unknown worker name nothing else changes and nothing is sent. Otherwise the requester's entry becomes UNREGISTERING, no wait list is created, and a logout event goes to every entry, with the REGISTERED names minus the requester as roster. No response is sent. |
| ChatWorker.ChatMessageRequestAction | src/main/java/edu/hm/dako/chat/server/AdvancedChatWorkerThreadImpl.java:209-272 | The sender's received-message count grows by exactly one, before the existence check; no other count of received messages changes. An unknown sender changes nothing else and sends nothing. Otherwise the worker's list is set to every name, and exactly the entries that are not UNREGISTERED each get the event addressed to them. No response is sent. |
| ChatWorker.ConfirmReceipt | src/main/java/edu/hm/dako/chat/server/AdvancedChatWorkerThreadImpl.java:544-558 | Every confirm raises the subject's confirm count and the global confirm counter, and strikes the worker's own name, and nothing else, from the list kept for the confirm's subject. |
| ChatWorker.ReleaseCondition | src/main/java/edu/hm/dako/chat/server/AdvancedChatWorkerThreadImpl.java:558-563 | After the strike, the size-0-and-subject-exists test holds iff, before it, the subject existed and nobody but the confirming worker was owed. |
| ChatWorker.ChatMessageConfirmAction | src/main/java/edu/hm/dako/chat/server/AdvancedChatWorkerThreadImpl.java:544-593 | The chat response goes to the subject exactly when the confirm drains the list, and carries the subject's received-message count. A failed send of it ends the process, and only then. |
| ChatWorker.LoginConfirmAction | src/main/java/edu/hm/dako/chat/server/AdvancedChatWorkerThreadImpl.java:605-649 | The login response goes to the subject exactly when the confirm drains the list. On a drain the worker's own entry, and no other, is set REGISTERED. A failed send ends the process. |
| ChatWorker.LogoutConfirmAction | src/main/java/edu/hm/dako/chat/server/AdvancedChatWorkerThreadImpl.java:658-713 | On a drain the subject becomes UNREGISTERED, gets the logout response and is marked finished but not deleted; otherwise only the receipt's effects apply. A failed send is only logged. |
| ChatWorker.HandlePdu | src/main/java/edu/hm/dako/chat/server/AdvancedChatWorkerThreadImpl.java:476-527 | An unrecognised PDU kind changes nothing and sends nothing. No dispatched handler lets an exception escape to the loop, and no handler answers a PDU with a PDU of its own kind. |
| ChatWorker.HandleReceive | src/main/java/edu/hm/dako/chat/server/AdvancedChatWorkerThreadImpl.java:376-471 | End of stream, a socket error or any other receive failure sets finished and changes nothing else. A timeout changes nothing, except that for an UNREGISTERING session it throws before any change. A received PDU is dispatched. |
| ChatWorker.SweepStep | src/main/java/edu/hm/dako/chat/server/AdvancedChatWorkerThreadImpl.java:357-364 | The sweep removes exactly the deletable entries. It stops the worker, setting finished, iff the worker's own name was among them. |
| ChatWorker.CheckIfClientIsDeletable | src/main/java/edu/hm/dako/chat/server/AdvancedChatWorkerThreadImpl.java:332-365 | The check stops exactly when the worker's own entry is deletable, and that entry is then removed. Otherwise the garbage-collection sweep runs: exactly the deletable entries are removed and the session is unchanged. A stop means the worker finished or its own entry was just deleted. The counters and wait lists are never touched. |
| ChatWorker.HandleIncomingMessage | src/main/java/edu/hm/dako/chat/server/AdvancedChatWorkerThreadImpl.java:370-532 | An exception reaches the loop only from a timeout. A round without a PDU never ends the process, sends nothing and leaves counters and wait lists alone. |
| ChatWorker.CloseConnection | src/main/java/edu/hm/dako/chat/server/AdvancedChatWorkerThreadImpl.java:277-298 | The worker's own entry is deleted whatever its state; every other entry, the wait lists and the counters are unchanged. |
| ChatWorker.Run | src/main/java/edu/hm/dako/chat/server/AdvancedChatWorkerThreadImpl.java:36-51 | When the loop ends, the worker is finished and its own entry is gone. A worker that has not finished keeps waiting for input. |
| ChatWorker.RunFollowsRounds | src/main/java/edu/hm/dako/chat/server/AdvancedChatWorkerThreadImpl.java:39-44 | Each round of the loop is one handleIncomingMessage. A round the deletability check stops consumes no input. Any other round consumes one receive outcome and continues from the state that round leaves, unless the process ended. |
| WorkerProperties.ConfirmStep | src/main/java/edu/hm/dako/chat/server/AdvancedChatWorkerThreadImpl.java:558-561 | For any confirm kind, one confirm while the subject and its list exist strikes exactly the confirmer. It sends one PDU exactly when the confirmer was the last one owed, and every PDU it sends goes to the subject and names the subject. |
| WorkerProperties.DrainByStrikes | src/main/java/edu/hm/dako/chat/server/AdvancedChatWorkerThreadImpl.java:669-672 | Any run of distinct confirmers drawn from the list removes exactly them. The run sends exactly one response if they cover the list and none otherwise. |
| WorkerProperties.DrainRespondsOnce | src/main/java/edu/hm/dako/chat/server/AdvancedChatWorkerThreadImpl.java:615-628 | Distinct listed workers confirming in any order drain the list exactly when they cover it. One PDU is then sent: none before, and none twice within the run. By `ConfirmStep` that PDU is the response addressed to the subject. |
| WorkerProperties.DuplicateConfirmRespondsTwice | src/main/java/edu/hm/dako/chat/server/AdvancedChatWorkerThreadImpl.java:561-563 | As written: after a full drain, one more confirm sends the response a second time, because an empty list keeps passing the size-0 test. |
| WorkerProperties.LogoutReleasedByFirstConfirm | src/main/java/edu/hm/dako/chat/server/AdvancedChatWorkerThreadImpl.java:669-694 | As written: a logout request leaves the wait lists as they are. When the subject's old list has already drained, the first logout confirm from any worker releases the logout response, and the subject becomes UNREGISTERED and finished. |
| WorkerProperties.LogoutHeldByPendingList | src/main/java/edu/hm/dako/chat/server/AdvancedChatWorkerThreadImpl.java:669-672 | As written: when the subject's old list still waits on someone other than the confirmer, a logout confirm sends nothing, and the subject stays UNREGISTERING with its finished flag unchanged. |
| WorkerProperties.LoginDrainRegistersConfirmer | src/main/java/edu/hm/dako/chat/server/AdvancedChatWorkerThreadImpl.java:618-640 | As written: a login drain by another worker sets that worker REGISTERED, while the subject gets its response and keeps its status. |
| WorkerProperties.ChatListIncludesUnnotified | src/main/java/edu/hm/dako/chat/server/AdvancedChatWorkerThreadImpl.java:218-248 | As written: an UNREGISTERED entry is on the chat wait list but is sent no chat event. |
| WorkerProperties.OwnDeletionLeavesWorkerReceiving | src/main/java/edu/hm/dako/chat/server/AdvancedChatWorkerThreadImpl.java:340-350 | As written: when the worker's own unfinished entry is deletable, the check deletes it and stops without finishing. The loop goes on from the same session and, with no input, stays waiting in the receive with the entry gone. |
| WorkerProperties.DeletabilityCheckKeepsFinished | src/main/java/edu/hm/dako/chat/server/AdvancedChatWorkerThreadImpl.java:340-362 | As written, within one atomic step: the check never changes the worker's session. The garbage-collection branch never reports the worker's own name. |
| WorkerProperties.HandlePduKeepsInvariant | src/main/java/edu/hm/dako/chat/server/AdvancedChatWorkerThreadImpl.java:686-694 | Every handled PDU keeps the invariant that an UNREGISTERED entry is marked finished. |
| WorkerProperties.HandleIncomingKeepsInvariant | src/main/java/edu/hm/dako/chat/server/AdvancedChatWorkerThreadImpl.java:370-532 | Every round of the worker, including the deletability check, keeps that invariant. |
| WorkerProperties.RunKeepsInvariant | src/main/java/edu/hm/dako/chat/server/AdvancedChatWorkerThreadImpl.java:39-43 | A whole run of the worker keeps that invariant. |
| WorkerProperties.LoginRequestGrows | src/main/java/edu/hm/dako/chat/server/AdvancedChatWorkerThreadImpl.java:97-118 | A login request never lowers a global or per-entry counter. |
| WorkerProperties.ChatRequestGrows | src/main/java/edu/hm/dako/chat/server/AdvancedChatWorkerThreadImpl.java:212-238 | A chat request never lowers a global or per-entry counter. |
| WorkerProperties.LogoutRequestGrows | src/main/java/edu/hm/dako/chat/server/AdvancedChatWorkerThreadImpl.java:161-176 | A logout request never lowers a global or per-entry counter. |
| WorkerProperties.ConfirmGrows | src/main/java/edu/hm/dako/chat/server/AdvancedChatWorkerThreadImpl.java:546-548 | No confirm handler lowers a global or per-entry counter. |
| WorkerProperties.SoloLogin | src/main/java/edu/hm/dako/chat/server/AdvancedChatWorkerThreadImpl.java:605-640 | The first user to log in gets a list naming only itself and an event with an empty roster. Its own confirm drains the list, and it gets its login response and becomes REGISTERED. |
| MessageListener.LoginResponseAction | src/main/java/edu/hm/dako/chat/client/AdvancedMessageListenerThreadImpl.java:34-60 | LOGIN_ERROR sets UNREGISTERED and closes the connection; any other code sets REGISTERED and closes nothing. Nothing else changes, and the loop is not finished. |
| MessageListener.ConfirmEvent | src/main/java/edu/hm/dako/chat/client/AdvancedMessageListenerThreadImpl.java:154-178 | An event raises the event and confirm counters by exactly one each. It attempts exactly one confirm, of the matching kind, in the client's name, for the event's subject. |
| MessageListener.LoginEventAction | src/main/java/edu/hm/dako/chat/client/AdvancedMessageListenerThreadImpl.java:63-81 | A login event is counted once and answered with one login confirm, counted whether or not the send succeeds. |
| MessageListener.LogoutEventAction | src/main/java/edu/hm/dako/chat/client/AdvancedMessageListenerThreadImpl.java:101-118 | A logout event is counted once and answered with one logout confirm, counted whether or not the send succeeds. |
| MessageListener.ChatMessageEventAction | src/main/java/edu/hm/dako/chat/client/AdvancedMessageListenerThreadImpl.java:149-180 | A chat event is counted once and answered with one chat confirm, counted whether or not the send succeeds. |
| MessageListener.ChatMessageResponseAction | src/main/java/edu/hm/dako/chat/client/AdvancedMessageListenerThreadImpl.java:121-146 | The lock ends up released iff it was already released or the sequence number equals the message counter; nothing else changes. |
| MessageListener.LogoutResponseAction | src/main/java/edu/hm/dako/chat/client/AdvancedMessageListenerThreadImpl.java:83-98 | A logout response sets UNREGISTERED and finished, and changes nothing else. |
| MessageListener.Dispatch | src/main/java/edu/hm/dako/chat/client/AdvancedMessageListenerThreadImpl.java:204-324 | For every status and kind: user name and message counter are untouched, and events and confirms stay in step with each other and with the confirms sent. A status is only ever set to REGISTERED or UNREGISTERED, and only a logout response finishes the listener. |
| MessageListener.DispatchFollowsTable | src/main/java/edu/hm/dako/chat/client/AdvancedMessageListenerThreadImpl.java:206-320 | The status-first switch equals the kind-first table. Each kind is acted on in exactly its accepting statuses, by the same action in each, and discarded elsewhere. |
| MessageListener.ResponsesInOneStatus | src/main/java/edu/hm/dako/chat/client/AdvancedMessageListenerThreadImpl.java:210-292 | LOGIN_RESPONSE is acted on only in REGISTERING, CHAT_MESSAGE_RESPONSE only in REGISTERED and LOGOUT_RESPONSE only in UNREGISTERING. Only UNREGISTERED discards everything. |
| MessageListener.DispatchChangesNothingIff | src/main/java/edu/hm/dako/chat/client/AdvancedMessageListenerThreadImpl.java:235-320 | A PDU leaves status, counters, lock and finished flag unchanged, with nothing sent or closed, iff one of two things holds. Either the table discards it, or it is a chat response that mismatches the message counter or finds the lock already released. |
| MessageListener.Step | src/main/java/edu/hm/dako/chat/client/AdvancedMessageListenerThreadImpl.java:187-202 | A received PDU is dispatched and remembered. A receive failure sets finished and dispatches the remembered PDU again, if any. |
| MessageListener.FailureRepeatsLastEvent | src/main/java/edu/hm/dako/chat/client/AdvancedMessageListenerThreadImpl.java:196-202 | As written: an event followed by a receive failure is counted twice and confirmed twice. |
| MessageListener.RefusedLoginEndsOnNextReceive | src/main/java/edu/hm/dako/chat/client/AdvancedMessageListenerThreadImpl.java:36-48 | As written: a refused login closes the connection but leaves the loop running. The next, failing, receive finishes it, and the refusal dispatched again is discarded. |
| MessageListener.Run | src/main/java/edu/hm/dako/chat/client/AdvancedMessageListenerThreadImpl.java:185-336 | Over any run, the difference between events and confirms is preserved, and confirms sent equal events counted. User name and message counter are untouched, and the status is the initial one, REGISTERED or UNREGISTERED. A finished loop ends by closing the connection. |

## Left out

- The client wiring (`AdvancedClientImpl`) only starts the listener thread. It is not part of this model.
- The byte-level transport is abstracted. Sending, receiving and closing a connection, and the receive timeout value, become the outcome of one receive call (PDU, timeout, end of stream, socket error or other failure) and, on the server, the set `down` of failing connections.
- Threads and shared atomic counters are not modelled. This covers thread interruption, the one-second sleep before a logout response, and the atomicity of the counters. Each handler is one atomic step.
- Timing is not modelled: `System.nanoTime`, request start times and server-time fields, including the chat response's elapsed time.
- Presentation and diagnostics are not modelled: user-interface and server-GUI callbacks, logging, thread names, and the roster shown by the client after a login or logout event.
- The bodies of `SharedChatClientList`, `ClientListEntry` and `ChatPDU` are not part of this model. They are modelled by the abstract registry and the PDU factories described above. Login and logout times, the connection held in an entry, and PDU fields used only for timing or display are dropped.
- The process-wide per-kind event counters of the client (`loginEvents`, `logoutEvents`, `messageEvents`) are diagnostic only and are left out. The client's own event and confirm counters are modelled.
- Java's 32-bit `int` counters are modelled as unbounded naturals. Overflow after 2^31 events is not modelled.
- ChatWorker.HandleReceive: the UNREGISTERING timeout ends in an escaping exception, as written, not in a resend-and-finish. The intended defensive resend is not modelled.
- A worker with no user name yet treats registry calls on its own name as no-ops and uses an empty name in PDUs. What the registry does with a null key is not part of this model.
- `deleteClientWithoutCondition` is modelled as leaving the wait lists untouched. Whether the registry also purges them is not part of this model.
- Exceptions inside the server handlers are modelled only as far as the handlers name them. A failed send of the login error, login response or chat response ends the process through `logExceptionAndTerminate`. A failed event send in a broadcast, and a failed logout-response send, are caught and logged. Registry calls are assumed not to throw. The confirm handlers' own catch-and-log around their wait-list work, and the terminate reached from the dispatch's catch, are therefore never taken in the model.
- `AbstractMessageListenerThread`, which holds the client's receive, is not part of this model. A failing receive is taken to throw, never to return null.
- The listener's loop is modelled over a finite sequence of receive outcomes. Running out of outcomes stands for a listener still blocked in its next receive.
- The kind of the duplicate-login error response is built inside `ChatPDU`, which is not part of this model. It is modelled as a LOGIN_RESPONSE carrying LOGIN_ERROR, the only form the listener acts on.
- All commented-out blocks in both files are not behaviour and are not modelled.
