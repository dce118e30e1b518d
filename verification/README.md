# HardLight in Dafny

HardLight is a WebSocket RPC subprotocol: a client multiplexes up to 256 calls over one
connection, the server runs each call in its own task, pushes events to subscribed connections
and keeps a copy of the connection's state on the client. This project models its three
concurrent machines and the code its macros generate, and proves what they guarantee over
whole runs.

| file | what it holds |
|---|---|
| `Wire.dfy`, `Counting.dfy` | messages and errors; counting in sequences |
| `RpcClient.dfy`, `RpcServer.dfy` | the two loops of the RPC multiplexer, each as a class over its table and as a transition function, and what each guarantees against an arbitrary peer |
| `RpcSystem.dfy`, `RpcInvariant.dfy`, `RpcGuarantees.dfy` | client, both directions of the wire, handler tasks and response queue as one machine; its invariant; the theorems over runs |
| `PubSub.dfy` | a connection's subscription table and the event switch, as classes and as functions |
| `PubSubSystem.dfy`, `PubSubInvariant.dfy`, `PubSubGuarantees.dfy` | many connections and the switch as one machine; its invariant; the theorems over runs |
| `PubSubHistory.dfy` | tables, routes and deliveries of a run told from its wishes, events and closings alone |
| `Replication.dfy`, `ReplicationGuarantees.dfy` | the generated state diff and its application; guards, spawned tasks and delivery in any order |
| `Naming.dfy`, `Calls.dfy` | method names to variants; generated dispatch and client methods, end to end through the multiplexer |

How the machines are built:

- A machine is a datatype of the program's own state and a function that takes a step; runs are
  sequences of states and steps, so every theorem covers every interleaving. The classes'
  methods are proved equal to the same step functions.
- The client's `stream.send(..).await` is a program point of its own. While the client stands
  there the request may already be on the wire, handled and answered with the slot still empty.
- The server's `biased` select among its arms is not used: any enabled arm may run, which covers
  more runs than the program has. The switch's `biased` select is used, because the
  enqueue-time theorem depends on it: a notification is worked off only when no event waits.
  The select's two polls are one atomic step here; an event enqueued between the empty poll of
  the events and the poll of the notifications is outside the model.
- Messages carry the call they stem from in a field whose type is a parameter, so no server
  code can look at it (`RpcServer.OriginsAreInert` proves that dropping it changes nothing).
- Loss is a step of its own: a handler panics (the in-flight flag stays set), a response cannot
  be encoded or sent (the flag is already cleared), a message cannot be decoded on either side.
  A client send that reports an error is taken to have put nothing on the wire. A state update
  is lost as a whole when it cannot be sent (`src/server.rs:376-378`) or decoded
  (`src/client.rs:273-287`).
- Calls into code outside the repository become parameters: serialisation with compression is
  a codec with a round-trip law and possible failure, random ids are step parameters,
  upper-casing is a function parameter. A run is *fresh* when random ids never repeat.

Where the code and its own texts differ, the model follows the code: the loop of
`snake_to_pascal_case` keeps the capitals of `foo_BAR_baz`, while the unit test at
`macros/src/lib.rs:569` expects them lowered (`Naming.SegmentsKept`); and `HandlerPanicked` is
documented at `src/wire.rs:73` but nothing produces it, so a panicked call stays unanswered.

Two properties one would expect turn out not to hold, and are pinned down exactly:

- A routed topic need not have a subscriber, and `Created` and `Removed` do not always alternate.
  When an event finds every subscriber of its topic dead and prunes them, the topic stays routed
  without a `Removed`, and the next subscriber causes a second `Created` (`PrunedTopicLingers`,
  `PrunedTopicIsCreatedTwice`). In every run a topic is routed and empty if and only if such an
  event came and no notification on the topic has been worked off since (`LingersIff`), and
  `Created` and `Removed` alternate if and only if nobody is subscribed to such an emptied topic
  (`AlternateIffNoRevival`).
- The client's state need not converge. Each write guard sends from its own task, and two
  batches on the same field can overtake each other (`ReorderingLosesAnUpdate`); after a lost
  batch the client can be in a state the server never had (`LossLeavesNoSnapshot`). At any time,
  with any order and any losses, the client is at a given server snapshot if and only if for
  each field the last batch that arrived is the last one emitted for it up to that snapshot, or
  writes the same value; where one of the two is missing, the other must write the default
  (`AtSnapshotIff`, and `ConvergesIff` for the last snapshot). Where fields never return to an
  earlier value it is exactly the last emitted batch that must arrive last
  (`ConvergesIffLastComesLast`). The client certainly converges when batches that touch a common
  field keep their order and the last one for each field arrives (`ConvergesDespiteLoss`,
  `ConvergesUnderReordering`).

## Model

| member | source | states |
|---|---|---|
| `RpcClient.FirstFree` | src/client.rs:216 | the result is a free slot with all lower ones taken, or all slots are taken |
| `RpcClient.ClientLoop.constructor` | src/client.rs:207 | 256 empty slots, nothing taken or completed |
| `RpcClient.ClientLoop.FindFree` | src/client.rs:216 | the scan finds the lowest free id |
| `RpcClient.ClientLoop.OnRequest` | src/client.rs:213-268 | taking a request, with its four outcomes, changes the array, phase and completions as the client step says and nothing else |
| `RpcClient.ClientLoop.OnWireAccepts` | src/client.rs:250-251 | the message put on the wire carries the chosen id and the call's bytes; the slot is not filled yet |
| `RpcClient.ClientLoop.OnSendFails` | src/client.rs:252-258 | a failed send completes exactly the call being sent, with `ClientNotConnected`, and leaves every slot as it was |
| `RpcClient.ClientLoop.OnSent` | src/client.rs:261-263 | only after the send the slot of the chosen id holds the call's sender |
| `RpcClient.ClientLoop.OnResponse` | src/client.rs:289-299 | a response empties its slot and completes the sender taken from it; an unknown id changes nothing |
| `RpcClient.StepKeepsAccount` | src/client.rs:211-300 | every step keeps each sender in exactly one place and the count of calls balanced |
| `RpcClient.ClientConservation` | src/client.rs:211-300 | against any server, every call taken is completed exactly once or sits in exactly one slot or is being sent; between steps received = completed + occupied |
| `RpcClient.RefusedIffFull` | src/client.rs:216-268 | `TooManyCallsInFlight` exactly when all 256 slots are occupied, otherwise the lowest free id or the error of the stage that failed; no slot changes yet |
| `RpcClient.WhyCompleted` | src/client.rs:216-299 | over every run against any server: an error no response brought is `TooManyCallsInFlight` if and only if a request met 256 taken slots, `ClientEncodeError` or `ClientCompressError` if and only if a slot was free and that stage failed, `ClientNotConnected` if and only if a send failed; a response completes the call in its slot or changes nothing |
| `RpcServer.ConnectionLoop.constructor` | src/server.rs:346-349 | no flag set, no task, no response |
| `RpcServer.ConnectionLoop.OnRequest` | src/server.rs:446-463 | an id in flight is ignored, any other is flagged and gets a task |
| `RpcServer.ConnectionLoop.OnFinish` | src/server.rs:461-463 | a handler's output is queued under its own id; the flag stays |
| `RpcServer.ConnectionLoop.OnPanic` | src/server.rs:461-463 | a task that dies sends nothing; the flag stays |
| `RpcServer.ConnectionLoop.OnResponse` | src/server.rs:365-371 | the oldest response is taken out and its flag cleared before it is sent |
| `RpcServer.ConnectionLoop.OnSendDone` | src/server.rs:373 | the loop goes on whether or not the send succeeded |
| `RpcServer.StepConsistent` | src/server.rs:365-463 | every step keeps: an id is flagged exactly when one task, queued response or panicked task has it, and never two |
| `RpcServer.ServerBound` | src/server.rs:346-463 | against any client, tasks and queued responses have distinct flagged ids, so the unbounded channel never exceeds 256; with the panics they equal the number of flags |
| `RpcServer.ResponsesInOrder` | src/server.rs:365-371 | against any client, responses are sent in the order in which the handler tasks ended, each once |
| `RpcServer.OriginsAreInert` | src/server.rs:365-463 | the server with call origins does step for step what it does without them |
| `RpcInvariant.AtMostOne` | src/wire.rs:10-14 | a call has at most one message, task or loss in the whole system |
| `RpcInvariant.RequestNotInFlight` | src/server.rs:450-453 | no request on the wire has its id in flight |
| `RpcInvariant.InFlightHolder` | src/server.rs:459 | a set flag belongs to a task, response or panicked task of the very call the client holds the id for |
| `RpcInvariant.ResponseFindsItsCall` | src/client.rs:293-299 | whenever the client reads, each response on the wire finds its own call in the slot |
| `RpcInvariant.StepInv` | src/server.rs:361-467 | every step of the joined system, losses and panics included, keeps the invariant |
| `RpcGuarantees.ResponseCompletesItsOwnCall` | src/client.rs:289-299 | in every run a response completes the call whose own bytes an earlier handler task was given, with exactly that task's output |
| `RpcGuarantees.HandlerRunsAtMostOnce` | src/server.rs:450-463 | no call's handler runs to completion twice |
| `RpcGuarantees.EveryCompletionIsEarned` | src/client.rs:210-300 | every completion is the handler's output for the call's own bytes, or a client error for a call whose handler has not run |
| `RpcGuarantees.FailsIff` | src/client.rs:216-268 | at a step that reads no response a call is completed if and only if the client fails that call for the reason its error names |
| `RpcGuarantees.ErrorHasItsCause` | src/client.rs:216-268 | in every run a completion that no handler computed goes back to such a step of that very call |
| `RpcGuarantees.SubmittedStays` | src/client.rs:213-300 | a call keeps its bytes and is for the rest of the run completed once, in one slot, or being sent |
| `RpcGuarantees.SingleToken` | src/wire.rs:10-14 | each id has at most one token anywhere; a token or flag means that one call holds the id and that every request, task, response or loss with the id stems from it; the "already in flight" and "unknown RPC call" branches are dead between conforming peers |
| `RpcGuarantees.LossAccounting` | src/client.rs:263-293 | occupied slots = calls in transit + calls lost |
| `RpcGuarantees.LossAtEveryStage` | src/server.rs:365-373 | in every reachable state each task, the response being sent and the next message of either direction can be lost |
| `RpcGuarantees.LostCallRetiresItsId` | src/server.rs:371-373 | a lost call holds its id for the rest of the connection, is never completed, and no later call gets the id |
| `RpcGuarantees.ProgressDecreases` | src/server.rs:365-463 | every step that neither starts nor loses a call strictly decreases the remaining work |
| `RpcGuarantees.QuiescentIsEmpty` | src/server.rs:365-463 | when no such step is possible nothing is in transit; occupied slots are the losses, flags the panics |
| `RpcGuarantees.ConnectionDrains` | src/client.rs:289-296 | from any reachable state the connection drains in boundedly many steps; then the occupied slots are as many as the losses and the flags as many as the panics, so all slots are free if and only if nothing was lost and all flags are clear if and only if nothing panicked |
| `PubSub.LocalSubscriptions.OnWish` | src/server.rs:392-417 | duplicates are ignored, a failed send is rolled back in both directions, and exactly the right notification is sent |
| `PubSub.TableFromWishes` | src/server.rs:392-417 | for every sequence of wishes and send failures a topic is in the table if and only if its last accepted wish is an Add, with the id of the first accepted Add since the last accepted Remove |
| `PubSub.WishesSent` | src/server.rs:392-417 | a wish reaches the switch if and only if it is accepted and changes what is wanted, as exactly one notification; an Unsubscribe carries the id the topic was opened with |
| `PubSub.ConnectionAlternates` | src/server.rs:392-417 | for every sequence of handler wishes and send failures, Subscribe and Unsubscribe alternate per topic with matching ids, and what is open is the local table |
| `PubSub.EventSwitch.SendToAll` | src/server.rs:686-691 | whatever the iteration order, each open channel gets one copy per subscription, and the failed ids are exactly those of closed channels |
| `PubSub.EventSwitch.OnEvent` | src/server.rs:684-695 | dispatch delivers to the topic's subscribers and drops those that are closed, as `DispatchDropsClosed` and `RoutedIff` pin down |
| `PubSub.EventSwitch.OnNotification` | src/server.rs:698-717 | routes and topic notifications after a Subscribe or Unsubscribe |
| `PubSub.DeliveredTo` | src/server.rs:687-691 | what one connection's channel gains from a dispatch |
| `PubSubInvariant.RoutesAfterIds` | src/server.rs:700-711 | a notification changes exactly the ids of its own topic and connection |
| `PubSubInvariant.StepInv` | src/server.rs:392-417 | every step of the joined system keeps the switch a delayed replica of the local tables |
| `PubSubGuarantees.SubscriptionAgreement` | src/server.rs:698-717 | once pending notifications are applied, no connection, open or closed, has a route that is not in its local table; the routes of open connections are exactly their tables; without pruning the routes are exactly the union of all tables |
| `PubSubGuarantees.OrderedExactlyOnce` | src/server.rs:684-695 | an open connection's channel received exactly the dispatched events whose topic it was subscribed to, in order, one copy per dispatch |
| `PubSubGuarantees.EnqueueTimeSemantics` | src/server.rs:682-698 | an event meets the subscribers its topic had when it was emitted, less only closed channels |
| `PubSubGuarantees.ReceivesIffSubscribedAtEmit` | src/server.rs:682-698 | an open connection receives a dispatched event, one copy, exactly if the switch had it subscribed when the event was emitted |
| `PubSubGuarantees.CreatorReceives` | src/server.rs:704-706 | an event emitted after Created reaches the creating subscriber if it is open and its Unsubscribe was not processed first |
| `PubSubGuarantees.RoutedIffAnnounced` | src/server.rs:700-716 | in all runs, a topic is routed exactly when its latest notification is Created |
| `PubSubGuarantees.NoRemovedTwice` | src/server.rs:708-715 | in all runs, two Removed of a topic have a Created between them |
| `PubSubGuarantees.CreatedIff` | src/server.rs:701-706 | Created is sent exactly when the topic has no other subscriber id |
| `PubSubGuarantees.AlternateIffNoRevival` | src/server.rs:692-706 | in fresh runs Created and Removed alternate if and only if no emptied topic is subscribed to again |
| `PubSubGuarantees.AnnouncementsAlternate` | src/server.rs:700-716 | in fresh runs without pruning they alternate and every routed topic has a subscriber |
| `PubSubGuarantees.LingersIff` | src/server.rs:687-694 | in every run a topic is routed without a subscriber if and only if an event found all its subscribers closed and no notification on it was worked off since; meanwhile it stays announced as created |
| `PubSubGuarantees.PrunedTopicLingers` | src/server.rs:692-694 | such a run: the topic is routed with nobody in it and no Removed was sent |
| `PubSubGuarantees.PrunedTopicIsCreatedTwice` | src/server.rs:704-706 | a fresh run in which the alternation fails |
| `PubSubHistory.TablesFromWishes` | src/server.rs:392-417 | in every run a connection's table has a topic if and only if its last accepted wish about it was an Add |
| `PubSubHistory.QuiescentRoutes` | src/server.rs:682-717 | when the switch has nothing left to do, it routes a topic to an open connection if and only if that connection's last accepted wish about it was an Add, and all emitted events have been dispatched |
| `PubSubHistory.ClosedReceivesNothing` | src/server.rs:687-691 | a closed connection's channel gets nothing any more |
| `PubSubHistory.EnvironmentIsFree` | src/server.rs:509-511 | any sequence of wishes of open connections, events and closings is a run |
| `PubSubHistory.PrunedIff` | src/server.rs:687-694 | something was pruned if and only if an event found a subscriber closed |
| `PubSubHistory.IssuedIff` | src/server.rs:392-404 | the ids a fresh run may not repeat are exactly those that opened a subscription |
| `PubSubHistory.EmittedOnce` | src/server.rs:509-511 | in every run the switch is given the events of the Emit steps, each once, in order |
| `PubSubHistory.DispatchedOnce` | src/server.rs:684-695 | each dispatch is of the event of exactly one Emit step, and no two are of the same one |
| `PubSubHistory.FanOut` | src/server.rs:682-698 | what an open connection received, followed by what waits for it, is exactly the events emitted while it was subscribed to their topic, one copy each, in order |
| `PubSubHistory.AllDelivered` | src/server.rs:682-698 | once no event waits it has received exactly those events |
| `PubSubHistory.DispatchDropsClosed` | src/server.rs:687-694 | a dispatch drops exactly the topic's subscribers whose connection is closed, and touches no other topic |
| `PubSubHistory.RoutedIff` | src/server.rs:684-716 | in every run a topic is routed to a connection under an id if and only if that Subscribe was worked off and since then no Unsubscribe of the id, no reuse of it for another connection and no event on the topic with the connection closed |
| `Replication.StateController.Write` | macros/src/lib.rs:36-43 | the guard remembers the state it starts from |
| `Replication.StateController.Assign` | macros/src/lib.rs:96-100 | a write through the guard changes one field of the state |
| `Replication.StateController.Drop` | macros/src/lib.rs:58-69 | dropping the guard yields the diff between its starting state and the current one |
| `Replication.ClientState.Apply` | macros/src/lib.rs:103-119 | updates in place, unknown indices skipped, early return with `ClientDecodeError` keeping what was applied |
| `Replication.DiffListsChanges` | macros/src/lib.rs:62-69 | the diff has strictly increasing in-range indices of changed fields with their new values |
| `Replication.DiffIsExact` | macros/src/lib.rs:60-69 | applying the diff to the starting state gives the final state without error |
| `Replication.DiffIsMinimal` | macros/src/lib.rs:60-69 | no shorter update list, well formed or not, does the same |
| `Replication.ApplyClean` | macros/src/lib.rs:107-117 | decodable updates succeed and leave in each field the last value written |
| `Replication.ApplyAny` | macros/src/lib.rs:107-117 | any batch fails if and only if an update names a field and cannot be decoded; each field then has the last value written before the first such update, and unknown indices are skipped |
| `ReplicationGuarantees.GuardStartsWhereLastEnded` | macros/src/lib.rs:36-43 | each guard starts from the state the previous one left |
| `ReplicationGuarantees.ServerFromSteps` | macros/src/lib.rs:96-100 | in every run each field of the server has the last value assigned to it, and what arrived or was lost is what the steps say |
| `ReplicationGuarantees.EmitsIffChanged` | macros/src/lib.rs:71-84 | one non-empty batch and one task for it if and only if the dropped guard changed something |
| `ReplicationGuarantees.InOrderReplication` | macros/src/lib.rs:56-86 | under in-order delivery, as long as nothing was lost, the client is at an earlier server snapshot and the batches under way lead to the latest |
| `ReplicationGuarantees.FieldsAreFromSnapshots` | macros/src/lib.rs:107-117 | in every run, with any order and any losses, each field of the client holds the default or a value that some guard left in that field |
| `ReplicationGuarantees.SameLastWritten` | macros/src/lib.rs:107-117 | in an order that keeps conflicting batches in order, with any missing, a field's last arriving batch is its last emitted one if and only if that one arrives, and then the field's last write is the same |
| `ReplicationGuarantees.ConvergesUnderReordering` | macros/src/lib.rs:76-84 | when all batches arrive, any order that keeps batches with a common field in order converges to the server's state |
| `ReplicationGuarantees.ConvergesDespiteLoss` | src/server.rs:376-378 | with batches lost or under way it converges too, if the last batch emitted for each field is among those that arrived |
| `ReplicationGuarantees.ClientHoldsLastAssignments` | macros/src/lib.rs:107-117 | each field of the client is then what the last assignment on the server wrote |
| `ReplicationGuarantees.AtSnapshotIff` | src/client.rs:273-287 | at any time, with any order and any losses, the client is at snapshot n if and only if for each field the last batch that arrived is the last one emitted up to n or writes the same value, a missing one counting as the default |
| `ReplicationGuarantees.ConvergesIff` | macros/src/lib.rs:76-84 | the same for the state left by the last dropped guard |
| `ReplicationGuarantees.ConvergesIffLastComesLast` | macros/src/lib.rs:76-84 | when no value of a field is written twice: converged if and only if each field's last arriving batch is the last emitted one |
| `ReplicationGuarantees.ReorderingLosesAnUpdate` | macros/src/lib.rs:76-84 | a run in which every batch arrives and the client still keeps an older value than the server |
| `ReplicationGuarantees.LossLeavesNoSnapshot` | src/server.rs:376-378 | a run with one lost batch and in-order delivery that leaves the client in a state the server never had |
| `Naming.SnakeToPascalCase` | macros/src/lib.rs:126-140 | the loop with its flag computes the variant name |
| `Naming.VariantNameOfSegments` | macros/src/lib.rs:131 | the name of `a_b` is the name of `a` followed by the name of `b` |
| `Naming.SegmentsKept` | macros/src/lib.rs:132-136 | a segment keeps all but its first character, capitals included |
| `Naming.RecoverableIffCanonical` | macros/src/lib.rs:126-140 | the explicit inverse recovers an identifier if and only if its segments are non-empty, start lower-case and go on lower-case or digits |
| `Naming.VariantNamesDistinct` | macros/src/lib.rs:156-159 | canonical names have equal variants exactly when they are equal |
| `Naming.CanonicalTwin` | macros/src/lib.rs:126-140 | every alphanumeric variant that starts with a capital comes from a canonical name |
| `Naming.CollidesIffNotCanonical` | macros/src/lib.rs:126-140 | every name with such a variant shares it with exactly one canonical name, which is another name if and only if it is not canonical itself |
| `Naming.Collisions` | macros/src/lib.rs:126-140 | two such pairs of names |
| `Calls.CanonicalIsDistinct` | macros/src/lib.rs:150-159 | a trait whose method names are canonical has one variant per method |
| `Calls.MatchingMethod` | macros/src/lib.rs:222-227 | the match takes a method whose variant it is, and takes none only if there is none |
| `Calls.SubmittedIff` | macros/src/lib.rs:447-462 | a client method submits its call if and only if it is connected and the call can be encoded, and the bytes decode to its variant and arguments; `ClientNotConnected` if and only if not connected, `ClientEncodeError` if and only if connected and not encodable |
| `Calls.DispatchOfAnyBytes` | macros/src/lib.rs:259-268 | bytes that name a method run it and give its encoded value or its error; all others give `ServerDecodeError` |
| `Calls.ResultOfAnyCompletion` | macros/src/lib.rs:302-307 | a value if and only if the output decodes to it, `ClientDecodeError` if it does not, errors unchanged |
| `Calls.DispatchIsTransparent` | macros/src/lib.rs:259-268 | encode, dispatch and decode give the same-named method's result on the same arguments, errors unchanged |
| `Calls.CallTransparency` | macros/src/lib.rs:301-309 | every encodable call on a connected client is submitted and from then on in exactly one place; when it completes, the method returns what the same-named handler method returned in that call's own task, or the error for which its own client failed it, with the handler not run |

## Left out

- TLS, certificates, TCP accept, WebSocket framing, version and compression negotiation: plumbing around libraries with shallow branches.
- The formats of rkyv and raw DEFLATE: kept as codecs with a round-trip law.
- Fairness and scheduling of tokio and rayon: steps interleave freely; draining is stated as a bound on steps, not as time.
- The priorities among the server loop's arms and the state and event messages that share the wire with RPC responses: they only remove interleavings of the RPC steps.
- Shutdown of the client loop and teardown of a connection: a dead connection appears only as a closed event channel, and `make_rpc_call`'s panic on a dropped sender is not modelled.
- The bounded channels between application and client loop and between guards and connection: their waiting is part of the free interleaving.
- The broadcast channel of capacity 32 on the client: event claims end at the connection's event channel.
- Any order between a response and the state update of the same call, and any claim that no event arrives after a local unsubscribe: the program promises neither.
- The proxied channel between handler and connection: a wish is one step, in any order the handler likes.
- Token generation in the macros, `codable`, conversions of `Topic` and `Debug`: mechanical.
- The examples and the benchmark project: sample handlers.
