# Vertigo output side, modelled in Dafny

This project models the output side of Vertigo's messaging layer. It covers four pieces:

- **DefaultOutputConnection**: the per-connection protocol state machine.
  - Envelopes are numbered from 1 and kept in an in-flight log until the peer acknowledges them.
  - The `open`, `full` and `paused` flags are tracked, with drain notification.
  - At most one batch is current, and a registry of open groups is kept.
  - The connect and disconnect handshakes retry until they succeed.
  - The peer's control messages (`group`, `batch`, `ack`, `fail`, `pause`, `resume`) are dispatched.
- **DefaultOutputPort**: fans each call out to the port's streams, so one message goes to many streams.
  - Each step the task runner serialises (`update`, `open`, `close`) is one atomic operation.
  - `batch` and `group` wait on a counting barrier for every stream.
- **ExactlyOnceOutputConnection**: durable staging.
  - Every copy of a message is written to a per-target staging map.
  - The copies are sent only after every write succeeded.
  - A copy is re-sent until the target replies `true`, and then removed from its staging map.
  - A per-target count drives the `queueFull` flag.
- **ExecutorVerticle**: `checkConfig` and the early exit it causes in `start`.

## Files

| file | module | contents |
|---|---|---|
| `common.dfy` | `Common` | `Option`, payloads, and the record of output-hook calls shared by the connection and the port |
| `message_log.dfy` | `MessageLog` | envelopes, the in-flight log, `doAck` as written and as intended, the drain guard |
| `handshake.dfy` | `Handshake` | the connect and disconnect reply handlers as a decision table, and the repeated-probe loop |
| `output_connection.dfy` | `OutputConnection` | class `Connection` |
| `output_port.dfy` | `OutputPort` | classes `Port` and `Barrier`, and the stream-list functions of `update` |
| `exactly_once.dfy` | `ExactlyOnce` | class `StagingConnection`, the staging fold, and the target-set update |
| `executor_config.dfy` | `ExecutorConfig` | `checkConfig` and `start` |

### What is modelled as inputs and outputs

Asynchronous results, and calls into code outside this model, are modelled as follows.

**Inputs:**
- Handshake replies: a `Reply` value, or a sequence of them.
- The stream open and close results of the port: the functions `opens` and `closes`.
- What the cluster's named staging maps already hold when a connection attaches to them: `cluster`, by target.
- The outcome of each staging write: the set `stored` of addresses whose write succeeded.
- The outcome of each staging removal: `ok`.
- The reply to each copy's send.
- The selector's choice, with the copy made for each entry: the `Entry` sequence.
- Java's class hierarchy: the pair set `assignable`.
- The executor's own start result: `executorOk`.

**Outputs**, each recorded as a sequence in the state:
- every `eventBus.send` to the peer (`sent`, `transmissions`);
- every hook call (`hookCalls`);
- every drain-handler call (`drainCalls`);
- every call the port makes on a stream (`calls`);
- every acker call (`anchors`, `parentAcks`);
- every staging-map removal request (`removals`);
- every cleared staging map (`cleared`).

## Model

| member | source | states |
|---|---|---|
| Common.HookCalls | core/src/main/java/net/kuujo/vertigo/io/connection/impl/DefaultOutputConnection.java:438-440 | one `handleSend` per registered hook, in registration order, each carrying the sent value |
| Common.HookCallsOncePerHook | core/src/main/java/net/kuujo/vertigo/io/port/impl/DefaultOutputPort.java:408-412 | a hook receives a value exactly as often as it is registered, and no call carries any other value or hook |
| MessageLog.ConsecutiveKeys | core/src/main/java/net/kuujo/vertigo/io/connection/impl/DefaultOutputConnection.java:564-573 | in a log numbered from `first` onwards, `containsKey(k)` holds exactly when `first <= k < first + size` |
| MessageLog.ConsecutiveIsAscending | core/src/main/java/net/kuujo/vertigo/io/connection/impl/DefaultOutputConnection.java:399-403 | a log of consecutive ids is in strictly ascending id order, the order the TreeMap iterates in |
| MessageLog.AckAsWritten | core/src/main/java/net/kuujo/vertigo/io/connection/impl/DefaultOutputConnection.java:373-385 | `doAck` as the code does it: the log is either left whole or emptied, and a log left non-empty still holds the envelope after the acknowledged id |
| MessageLog.AckAsWrittenKeepsAcknowledged | core/src/main/java/net/kuujo/vertigo/io/connection/impl/DefaultOutputConnection.java:373-385 | with ids 1 and 2 logged, the code keeps envelope 1 after `ack(1)`; the cumulative rule keeps only envelope 2 |
| MessageLog.AckAsWrittenDropsUnacknowledged | core/src/main/java/net/kuujo/vertigo/io/connection/impl/DefaultOutputConnection.java:373-385 | with ids 5 and 6 logged, the code empties the log on `ack(0)`; the cumulative rule keeps both |
| MessageLog.CumulativeAck | core/src/main/java/net/kuujo/vertigo/io/connection/impl/DefaultOutputConnection.java:374-375 | the intended acknowledgement: an envelope survives exactly when it was logged and its id is above the acknowledged one |
| MessageLog.CumulativeAckAscending | core/src/main/java/net/kuujo/vertigo/io/connection/impl/DefaultOutputConnection.java:373-385 | the intended acknowledgement keeps an ascending log ascending |
| MessageLog.CumulativeAckOfConsecutive | core/src/main/java/net/kuujo/vertigo/io/connection/impl/DefaultOutputConnection.java:373-385 | on a consecutive log, acknowledging an id in range leaves exactly the suffix from `id + 1` |
| MessageLog.CumulativeAckAllAbove | core/src/main/java/net/kuujo/vertigo/io/connection/impl/DefaultOutputConnection.java:373-385 | acknowledging an id below every logged id leaves the log whole |
| MessageLog.AckAgreesBeyondLog | core/src/main/java/net/kuujo/vertigo/io/connection/impl/DefaultOutputConnection.java:381-383 | at or beyond every logged id, the code and the intended rule agree: the log is emptied |
| MessageLog.AckKeepsConsecutive | core/src/main/java/net/kuujo/vertigo/io/connection/impl/DefaultOutputConnection.java:373-385 | under the intended rule (`CumulativeAck`, which no connection method uses), what an acknowledgement leaves of a consecutive log is consecutive and ends where the log ended |
| MessageLog.AckRulesAgree | core/src/main/java/net/kuujo/vertigo/io/connection/impl/DefaultOutputConnection.java:373-385 | on a consecutive log the code's rule and the intended one agree exactly when the log is empty, the id acknowledged is the one just before the oldest, or it is at or beyond the newest |
| Handshake.RunHandshake | core/src/main/java/net/kuujo/vertigo/io/connection/impl/DefaultOutputConnection.java:152-192 | the probe loop stops at the first reply whose decision is final, and succeeds exactly when that decision is success; without such a reply every reply was probed and the retry timer ran at most once per reply |
| Handshake.ConnectDecision | core/src/main/java/net/kuujo/vertigo/io/connection/impl/DefaultOutputConnection.java:159-190 | the `connect` reply table: only a `true` reply succeeds, only a recipient failure fails, and the timer that delays a retry is 500 ms |
| Handshake.DisconnectDecision | core/src/main/java/net/kuujo/vertigo/io/connection/impl/DefaultOutputConnection.java:291-319 | the `disconnect` reply table: a `true` reply or a missing handler succeeds, only a recipient failure fails, and the retry timer is 500 ms |
| Handshake.OpenOutcomes | core/src/main/java/net/kuujo/vertigo/io/connection/impl/DefaultOutputConnection.java:135-192 | `open` succeeds only after the handler registered and a `true` reply, with neither a `true` nor a recipient failure before it; it fails only on a failed registration or a recipient failure |
| Handshake.CloseOutcomes | core/src/main/java/net/kuujo/vertigo/io/connection/impl/DefaultOutputConnection.java:272-321 | `close` succeeds only after unregistering and a `true` or a "no handlers" reply; it fails only on a failed unregistration or a recipient failure |
| Handshake.ConnectRetriesIndefinitely | core/src/main/java/net/kuujo/vertigo/io/connection/impl/DefaultOutputConnection.java:162-190 | timeouts, missing handlers and refusals never end the connect loop; each missing handler and each refusal waits for the 500 ms timer, a timeout does not |
| Handshake.DisconnectRetriesIndefinitely | core/src/main/java/net/kuujo/vertigo/io/connection/impl/DefaultOutputConnection.java:291-319 | timeouts and refusals never end the disconnect loop, and the number of 500 ms timers is exactly the number of refusals |
| OutputConnection.Connection.constructor | core/src/main/java/net/kuujo/vertigo/io/connection/impl/DefaultOutputConnection.java:52-111 | a new connection is closed, not full and not paused; its next id is 1, its log is empty and its queue limit is 1000 |
| OutputConnection.Connection.SetSendQueueMaxSize | core/src/main/java/net/kuujo/vertigo/io/connection/impl/DefaultOutputConnection.java:195-199 | the limit is replaced, with no check |
| OutputConnection.Connection.DrainHandler | core/src/main/java/net/kuujo/vertigo/io/connection/impl/DefaultOutputConnection.java:216-219 | the drain handler is replaced |
| OutputConnection.Connection.Size | core/src/main/java/net/kuujo/vertigo/io/connection/impl/DefaultOutputConnection.java:206-208 | the size is the number of logged ids, which are exactly the last `size` ids allocated |
| OutputConnection.Connection.SendQueueFull | core/src/main/java/net/kuujo/vertigo/io/connection/impl/DefaultOutputConnection.java:211-213 | full exactly when paused or the log holds `maxQueueSize` envelopes or more |
| OutputConnection.Connection.HandleConnectReply | core/src/main/java/net/kuujo/vertigo/io/connection/impl/DefaultOutputConnection.java:159-190 | the connect decision for the reply; only a `true` reply sets `open` |
| OutputConnection.Connection.HandleDisconnectReply | core/src/main/java/net/kuujo/vertigo/io/connection/impl/DefaultOutputConnection.java:291-319 | the disconnect decision; only a `true` reply clears `open`, and a "no handlers" success leaves it set |
| OutputConnection.Connection.CheckFull | core/src/main/java/net/kuujo/vertigo/io/connection/impl/DefaultOutputConnection.java:331-336 | `full` becomes set once the log reaches `maxQueueSize` and is never cleared here |
| OutputConnection.Connection.CheckDrain | core/src/main/java/net/kuujo/vertigo/io/connection/impl/DefaultOutputConnection.java:341-349 | a full, unpaused connection below half its limit (Java's truncating division) stops being full and calls the drain handler once |
| OutputConnection.Connection.CreateMessage | core/src/main/java/net/kuujo/vertigo/io/connection/impl/DefaultOutputConnection.java:564-573 | the envelope gets the current id, is logged under it, and the counter advances by one, so the log stays consecutive |
| OutputConnection.Connection.Transmit | core/src/main/java/net/kuujo/vertigo/io/connection/impl/DefaultOutputConnection.java:432-437 | the envelope is sent exactly when the connection is open and not paused |
| OutputConnection.Connection.Frame | core/src/main/java/net/kuujo/vertigo/io/connection/impl/DefaultOutputConnection.java:324-326 | on a closed connection nothing is numbered, logged or sent and the operation throws; otherwise one envelope is numbered, logged and, unless paused, sent |
| OutputConnection.Connection.FireHooks | core/src/main/java/net/kuujo/vertigo/io/connection/impl/DefaultOutputConnection.java:438-440 | every hook sees the value once, in order |
| OutputConnection.Connection.DoSend | core/src/main/java/net/kuujo/vertigo/io/connection/impl/DefaultOutputConnection.java:428-442 | a `message` envelope is framed, the hooks see the value, and `full` is re-checked; nothing happens on a closed connection |
| OutputConnection.Connection.DoGroupStart | core/src/main/java/net/kuujo/vertigo/io/connection/impl/DefaultOutputConnection.java:448-465 | a `startGroup` envelope carrying group, name and parent is framed, and `full` is re-checked; no hooks fire |
| OutputConnection.Connection.DoGroupSend | core/src/main/java/net/kuujo/vertigo/io/connection/impl/DefaultOutputConnection.java:471-486 | a `group` envelope is framed, the hooks see the value, and `full` is re-checked |
| OutputConnection.Connection.DoGroupEnd | core/src/main/java/net/kuujo/vertigo/io/connection/impl/DefaultOutputConnection.java:491-502 | an `endGroup` envelope is framed and the group leaves the registry; `full` is not re-checked |
| OutputConnection.Connection.DoBatchStart | core/src/main/java/net/kuujo/vertigo/io/connection/impl/DefaultOutputConnection.java:508-519 | a `startBatch` envelope is framed, and `full` is re-checked |
| OutputConnection.Connection.DoBatchSend | core/src/main/java/net/kuujo/vertigo/io/connection/impl/DefaultOutputConnection.java:525-540 | a `batch` envelope is framed, the hooks see the value, and `full` is re-checked |
| OutputConnection.Connection.DoBatchEnd | core/src/main/java/net/kuujo/vertigo/io/connection/impl/DefaultOutputConnection.java:545-559 | an `endBatch` envelope is framed; the current batch is cleared only when its id matches |
| OutputConnection.Connection.Batch | core/src/main/java/net/kuujo/vertigo/io/connection/impl/DefaultOutputConnection.java:222-240 | with no current batch, the new one becomes current and is started; otherwise it waits, unstarted, for the current batch's end |
| OutputConnection.Connection.RunBatchEndHandler | core/src/main/java/net/kuujo/vertigo/io/connection/impl/DefaultOutputConnection.java:226-232 | the waiting batch, if any, becomes current and is started |
| OutputConnection.Connection.Group | core/src/main/java/net/kuujo/vertigo/io/connection/impl/DefaultOutputConnection.java:252-264 | the group is registered under its fresh id and started |
| OutputConnection.Connection.DoStartGroup | core/src/main/java/net/kuujo/vertigo/io/connection/impl/DefaultOutputConnection.java:354-359 | a confirmation reaches a registered group; any other id is ignored |
| OutputConnection.Connection.DoStartBatch | core/src/main/java/net/kuujo/vertigo/io/connection/impl/DefaultOutputConnection.java:364-368 | a confirmation reaches the current batch only when the ids match |
| OutputConnection.Connection.DoAck | core/src/main/java/net/kuujo/vertigo/io/connection/impl/DefaultOutputConnection.java:373-385 | as the code does it: the log stays whole when `id + 1` is logged and is emptied otherwise, so it stays consecutive; then the drain check runs |
| OutputConnection.Connection.DoFail | core/src/main/java/net/kuujo/vertigo/io/connection/impl/DefaultOutputConnection.java:390-404 | the acknowledgement as the code does it, then every envelope still logged is re-sent in ascending id order, paused or not: the whole log when `id + 1` was logged, nothing otherwise |
| OutputConnection.Connection.Resend | core/src/main/java/net/kuujo/vertigo/io/connection/impl/DefaultOutputConnection.java:399-403 | the logged envelopes are re-sent, all of them, in ascending id order |
| OutputConnection.Connection.DoPause | core/src/main/java/net/kuujo/vertigo/io/connection/impl/DefaultOutputConnection.java:409-412 | the connection is paused |
| OutputConnection.Connection.DoResume | core/src/main/java/net/kuujo/vertigo/io/connection/impl/DefaultOutputConnection.java:417-423 | an unpaused connection is left alone; a paused one is unpaused and then runs the drain check |
| OutputConnection.Connection.HandlePeerMessage | core/src/main/java/net/kuujo/vertigo/io/connection/impl/DefaultOutputConnection.java:71-98 | each action has its handler's effect: `group` and `batch` confirm only a registered group or the current batch; `ack` and `fail` acknowledge as the code does and then run the drain check, `fail` re-sending what is left; `pause` sets the flag; `resume` unpauses and, when it was paused, runs the drain check. An `ack`, `fail`, `pause` or `resume` without an `id` throws and changes nothing; a missing or unknown action changes nothing |
| OutputConnection.SendScenario | core/src/main/java/net/kuujo/vertigo/io/connection/impl/DefaultOutputConnection.java:428-442 | on an open, unpaused connection, a sent value reaches the peer as exactly one envelope with the next id |
| OutputConnection.FillAndDrainScenario | core/src/main/java/net/kuujo/vertigo/io/connection/impl/DefaultOutputConnection.java:331-346 | with a limit of 10, ten sends make the connection full; `ack(10)` then empties the log and calls the drain handler exactly once |
| OutputPort.SurvivorsMembers | core/src/main/java/net/kuujo/vertigo/io/port/impl/DefaultOutputPort.java:104-131 | a stream is kept exactly when the new configuration lists its address |
| OutputPort.DroppedMembers | core/src/main/java/net/kuujo/vertigo/io/port/impl/DefaultOutputPort.java:116-130 | a stream is closed and dropped exactly when the configuration no longer lists it |
| OutputPort.MissingMembers | core/src/main/java/net/kuujo/vertigo/io/port/impl/DefaultOutputPort.java:133-147 | a stream is created for an address exactly when it is configured and no kept stream has it |
| OutputPort.OpenedOnlyMembers | core/src/main/java/net/kuujo/vertigo/io/port/impl/DefaultOutputPort.java:165-180 | on an open port a new stream is added exactly when its open succeeded |
| OutputPort.UpdateFollowsConfig | core/src/main/java/net/kuujo/vertigo/io/port/impl/DefaultOutputPort.java:88-192 | after `update` no stream has an address outside the configuration; on a closed port the streams cover exactly the configured addresses; on an open port an address is covered when it was kept or its new stream opened |
| OutputPort.AfterUpdate | core/src/main/java/net/kuujo/vertigo/io/port/impl/DefaultOutputPort.java:88-192 | the streams after `update`: the kept streams first, in their old order, then at most one new stream per configuration entry |
| OutputPort.FanOutOncePerStream | core/src/main/java/net/kuujo/vertigo/io/port/impl/DefaultOutputPort.java:415-421 | the i-th call of a fan-out is the call on the i-th stream |
| OutputPort.HasStream | core/src/main/java/net/kuujo/vertigo/io/port/impl/DefaultOutputPort.java:136-142 | the search answers whether some stream has the address |
| OutputPort.Listed | core/src/main/java/net/kuujo/vertigo/io/port/impl/DefaultOutputPort.java:107-112 | the search answers whether the configuration lists the address |
| OutputPort.Partition | core/src/main/java/net/kuujo/vertigo/io/port/impl/DefaultOutputPort.java:104-131 | the removal pass splits the streams into kept and dropped, each in order |
| OutputPort.MissingAddresses | core/src/main/java/net/kuujo/vertigo/io/port/impl/DefaultOutputPort.java:133-147 | the creation pass yields the configured addresses no kept stream has, in order |
| OutputPort.FiredAtMostOnce | core/src/main/java/net/kuujo/vertigo/io/port/impl/DefaultOutputPort.java:352-371 | the batch or group handler has run once as soon as every stream answered (or at once with no streams), never before, and never twice |
| OutputPort.Barrier.constructor | core/src/main/java/net/kuujo/vertigo/io/port/impl/DefaultOutputPort.java:355-357 | with no streams the handler runs at once with an empty list |
| OutputPort.Barrier.Arrive | core/src/main/java/net/kuujo/vertigo/io/port/impl/DefaultOutputPort.java:361-366 | a sub-batch or sub-group is collected, and the handler runs when the count reaches the stream count |
| OutputPort.Port.constructor | core/src/main/java/net/kuujo/vertigo/io/port/impl/DefaultOutputPort.java:57-75 | a new port is closed, with no streams and a queue limit of 10000 |
| OutputPort.Port.Update | core/src/main/java/net/kuujo/vertigo/io/port/impl/DefaultOutputPort.java:88-192 | the streams become those of `AfterUpdate`: dropped streams are closed whatever the result, and the missing ones are added at once or after their open, as the port is closed or open |
| OutputPort.Port.RecordCloses | core/src/main/java/net/kuujo/vertigo/io/port/impl/DefaultOutputPort.java:116-130 | each dropped stream is closed once, in order |
| OutputPort.Port.OpenNew | core/src/main/java/net/kuujo/vertigo/io/port/impl/DefaultOutputPort.java:165-180 | each new stream is opened, and only those that opened are appended |
| OutputPort.Port.Open | core/src/main/java/net/kuujo/vertigo/io/port/impl/DefaultOutputPort.java:243-291 | on an open port, succeeds and changes nothing; otherwise the port is opened and keeps the configured streams that opened, each with the port's limit and drain handler, and succeeds exactly when all opened |
| OutputPort.Port.OpenConfigured | core/src/main/java/net/kuujo/vertigo/io/port/impl/DefaultOutputPort.java:265-282 | every configured stream is set up and opened; those that opened are kept |
| OutputPort.Port.Close | core/src/main/java/net/kuujo/vertigo/io/port/impl/DefaultOutputPort.java:299-339 | on a closed port, succeeds and changes nothing; otherwise the stream list is emptied, the port closed, every former stream closed once, and the close succeeds exactly when all closed |
| OutputPort.Port.SetSendQueueMaxSize | core/src/main/java/net/kuujo/vertigo/io/port/impl/DefaultOutputPort.java:195-202 | a non-positive size is rejected with nothing changed; otherwise every stream, and the port, gets the new limit |
| OutputPort.Port.DrainHandler | core/src/main/java/net/kuujo/vertigo/io/port/impl/DefaultOutputPort.java:229-235 | the handler is kept and reaches every current stream |
| OutputPort.Port.Size | core/src/main/java/net/kuujo/vertigo/io/port/impl/DefaultOutputPort.java:210-216 | the largest stream size, or 0 with no streams |
| OutputPort.Port.SendQueueFull | core/src/main/java/net/kuujo/vertigo/io/port/impl/DefaultOutputPort.java:219-226 | full exactly when some stream reports full |
| OutputPort.Port.Batch | core/src/main/java/net/kuujo/vertigo/io/port/impl/DefaultOutputPort.java:352-371 | the batch is started once on every stream, and the barrier expects one answer per stream |
| OutputPort.Port.Group | core/src/main/java/net/kuujo/vertigo/io/port/impl/DefaultOutputPort.java:384-403 | the group is started once on every stream, and the barrier expects one answer per stream |
| OutputPort.Port.Send | core/src/main/java/net/kuujo/vertigo/io/port/impl/DefaultOutputPort.java:415-421 | the message goes to every stream once, in order, and then every port hook sees it once |
| OutputPort.Port.TriggerSend | core/src/main/java/net/kuujo/vertigo/io/port/impl/DefaultOutputPort.java:408-412 | every port hook sees the message once |
| ExactlyOnce.PutKeepsAccuracy | src/main/java/net/kuujo/vertigo/output/impl/ExactlyOnceOutputConnection.java:111-112 | raising a count and setting the flag at capacity keeps the flag exactly "some target at capacity" |
| ExactlyOnce.RemovalKeepsAccuracy | src/main/java/net/kuujo/vertigo/output/impl/ExactlyOnceOutputConnection.java:194-206 | lowering a count and keeping the flag only while some target is at capacity keeps the flag accurate |
| ExactlyOnce.UpdateLeavesFlagStale | src/main/java/net/kuujo/vertigo/output/impl/ExactlyOnceOutputConnection.java:67-73 | dropping the only full target leaves the flag set though no remaining target is at capacity |
| ExactlyOnce.Children | src/main/java/net/kuujo/vertigo/output/impl/ExactlyOnceOutputConnection.java:85-88 | the children map has an entry for exactly the selected addresses |
| ExactlyOnce.ChildrenLastWins | src/main/java/net/kuujo/vertigo/output/impl/ExactlyOnceOutputConnection.java:85-88 | an address selected more than once keeps the copy of its last selection |
| ExactlyOnce.StageAll | src/main/java/net/kuujo/vertigo/output/impl/ExactlyOnceOutputConnection.java:103-118 | the writes of a send, their results handled in write order; no target gains or loses a count or a staging map (what they do to each target is StageAllPerAddress, StageAllFlag and StageAllAcks) |
| ExactlyOnce.SelectionKeys | src/main/java/net/kuujo/vertigo/output/impl/ExactlyOnceOutputConnection.java:84-88 | the addresses written to are the keys of the children map, each a target, and there are none exactly when nothing was selected |
| ExactlyOnce.CounterVerdict | src/main/java/net/kuujo/vertigo/output/impl/ExactlyOnceOutputConnection.java:90-101 | the counter counts a success for every write exactly when every copy was stored |
| ExactlyOnce.StageAllPerAddress | src/main/java/net/kuujo/vertigo/output/impl/ExactlyOnceOutputConnection.java:103-118 | a target's count rises by one, and its staging map gains its copy, exactly when its write succeeded; no other target changes |
| ExactlyOnce.StageAllFlag | src/main/java/net/kuujo/vertigo/output/impl/ExactlyOnceOutputConnection.java:111-112 | after the writes the flag is set exactly when it was set before or a target whose write succeeded is at capacity |
| ExactlyOnce.StageAllKeepsAccuracy | src/main/java/net/kuujo/vertigo/output/impl/ExactlyOnceOutputConnection.java:103-118 | the writes of a send keep the flag accurate |
| ExactlyOnce.StageAllAcks | src/main/java/net/kuujo/vertigo/output/impl/ExactlyOnceOutputConnection.java:151-167 | the parent is acked once per successful write, and never without a parent |
| ExactlyOnce.TransmissionsSendEachCopy | src/main/java/net/kuujo/vertigo/output/impl/ExactlyOnceOutputConnection.java:174-178 | the sends after success go one per copy: each to the copy's address, of the copy kept for it, no address twice |
| ExactlyOnce.Transmissions | src/main/java/net/kuujo/vertigo/output/impl/ExactlyOnceOutputConnection.java:174-178 | `doSend(children)` sends once per address written, in write order (what each send carries is TransmissionsSendEachCopy) |
| ExactlyOnce.ListedMembers | src/main/java/net/kuujo/vertigo/output/impl/ExactlyOnceOutputConnection.java:67-73 | a target is kept exactly when the update lists it, and dropped exactly when it does not |
| ExactlyOnce.UnseenMembers | src/main/java/net/kuujo/vertigo/output/impl/ExactlyOnceOutputConnection.java:60-66 | the addresses the first pass appends are listed and were not targets |
| ExactlyOnce.UnseenCovers | src/main/java/net/kuujo/vertigo/output/impl/ExactlyOnceOutputConnection.java:60-66 | every listed address is a target after the first pass |
| ExactlyOnce.UnseenDistinct | src/main/java/net/kuujo/vertigo/output/impl/ExactlyOnceOutputConnection.java:60-66 | the first pass appends each new address once |
| ExactlyOnce.UpdateFollowsTargets | src/main/java/net/kuujo/vertigo/output/impl/ExactlyOnceOutputConnection.java:59-74 | after `update` the targets are exactly the listed addresses |
| ExactlyOnce.UpdatedTargetsDistinct | src/main/java/net/kuujo/vertigo/output/impl/ExactlyOnceOutputConnection.java:59-74 | after `update` no target is listed twice |
| ExactlyOnce.UpdateEntries | src/main/java/net/kuujo/vertigo/output/impl/ExactlyOnceOutputConnection.java:59-74 | after `update` a per-target map has an entry exactly for the listed addresses: the old one for a kept target, and for a new target the one given for it (the cluster's named map) or else the initial one |
| ExactlyOnce.StagingConnection.constructor | src/main/java/net/kuujo/vertigo/output/impl/ExactlyOnceOutputConnection.java:45-51 | every target is attached to its named staging map with whatever the cluster already holds there (empty for a map never used), its count starts at 0 regardless, and the flag is clear |
| ExactlyOnce.StagingConnection.SendQueueFull | src/main/java/net/kuujo/vertigo/output/impl/ExactlyOnceOutputConnection.java:54-56 | reports the flag in every state; while the flag is accurate, that is exactly "some target holds `maxQueueSize` staged copies or more" |
| ExactlyOnce.StagingConnection.Update | src/main/java/net/kuujo/vertigo/output/impl/ExactlyOnceOutputConnection.java:59-74 | the targets become exactly the listed addresses, each once; kept targets keep their staging maps and counts, new ones attach to their named map as the cluster holds it with a count of 0, dropped ones are cleared, and the flag is untouched |
| ExactlyOnce.StagingConnection.AddUnseen | src/main/java/net/kuujo/vertigo/output/impl/ExactlyOnceOutputConnection.java:60-66 | each new listed address is appended once, attached to its named staging map as the cluster holds it, with a count of 0 |
| ExactlyOnce.StagingConnection.DropUnlisted | src/main/java/net/kuujo/vertigo/output/impl/ExactlyOnceOutputConnection.java:67-73 | each unlisted target is dropped, its staging map cleared and its count forgotten |
| ExactlyOnce.SplitTargets | src/main/java/net/kuujo/vertigo/output/impl/ExactlyOnceOutputConnection.java:67-69 | the targets split into the listed and the unlisted, each in order |
| ExactlyOnce.DropKeys | src/main/java/net/kuujo/vertigo/output/impl/ExactlyOnceOutputConnection.java:70-71 | the entries of the unlisted targets are removed from a per-target map |
| ExactlyOnce.StagingConnection.AnyAtCapacity | src/main/java/net/kuujo/vertigo/output/impl/ExactlyOnceOutputConnection.java:196-202 | the recompute loop finds a target at capacity exactly when there is one |
| ExactlyOnce.StagingConnection.Send | src/main/java/net/kuujo/vertigo/output/impl/ExactlyOnceOutputConnection.java:128-169 | returns the message id; anchors each copy to the parent; the staging state follows `StageAll`; the done handler is told of success exactly when every copy was stored (at once when nothing was selected), and only then are the copies sent |
| ExactlyOnce.StagingConnection.StoreSelection | src/main/java/net/kuujo/vertigo/output/impl/ExactlyOnceOutputConnection.java:84-118 | the children map is built, its copies are written, and they are sent exactly when every write succeeded |
| ExactlyOnce.StagingConnection.Store | src/main/java/net/kuujo/vertigo/output/impl/ExactlyOnceOutputConnection.java:90-118 | the writes follow `StageAll`; the counter reports success exactly when every copy was stored, and triggers `doSend` only then |
| ExactlyOnce.StagingConnection.Stage | src/main/java/net/kuujo/vertigo/output/impl/ExactlyOnceOutputConnection.java:103-118 | the result of each write is handled in turn, ending in the state `StageAll` describes |
| ExactlyOnce.StagingConnection.HandleStored | src/main/java/net/kuujo/vertigo/output/impl/ExactlyOnceOutputConnection.java:155-164 | on success the parent is acked, the count rises, the copy is staged, and the flag is set at capacity; a failed write changes nothing |
| ExactlyOnce.StagingConnection.TransmitAll | src/main/java/net/kuujo/vertigo/output/impl/ExactlyOnceOutputConnection.java:174-178 | each address's copy is sent once, in write order |
| ExactlyOnce.BuildChildren | src/main/java/net/kuujo/vertigo/output/impl/ExactlyOnceOutputConnection.java:85-88 | the loop builds the children map |
| ExactlyOnce.StagingConnection.HandleReply | src/main/java/net/kuujo/vertigo/output/impl/ExactlyOnceOutputConnection.java:186-191 | a failure or a `false` reply re-sends the same copy to the same address; a `true` reply requests its removal, which throws when the target was dropped |
| ExactlyOnce.StagingConnection.HandleRemoved | src/main/java/net/kuujo/vertigo/output/impl/ExactlyOnceOutputConnection.java:192-208 | a successful removal unstages the copy, lowers the count, and keeps the flag only while some target is at capacity, so an accurate flag stays accurate; a failed removal changes nothing |
| ExactlyOnce.StagingConnection.Release | src/main/java/net/kuujo/vertigo/output/impl/ExactlyOnceOutputConnection.java:193-194 | the copy leaves its staging map, and the count drops by one |
| ExactlyOnce.StagingConnection.RecheckFull | src/main/java/net/kuujo/vertigo/output/impl/ExactlyOnceOutputConnection.java:195-206 | afterwards the flag is set exactly when it was set and some target is at capacity |
| ExecutorConfig.FirstInvalidIsFirst | src/main/java/net/kuujo/vertigo/rpc/ExecutorVerticle.java:97-109 | the configuration is accepted exactly when every declared field passes; otherwise the field reported is the first that fails |
| ExecutorConfig.WrongTypeRejects | src/main/java/net/kuujo/vertigo/rpc/ExecutorVerticle.java:99-102 | a present value whose class is not assignable to the declared type is rejected |
| ExecutorConfig.MissingRequiredRejects | src/main/java/net/kuujo/vertigo/rpc/ExecutorVerticle.java:104-107 | a missing required field is rejected |
| ExecutorConfig.MissingOptionalIgnored | src/main/java/net/kuujo/vertigo/rpc/ExecutorVerticle.java:104-108 | a missing optional field never decides the outcome: the check is the same without it |
| ExecutorConfig.FieldOk | src/main/java/net/kuujo/vertigo/rpc/ExecutorVerticle.java:99-108 | one field passes: a present value's class is assignable to the declared type, and a missing value is allowed only for an optional field (a definition; its consequences are the lemmas above) |
| ExecutorConfig.FirstInvalid | src/main/java/net/kuujo/vertigo/rpc/ExecutorVerticle.java:97-109 | a field it reports is a declared field that does not pass (that it is the first one is FirstInvalidIsFirst) |
| ExecutorConfig.CheckConfig | src/main/java/net/kuujo/vertigo/rpc/ExecutorVerticle.java:93-111 | without an annotation, accepted; with one, accepted exactly when every field passes, else the first failing field |
| ExecutorConfig.Start | src/main/java/net/kuujo/vertigo/rpc/ExecutorVerticle.java:63-88 | the executor is started exactly when the configuration passes; otherwise the future fails with "Invalid component configuration."; once started, the future follows the executor's start result |

## Left out

- Event bus, timers, the cluster's asynchronous maps and the acker are not modelled. Their results are inputs and their calls are recorded outputs. Timeouts appear only as the constants 1000, 5000 and 500 ms.
- Serialisation: payloads are opaque strings, and the serializer, `createCopy` and `UUID.randomUUID()` are not part of this model. Fresh ids are parameters.
- Logging is left out everywhere.
- Concurrency: every asynchronous callback is one atomic step. The port's task runner is not modelled; `Port.Update`, `Port.Open` and `Port.Close` each run as one step, with their stream results given as inputs. The source's `update` on an open port never signals its completion counter. Because the runner is left out, the consequence (the update task may never complete and later tasks wait behind it) is not captured.
- The send overloads by payload type (`send(String)`, `send(Integer)`, …) are one `Send` on a string payload.
- The Java `null` handler, group and batch arguments are `Option` values. A JSON `null` configuration value counts as absent, as `getValue` returns null for it.
- DefaultOutputStream, the group and batch objects, BaseOutputConnection (its selector, `checkFull` and `checkPause`) and CountingCompletionHandler are not part of this model. The selector's choice is an input. Of the calls the core makes on them, these are recorded:
  - the port's calls on its streams (`calls`), including the batch and group starts;
  - the connection's group and batch starts and the peer's confirmations of them (`groupStarts`, `batchStarts`, `groupStartAcks`, `batchStartAcks`);
  - the exactly-once connection's acker calls (`anchors`, `parentAcks`).
- ExactlyOnce.StagingConnection.Send, HandleStored, HandleRemoved: three kinds of call leave no trace in the model. They are the `checkFull()` before each send (ExactlyOnceOutputConnection.java:83, 129), the `checkPause()` after each staging write and removal (113, 162, 207), and the counter's `succeed()`/`fail()` (109, 114, 157, 163). The counter's verdict is modelled only through its result (`done`).
- ExactlyOnce.StagingConnection.Send: the outcome of each staging write is an input (`stored`), and the results are handled in the order the copies are written, all before the completion counter decides. Three consequences:
  - the HashMap's iteration order is not modelled;
  - the writes of different sends are not interleaved;
  - an `update` between a write and its result is not modelled.
- ExactlyOnce.StagingConnection.Send, Port.Open, Port.Close: CountingCompletionHandler is not part of this model. All three assume it reports success exactly when every counted operation succeeded, and success at once when it counts zero operations (no copies selected, no streams). When the result reaches the done handler is not modelled.
- ExactlyOnce.StagingConnection.Update: the removal pass iterates over `targets` while removing from it. In the source this would most likely raise `ConcurrentModificationException`. The model instead drops every unlisted target, which is evidently the intent. The type of `targets` is declared in BaseOutputConnection, which is not part of this model.
- ExactlyOnce.StagingConnection.Update: the flag is not recomputed, as in the source. `UpdateLeavesFlagStale` shows that this can leave the flag set with no target at capacity.
- ExactlyOnce.StagingConnection.constructor: the targets are required to be distinct, so a target list with repeats is not modelled. The NullPointerExceptions the source raises for a target dropped meanwhile are modelled as the `thrown` outcome of `HandleReply` and `HandleRemoved`.
- ExactlyOnce.StagingConnection.constructor, Update: a named staging map's existing contents are an input (`cluster`) at the moment the connection attaches to it. How the cluster's maps change between connection instances is not modelled. As in the source, copies found in a reattached map are not counted and never sent again.
- ExecutorConfig.Start: the polling executor's creation and the verticle's own start are not modelled. The executor's start result is an input, and the text of its failure cause is a placeholder.
- OutputConnection.Connection.DoAck, DoFail, HandlePeerMessage: these acknowledge as the code does (MessageLog.AckAsWritten). The cumulative rule the comment of `doAck` describes is MessageLog.CumulativeAck; it is proved about on its own and compared with the code's rule in MessageLog.AckRulesAgree, but no connection method uses it.
- OutputConnection.Connection.HandleConnectReply: the code retries a NO_HANDLERS reply to `connect` on the 500 ms timer, as it does a `false` reply, so a peer that never registers keeps `open` waiting for ever. Only a recipient failure ends the handshake with an error. The model follows the code.
- OutputConnection.Connection.HandleDisconnectReply: the code treats a NO_HANDLERS reply to `disconnect` as success but, unlike a `true` reply, leaves `open` set; the model follows the code.
- Java `long` and `int` overflow of the message counter and of the queue counts is not modelled: integers are unbounded.

## Findings

| source | as written | input that shows it | evidently intended | confidence | as-written member | corrected member |
|---|---|---|---|---|---|---|
| core/src/main/java/net/kuujo/vertigo/io/connection/impl/DefaultOutputConnection.java:379-384 | when `id + 1` is logged, `messages.tailMap(id + 1)` builds a view and discards it, so nothing is removed; otherwise the whole log is cleared | log ids 1 and 2, `ack(1)`: envelope 1 stays. Log ids 5 and 6, `ack(0)`: both unacknowledged envelopes are dropped | remove exactly the envelopes numbered up to the acknowledged id and keep the rest, as the method's own comment describes | high, not executed | MessageLog.AckAsWrittenKeepsAcknowledged | MessageLog.CumulativeAckOfConsecutive |
