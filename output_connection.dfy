/**
 * DefaultOutputConnection: the per-connection protocol state machine of
 * the output side. It numbers every framed envelope, keeps the envelopes
 * in an in-flight log until the peer acknowledges them, tracks the
 * `open`, `full` and `paused` flags, keeps at most one batch current and a
 * registry of open groups, and reacts to the peer's control messages.
 *
 * The event bus is an output: `sent` records every `eventBus.send` to the
 * peer's `.in` address, `hookCalls` every `hook.handleSend`, `drainCalls`
 * every call of the drain handler. The group and batch objects are not
 * modelled; the calls the connection makes on them are recorded.
 */
module OutputConnection {
  import opened Common
  import opened MessageLog
  import opened Handshake

  const DefaultMaxQueueSize: int := 1000

  /** An operation that begins with `checkOpen` either runs or throws `IllegalStateException`. */
  datatype Status = Done | NotOpen

  /** What the connection keeps about an open group. */
  datatype GroupInfo = GroupInfo(name: string, args: Value, parent: Option<string>)

  /**
   * A control message from the peer on the `.out` address, by its `action`
   * field; `Unhandled` is a missing or unknown action, and `MissingId` an
   * `ack`, `fail`, `pause` or `resume` message without an `id` field.
   */
  datatype PeerMessage =
    | GroupStarted(group: Option<string>)
    | BatchStarted(batch: Option<string>)
    | AckUpTo(id: int)
    | FailFrom(id: int)
    | Pause(id: int)
    | Resume(id: int)
    | MissingId
    | Unhandled

  class Connection {
    const hooks: seq<HookId>
    var maxQueueSize: int
    var drainHandler: Option<HandlerId>
    /** The id the next framed envelope gets (`currentMessage`). */
    var currentMessage: nat
    /** The in-flight log in ascending id order (`messages`). */
    var log: seq<Envelope>
    var groups: map<string, GroupInfo>
    var currentBatch: Option<string>
    /** A batch waiting for the current batch's end handler. */
    var deferredBatch: Option<string>
    var open: bool
    var full: bool
    var paused: bool

    /** Envelopes transmitted to the peer, in order. */
    var sent: seq<Envelope>
    var hookCalls: seq<HookCall>
    var drainCalls: seq<HandlerId>
    /** Group and batch ids whose `start` was called. */
    var groupStarts: seq<string>
    var batchStarts: seq<string>
    /** Group and batch ids whose `handleStart` was called on the peer's confirmation. */
    var groupStartAcks: seq<string>
    var batchStartAcks: seq<string>

    /**
     * The log holds the envelopes numbered `currentMessage - |log|` up to
     * `currentMessage - 1`, one per id, in order; ids start at 1.
     */
    ghost predicate Valid()
      reads this
    {
      currentMessage >= 1 + |log| && Consecutive(log, currentMessage - |log|)
    }

    /** The id of the oldest logged envelope (or `currentMessage` when the log is empty). */
    ghost function First(): nat
      reads this
      requires Valid()
    {
      currentMessage - |log|
    }

    constructor (hooks: seq<HookId>)
      ensures Valid()
      ensures this.hooks == hooks && maxQueueSize == DefaultMaxQueueSize && drainHandler == None
      ensures currentMessage == 1 && log == [] && groups == map[]
      ensures currentBatch == None && deferredBatch == None
      ensures !open && !full && !paused
      ensures sent == [] && hookCalls == [] && drainCalls == []
      ensures groupStarts == [] && batchStarts == [] && groupStartAcks == [] && batchStartAcks == []
    {
      this.hooks := hooks;
      maxQueueSize := DefaultMaxQueueSize;
      drainHandler := None;
      currentMessage := 1;
      log := [];
      groups := map[];
      currentBatch := None;
      deferredBatch := None;
      open, full, paused := false, false, false;
      sent, hookCalls, drainCalls := [], [], [];
      groupStarts, batchStarts, groupStartAcks, batchStartAcks := [], [], [], [];
    }

    method SetSendQueueMaxSize(maxSize: int)
      modifies this`maxQueueSize
      ensures maxQueueSize == maxSize
    {
      maxQueueSize := maxSize;
    }

    method DrainHandler(handler: Option<HandlerId>)
      modifies this`drainHandler
      ensures drainHandler == handler
    {
      drainHandler := handler;
    }

    /** `size()`: the number of logged envelopes, which are those of the last `n` ids allocated. */
    function Size(): (n: nat)
      reads this
      requires Valid()
      ensures n <= currentMessage - 1
      ensures forall k :: HasKey(log, k) <==> currentMessage - n <= k < currentMessage
    {
      assert forall k :: HasKey(log, k) <==> First() <= k < currentMessage by {
        forall k ensures HasKey(log, k) <==> First() <= k < currentMessage {
          ConsecutiveKeys(log, First(), k);
        }
      }
      |log|
    }

    /** `sendQueueFull()`: paused by the peer, or the log has reached `maxQueueSize`. */
    function SendQueueFull(): (r: bool)
      reads this
      requires Valid()
      ensures r <==> paused || Size() >= maxQueueSize
    {
      paused || |log| >= maxQueueSize
    }

    // ---- handshake replies ----

    /** One reply to a `connect` probe; only an explicit `true` opens the connection. */
    method HandleConnectReply(reply: Reply) returns (d: Decision)
      modifies this`open
      ensures d == ConnectDecision(reply)
      ensures open == (old(open) || d == Succeed)
    {
      d := ConnectDecision(reply);
      if reply == Replied(true) {
        open := true;
      }
    }

    /**
     * One reply to a `disconnect` probe; only an explicit `true` clears
     * `open` (a "no handlers" reply completes the close but leaves it set).
     */
    method HandleDisconnectReply(reply: Reply) returns (d: Decision)
      modifies this`open
      ensures d == DisconnectDecision(reply)
      ensures open == (old(open) && reply != Replied(true))
      ensures d == Succeed && reply != Replied(true) ==> open == old(open)
    {
      d := DisconnectDecision(reply);
      if reply == Replied(true) {
        open := false;
      }
    }

    // ---- flow control ----

    /** `checkFull`: `full` only ever flips from false to true, once the log reaches `maxQueueSize`. */
    method CheckFull()
      modifies this`full
      ensures full == (old(full) || |log| >= maxQueueSize)
    {
      if !full && |log| >= maxQueueSize {
        full := true;
      }
    }

    /** `checkDrain`: a drain clears `full` and calls the drain handler, once per full episode. */
    method CheckDrain()
      modifies this`full, this`drainCalls
      ensures var d := Drains(old(full), paused, |log|, maxQueueSize);
        && full == (old(full) && !d)
        && drainCalls == old(drainCalls) + (if d && drainHandler.Some? then [drainHandler.value] else [])
    {
      if full && !paused && |log| < HalfTruncated(maxQueueSize) {
        full := false;
        if drainHandler.Some? {
          drainCalls := drainCalls + [drainHandler.value];
        }
      }
    }

    // ---- framing ----

    twostate predicate Framed(action: Action, body: Value)
      reads this
    {
      var e := Envelope(old(currentMessage), action, body);
      && currentMessage == old(currentMessage) + 1
      && log == old(log) + [e]
      && sent == old(sent) + (if paused then [] else [e])
    }

    twostate predicate NothingFramed()
      reads this
    {
      currentMessage == old(currentMessage) && log == old(log) && sent == old(sent)
    }

    /** `createMessage`: number the envelope with the counter, log it under that id, advance the counter. */
    method CreateMessage(action: Action, body: Value) returns (e: Envelope)
      requires Valid()
      modifies this`currentMessage, this`log
      ensures Valid()
      ensures e == Envelope(old(currentMessage), action, body)
      ensures currentMessage == old(currentMessage) + 1 && log == old(log) + [e]
      ensures First() == old(First())
    {
      e := Envelope(currentMessage, action, body);
      log := log + [e];
      currentMessage := currentMessage + 1;
    }

    /** The `if (open && !paused) eventBus.send(inAddress, message)` step every framing operation shares. */
    method Transmit(e: Envelope)
      modifies this`sent
      ensures sent == old(sent) + (if open && !paused then [e] else [])
    {
      if open && !paused {
        sent := sent + [e];
      }
    }

    /** `checkOpen` followed by framing, logging and (when not paused) transmitting one envelope. */
    method Frame(action: Action, body: Value) returns (status: Status)
      requires Valid()
      modifies this`currentMessage, this`log, this`sent
      ensures Valid()
      ensures status == (if old(open) then Done else NotOpen)
      ensures open ==> Framed(action, body)
      ensures !open ==> NothingFramed()
    {
      if !open {
        return NotOpen;
      }
      var e := CreateMessage(action, body);
      Transmit(e);
      status := Done;
    }

    /** `for (OutputHook hook : hooks) hook.handleSend(value)` */
    method FireHooks(value: Value)
      modifies this`hookCalls
      ensures hookCalls == old(hookCalls) + HookCalls(hooks, value)
    {
      var i := 0;
      while i < |hooks|
        invariant 0 <= i <= |hooks|
        invariant hookCalls == old(hookCalls) + HookCalls(hooks[..i], value)
      {
        assert hooks[..i + 1] == hooks[..i] + [hooks[i]];
        HookCallsAppend(hooks[..i], hooks[i], value);
        hookCalls := hookCalls + [HookCall(hooks[i], value)];
        i := i + 1;
      }
      assert hooks[..i] == hooks;
    }

    /** `doSend`: a plain message; hooks see the value; `full` is re-checked. */
    method DoSend(value: Value) returns (status: Status)
      requires Valid()
      modifies this`currentMessage, this`log, this`sent, this`hookCalls, this`full
      ensures Valid()
      ensures status == (if open then Done else NotOpen)
      ensures !open ==> NothingFramed() && hookCalls == old(hookCalls) && full == old(full)
      ensures open ==>
        && Framed(Message, value)
        && hookCalls == old(hookCalls) + HookCalls(hooks, value)
        && full == (old(full) || |log| >= maxQueueSize)
    {
      status := Frame(Message, value);
      if status == Done {
        FireHooks(value);
        CheckFull();
      }
    }

    /** `doGroupStart`: the start marker of a group, carrying its name and parent. */
    method DoGroupStart(group: string, name: string, args: Value, parent: Option<string>) returns (status: Status)
      requires Valid()
      modifies this`currentMessage, this`log, this`sent, this`full
      ensures Valid()
      ensures status == (if open then Done else NotOpen)
      ensures !open ==> NothingFramed() && full == old(full)
      ensures open ==> Framed(StartGroup(group, name, parent), args) && full == (old(full) || |log| >= maxQueueSize)
    {
      status := Frame(StartGroup(group, name, parent), args);
      if status == Done {
        CheckFull();
      }
    }

    /** `doGroupSend`: a message inside a group; hooks see the value. */
    method DoGroupSend(group: string, value: Value) returns (status: Status)
      requires Valid()
      modifies this`currentMessage, this`log, this`sent, this`hookCalls, this`full
      ensures Valid()
      ensures status == (if open then Done else NotOpen)
      ensures !open ==> NothingFramed() && hookCalls == old(hookCalls) && full == old(full)
      ensures open ==>
        && Framed(GroupMessage(group), value)
        && hookCalls == old(hookCalls) + HookCalls(hooks, value)
        && full == (old(full) || |log| >= maxQueueSize)
    {
      status := Frame(GroupMessage(group), value);
      if status == Done {
        FireHooks(value);
        CheckFull();
      }
    }

    /** `doGroupEnd`: the end marker of a group; the group leaves the registry; `full` is not re-checked. */
    method DoGroupEnd(group: string, args: Value) returns (status: Status)
      requires Valid()
      modifies this`currentMessage, this`log, this`sent, this`groups
      ensures Valid()
      ensures status == (if open then Done else NotOpen)
      ensures !open ==> NothingFramed() && groups == old(groups)
      ensures open ==> Framed(EndGroup(group), args) && groups == old(groups) - {group}
    {
      status := Frame(EndGroup(group), args);
      if status == Done {
        groups := groups - {group};
      }
    }

    /** `doBatchStart`: the start marker of a batch. */
    method DoBatchStart(batch: string, args: Value) returns (status: Status)
      requires Valid()
      modifies this`currentMessage, this`log, this`sent, this`full
      ensures Valid()
      ensures status == (if open then Done else NotOpen)
      ensures !open ==> NothingFramed() && full == old(full)
      ensures open ==> Framed(StartBatch(batch), args) && full == (old(full) || |log| >= maxQueueSize)
    {
      status := Frame(StartBatch(batch), args);
      if status == Done {
        CheckFull();
      }
    }

    /** `doBatchSend`: a message inside a batch; hooks see the value. */
    method DoBatchSend(batch: string, value: Value) returns (status: Status)
      requires Valid()
      modifies this`currentMessage, this`log, this`sent, this`hookCalls, this`full
      ensures Valid()
      ensures status == (if open then Done else NotOpen)
      ensures !open ==> NothingFramed() && hookCalls == old(hookCalls) && full == old(full)
      ensures open ==>
        && Framed(BatchMessage(batch), value)
        && hookCalls == old(hookCalls) + HookCalls(hooks, value)
        && full == (old(full) || |log| >= maxQueueSize)
    {
      status := Frame(BatchMessage(batch), value);
      if status == Done {
        FireHooks(value);
        CheckFull();
      }
    }

    /** `doBatchEnd`: the end marker of a batch; the batch stops being current only if its id matches. */
    method DoBatchEnd(batch: string, args: Value) returns (status: Status)
      requires Valid()
      modifies this`currentMessage, this`log, this`sent, this`currentBatch
      ensures Valid()
      ensures status == (if open then Done else NotOpen)
      ensures !open ==> NothingFramed() && currentBatch == old(currentBatch)
      ensures open ==>
        && Framed(EndBatch(batch), args)
        && currentBatch == (if old(currentBatch) == Some(batch) then None else old(currentBatch))
    {
      status := Frame(EndBatch(batch), args);
      if status == Done && currentBatch == Some(batch) {
        currentBatch := None;
      }
    }

    // ---- groups and batches ----

    /**
     * `batch(id, args, handler)`: with no current batch the new one becomes
     * current and is started; otherwise it waits for the current batch's
     * end handler and nothing is started.
     */
    method Batch(id: string)
      modifies this`currentBatch, this`deferredBatch, this`batchStarts
      ensures old(currentBatch).None? ==>
        currentBatch == Some(id) && batchStarts == old(batchStarts) + [id] && deferredBatch == old(deferredBatch)
      ensures old(currentBatch).Some? ==>
        currentBatch == old(currentBatch) && batchStarts == old(batchStarts) && deferredBatch == Some(id)
    {
      if currentBatch.Some? {
        deferredBatch := Some(id);
      } else {
        currentBatch := Some(id);
        batchStarts := batchStarts + [id];
      }
    }

    /**
     * The end handler `batch` registered: the waiting batch becomes current
     * and is started. The batch object that runs this handler when it ends
     * is not part of this model, so this is an unconstrained event: nothing
     * ties it to a preceding DoBatchEnd of the current batch.
     */
    method RunBatchEndHandler()
      modifies this`currentBatch, this`deferredBatch, this`batchStarts
      ensures old(deferredBatch).None? ==>
        currentBatch == old(currentBatch) && deferredBatch == None && batchStarts == old(batchStarts)
      ensures old(deferredBatch).Some? ==>
        && currentBatch == old(deferredBatch) && deferredBatch == None
        && batchStarts == old(batchStarts) + [old(deferredBatch).value]
    {
      if deferredBatch.Some? {
        currentBatch := deferredBatch;
        batchStarts := batchStarts + [deferredBatch.value];
        deferredBatch := None;
      }
    }

    /**
     * `group(name, args[, parent], handler)` with the fresh id the source
     * draws from `UUID.randomUUID()`: the group is registered and started.
     */
    method Group(id: string, name: string, args: Value, parent: Option<string>)
      modifies this`groups, this`groupStarts
      ensures groups == old(groups)[id := GroupInfo(name, args, parent)]
      ensures groupStarts == old(groupStarts) + [id]
    {
      groups := groups[id := GroupInfo(name, args, parent)];
      groupStarts := groupStarts + [id];
    }

    // ---- peer control messages ----

    /** `doStartGroup`: confirmation for a registered group; unknown ids are ignored. */
    method DoStartGroup(group: Option<string>)
      modifies this`groupStartAcks
      ensures groupStartAcks == old(groupStartAcks) + (if group.Some? && group.value in groups then [group.value] else [])
    {
      if group.Some? && group.value in groups {
        groupStartAcks := groupStartAcks + [group.value];
      }
    }

    /** `doStartBatch`: confirmation for the current batch; any other id is ignored. */
    method DoStartBatch(batch: Option<string>)
      modifies this`batchStartAcks
      ensures batchStartAcks == old(batchStartAcks) + (if currentBatch.Some? && batch == currentBatch then [currentBatch.value] else [])
    {
      if currentBatch.Some? && batch == currentBatch {
        batchStartAcks := batchStartAcks + [currentBatch.value];
      }
    }

    /**
     * `doAck`, as the code does it (AckAsWritten): when `id + 1` is logged
     * the log is kept whole, otherwise it is cleared; then the drain check
     * runs. The cumulative rule the method's comment describes is
     * CumulativeAck, and AckRulesAgree says when the two coincide.
     */
    method DoAck(id: int)
      requires Valid()
      modifies this`log, this`full, this`drainCalls
      ensures Valid()
      ensures log == AckAsWritten(old(log), id)
      ensures log == old(log) || log == []
      ensures var d := Drains(old(full), paused, |log|, maxQueueSize);
        && full == (old(full) && !d)
        && drainCalls == old(drainCalls) + (if d && drainHandler.Some? then [drainHandler.value] else [])
    {
      log := AckAsWritten(log, id);
      CheckDrain();
    }

    /**
     * `doFail`: the acknowledgement step as the code does it, then every
     * envelope still logged is transmitted again in ascending id order,
     * paused or not: the whole log when `id + 1` is logged, nothing otherwise.
     */
    method DoFail(id: int)
      requires Valid()
      modifies this`log, this`full, this`drainCalls, this`sent
      ensures Valid()
      ensures log == AckAsWritten(old(log), id)
      ensures sent == old(sent) + log
      ensures Ascending(sent[|old(sent)|..])
      ensures var d := Drains(old(full), paused, |log|, maxQueueSize);
        && full == (old(full) && !d)
        && drainCalls == old(drainCalls) + (if d && drainHandler.Some? then [drainHandler.value] else [])
    {
      DoAck(id);
      Resend();
    }

    /** The resend loop of `doFail`: every logged envelope again, in ascending id order. */
    method Resend()
      requires Valid()
      modifies this`sent
      ensures sent == old(sent) + log
      ensures Ascending(sent[|old(sent)|..])
    {
      var i := 0;
      while i < |log|
        modifies this`sent
        invariant 0 <= i <= |log|
        invariant sent == old(sent) + log[..i]
      {
        sent := sent + [log[i]];
        i := i + 1;
      }
      assert log[..i] == log;
      assert sent[|old(sent)|..] == log;
      ConsecutiveIsAscending(log, First());
    }

    /** `doPause`: the peer asks the connection to stop transmitting. */
    method DoPause(id: int)
      modifies this`paused
      ensures paused
    {
      paused := true;
    }

    /** `doResume`: a no-op unless paused; otherwise unpause and run the drain check. */
    method DoResume(id: int)
      modifies this`paused, this`full, this`drainCalls
      ensures !paused
      ensures !old(paused) ==> full == old(full) && drainCalls == old(drainCalls)
      ensures old(paused) ==>
        var d := Drains(old(full), false, |log|, maxQueueSize);
        && full == (old(full) && !d)
        && drainCalls == old(drainCalls) + (if d && drainHandler.Some? then [drainHandler.value] else [])
    {
      if paused {
        paused := false;
        CheckDrain();
      }
    }

    /**
     * The dispatcher on the `.out` address: each action goes to its handler,
     * with that handler's effect. A message that needs an `id` and has none
     * throws a `NullPointerException` when the missing `Long` is unboxed,
     * before any handler runs, and changes nothing.
     */
    method HandlePeerMessage(m: PeerMessage) returns (thrown: bool)
      requires Valid()
      modifies this`log, this`full, this`drainCalls, this`sent, this`paused, this`groupStartAcks, this`batchStartAcks
      ensures Valid()
      ensures thrown <==> m.MissingId?
      ensures m.GroupStarted? ==>
        groupStartAcks == old(groupStartAcks) + (if m.group.Some? && m.group.value in groups then [m.group.value] else [])
      ensures m.BatchStarted? ==>
        batchStartAcks == old(batchStartAcks) + (if currentBatch.Some? && m.batch == currentBatch then [currentBatch.value] else [])
      ensures (m.AckUpTo? || m.FailFrom?) ==>
        var d := Drains(old(full), paused, |log|, maxQueueSize);
        && full == (old(full) && !d)
        && drainCalls == old(drainCalls) + (if d && drainHandler.Some? then [drainHandler.value] else [])
      ensures m.Resume? && !old(paused) ==> full == old(full) && drainCalls == old(drainCalls)
      ensures m.Resume? && old(paused) ==>
        var d := Drains(old(full), false, |log|, maxQueueSize);
        && full == (old(full) && !d)
        && drainCalls == old(drainCalls) + (if d && drainHandler.Some? then [drainHandler.value] else [])
      ensures (m.AckUpTo? || m.FailFrom?) ==> log == AckAsWritten(old(log), m.id)
      ensures !(m.AckUpTo? || m.FailFrom?) ==> log == old(log)
      ensures m.FailFrom? ==> sent == old(sent) + log
      ensures !m.FailFrom? ==> sent == old(sent)
      ensures m.Pause? ==> paused
      ensures m.Resume? ==> !paused
      ensures !(m.Pause? || m.Resume?) ==> paused == old(paused)
      ensures !m.GroupStarted? ==> groupStartAcks == old(groupStartAcks)
      ensures !m.BatchStarted? ==> batchStartAcks == old(batchStartAcks)
      ensures (m.GroupStarted? || m.BatchStarted? || m.Pause? || m.MissingId? || m.Unhandled?) ==>
        full == old(full) && drainCalls == old(drainCalls)
    {
      thrown := m.MissingId?;
      match m
      case GroupStarted(g) => DoStartGroup(g);
      case BatchStarted(b) => DoStartBatch(b);
      case AckUpTo(id) => DoAck(id);
      case FailFrom(id) => DoFail(id);
      case Pause(id) => DoPause(id);
      case Resume(id) => DoResume(id);
      case MissingId =>
      case Unhandled =>
    }
  }

  lemma HookCallsAppend(hooks: seq<HookId>, h: HookId, value: Value)
    ensures HookCalls(hooks + [h], value) == HookCalls(hooks, value) + [HookCall(h, value)]
  {
  }

  /**
   * One value sent on a connection that is open and not paused reaches
   * the peer as exactly one envelope, numbered with the next id.
   */
  method SendScenario(c: Connection, value: Value) returns (e: Envelope)
    requires c.Valid() && c.open && !c.paused
    modifies c
    ensures c.Valid()
    ensures e.id == old(c.currentMessage) && e.action == Message && e.body == value
    ensures c.sent == old(c.sent) + [e] && c.log == old(c.log) + [e]
  {
    var st := c.DoSend(value);
    e := c.log[|c.log| - 1];
  }

  /**
   * With `maxQueueSize` 10, ten sends fill the connection; `ack(10)` then
   * empties the log and calls the drain handler once.
   */
  method FillAndDrainScenario(h: HandlerId) returns (filled: bool, drained: seq<HandlerId>, remaining: nat)
    ensures filled && drained == [h] && remaining == 0
  {
    var c := new Connection([]);
    c.SetSendQueueMaxSize(10);
    c.DrainHandler(Some(h));
    var d := c.HandleConnectReply(Replied(true));
    var i := 0;
    while i < 10
      invariant 0 <= i <= 10
      invariant c.Valid() && c.open && !c.paused
      invariant c.maxQueueSize == 10 && c.drainHandler == Some(h)
      invariant |c.log| == i && c.currentMessage == i + 1
      invariant c.full == (i >= 10) && c.drainCalls == []
    {
      var st := c.DoSend("m");
      i := i + 1;
    }
    filled := c.SendQueueFull() && c.full;
    ConsecutiveKeys(c.log, 1, 11);
    c.DoAck(10);
    drained, remaining := c.drainCalls, |c.log|;
  }
}
