/**
 * The connect and disconnect handshakes of DefaultOutputConnection as a
 * decision table: how one reply to a `connect` or `disconnect` probe is
 * handled, and where a sequence of replies to repeated probes leads.
 */
module Handshake {

  /** The failure kinds Vert.x reports on a `sendWithTimeout` reply. */
  datatype FailureKind = Timeout | NoHandlers | RecipientFailure

  /** The outcome of one probe: a failure, or the peer's boolean reply. */
  datatype Reply = Failed(kind: FailureKind) | Replied(accepted: bool)

  /** What the reply handler does next. */
  datatype Decision = Succeed | Fail | RetryNow | RetryAfter(delayMs: nat)

  /** The timer before a probe is sent again. */
  const RetryDelayMs: nat := 500
  /** Reply timeout of a `connect` probe. */
  const ConnectTimeoutMs: nat := 1000
  /** Reply timeout of a `disconnect` probe. */
  const DisconnectTimeoutMs: nat := 5000

  /**
   * The reply handler of `connect`: only an explicit `true` opens, only a
   * recipient failure gives up, and every other reply probes again.
   */
  function ConnectDecision(r: Reply): (d: Decision)
    ensures d == Succeed <==> r == Replied(true)
    ensures d == Fail <==> r == Failed(RecipientFailure)
    ensures d.RetryAfter? ==> d.delayMs == RetryDelayMs
  {
    match r
    case Failed(RecipientFailure) => Fail
    case Failed(Timeout) => RetryNow
    case Failed(NoHandlers) => RetryAfter(RetryDelayMs)
    case Replied(accepted) => if accepted then Succeed else RetryAfter(RetryDelayMs)
  }

  /**
   * The reply handler of `disconnect`: an explicit `true` or a missing
   * handler closes, only a recipient failure gives up, and every other
   * reply probes again.
   */
  function DisconnectDecision(r: Reply): (d: Decision)
    ensures d == Succeed <==> r == Replied(true) || r == Failed(NoHandlers)
    ensures d == Fail <==> r == Failed(RecipientFailure)
    ensures d.RetryAfter? ==> d.delayMs == RetryDelayMs
  {
    match r
    case Failed(RecipientFailure) => Fail
    case Failed(NoHandlers) => Succeed
    case Failed(Timeout) => RetryNow
    case Replied(accepted) => if accepted then Succeed else RetryAfter(RetryDelayMs)
  }

  predicate Terminal(d: Decision)
  {
    d == Succeed || d == Fail
  }

  /** Where a handshake stands after some replies: finished (with its result) or still probing. */
  datatype Run = Completed(ok: bool, attempts: nat) | Probing(attempts: nat, timers: nat)

  /**
   * The recursive probe loop: one probe per reply, in arrival order,
   * until a reply decides the handshake. `timers` counts the probes that
   * waited for the retry timer.
   */
  function RunHandshake(decide: Reply -> Decision, replies: seq<Reply>): (r: Run)
    ensures r.attempts <= |replies|
    ensures r.Completed? ==>
      && r.attempts >= 1
      && Terminal(decide(replies[r.attempts - 1]))
      && (r.ok <==> decide(replies[r.attempts - 1]) == Succeed)
      && forall i :: 0 <= i < r.attempts - 1 ==> !Terminal(decide(replies[i]))
    ensures r.Probing? ==>
      && r.attempts == |replies|
      && r.timers <= |replies|
      && forall i :: 0 <= i < |replies| ==> !Terminal(decide(replies[i]))
  {
    if replies == [] then Probing(0, 0)
    else
      match decide(replies[0])
      case Succeed => Completed(true, 1)
      case Fail => Completed(false, 1)
      case RetryNow => Later(RunHandshake(decide, replies[1..]), false)
      case RetryAfter(_) => Later(RunHandshake(decide, replies[1..]), true)
  }

  /** One more probe in front of a run. */
  function Later(r: Run, timed: bool): Run
  {
    match r
    case Completed(ok, n) => Completed(ok, n + 1)
    case Probing(n, t) => Probing(n + 1, if timed then t + 1 else t)
  }

  /**
   * `open` registers the handler first; a failed registration fails the
   * open without any probe, otherwise the connect loop runs.
   */
  function OpenRun(registered: bool, replies: seq<Reply>): (r: Run)
  {
    if registered then RunHandshake(ConnectDecision, replies) else Completed(false, 0)
  }

  /** `close` unregisters the handler first, then runs the disconnect loop. */
  function CloseRun(unregistered: bool, replies: seq<Reply>): (r: Run)
  {
    if unregistered then RunHandshake(DisconnectDecision, replies) else Completed(false, 0)
  }

  /**
   * A connection opens only on an explicit positive reply, after probes
   * that all timed out, found no handler or were refused; it fails only on
   * a failed registration or a recipient failure.
   */
  lemma OpenOutcomes(registered: bool, replies: seq<Reply>)
    ensures var r := OpenRun(registered, replies);
      && (r == Completed(true, r.attempts) ==>
            registered && replies[r.attempts - 1] == Replied(true) &&
            forall i :: 0 <= i < r.attempts - 1 ==> replies[i] != Replied(true) && replies[i] != Failed(RecipientFailure))
      && (r == Completed(false, r.attempts) ==>
            !registered || replies[r.attempts - 1] == Failed(RecipientFailure))
  {
    if registered {
      var r := RunHandshake(ConnectDecision, replies);
      if r.Completed? {
        var last := replies[r.attempts - 1];
        assert Terminal(ConnectDecision(last));
        assert last == Replied(true) || last == Failed(RecipientFailure) by {
          match last
          case Failed(k) =>
          case Replied(a) =>
        }
      }
    }
  }

  /**
   * A close succeeds on a positive reply or on "no handlers" (the peer is
   * already gone); it fails only on a failed unregistration or a
   * recipient failure.
   */
  lemma CloseOutcomes(unregistered: bool, replies: seq<Reply>)
    ensures var r := CloseRun(unregistered, replies);
      && (r == Completed(true, r.attempts) ==>
            unregistered &&
            (replies[r.attempts - 1] == Replied(true) || replies[r.attempts - 1] == Failed(NoHandlers)))
      && (r == Completed(false, r.attempts) ==>
            !unregistered || replies[r.attempts - 1] == Failed(RecipientFailure))
  {
    if unregistered {
      var r := RunHandshake(DisconnectDecision, replies);
      if r.Completed? {
        var last := replies[r.attempts - 1];
        assert Terminal(DisconnectDecision(last));
        assert last == Replied(true) || last == Failed(RecipientFailure) || last == Failed(NoHandlers) by {
          match last
          case Failed(k) =>
          case Replied(a) =>
        }
      }
    }
  }

  /**
   * Probing never gives up: timeouts, missing handlers and refusals keep
   * the connect loop going, and each missing handler or refusal waits for
   * the retry timer.
   */
  lemma {:induction false} ConnectRetriesIndefinitely(replies: seq<Reply>)
    requires forall i :: 0 <= i < |replies| ==>
      replies[i] == Failed(Timeout) || replies[i] == Failed(NoHandlers) || replies[i] == Replied(false)
    ensures RunHandshake(ConnectDecision, replies).Probing?
    ensures RunHandshake(ConnectDecision, replies).timers == CountTimedRetries(replies)
  {
    if replies != [] {
      ConnectRetriesIndefinitely(replies[1..]);
    }
  }

  /**
   * Timeouts and refusals keep the disconnect loop going, and each refusal
   * waits for the retry timer; a missing handler ends it (it counts as
   * disconnected), so only these two replies can repeat for ever.
   */
  lemma {:induction false} DisconnectRetriesIndefinitely(replies: seq<Reply>)
    requires forall i :: 0 <= i < |replies| ==>
      replies[i] == Failed(Timeout) || replies[i] == Replied(false)
    ensures RunHandshake(DisconnectDecision, replies).Probing?
    ensures RunHandshake(DisconnectDecision, replies).timers == CountRefusals(replies)
  {
    if replies != [] {
      DisconnectRetriesIndefinitely(replies[1..]);
    }
  }

  /** The number of `false` replies in a sequence: those `disconnect` answers with the retry timer. */
  function CountRefusals(replies: seq<Reply>): nat
  {
    if replies == [] then 0
    else (if replies[0] == Replied(false) then 1 else 0) + CountRefusals(replies[1..])
  }

  /** The number of replies in a sequence that `connect` answers with the retry timer. */
  function CountTimedRetries(replies: seq<Reply>): nat
  {
    if replies == [] then 0
    else (if replies[0] == Replied(false) || replies[0] == Failed(NoHandlers) then 1 else 0) + CountTimedRetries(replies[1..])
  }
}
