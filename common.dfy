/**
 * Types shared by the output connection, the output port and the
 * exactly-once connection: optional values, message payloads and the
 * record of output-hook invocations.
 */
module Common {

  datatype Option<+T> = None | Some(value: T)

  /** A serialized message payload (the serializer itself is not modelled). */
  type Value = string

  /** Identity of a registered output hook. */
  type HookId = nat

  /** Identity of a user-supplied drain handler. */
  type HandlerId = nat

  /** One call `hook.handleSend(value)`. */
  datatype HookCall = HookCall(hook: HookId, value: Value)

  /**
   * The calls made by `for (OutputHook hook : hooks) hook.handleSend(value)`:
   * every hook once, in registration order, each with the sent value.
   */
  function HookCalls(hooks: seq<HookId>, value: Value): (r: seq<HookCall>)
    ensures |r| == |hooks|
    ensures forall i :: 0 <= i < |hooks| ==> r[i] == HookCall(hooks[i], value)
  {
    if hooks == [] then [] else [HookCall(hooks[0], value)] + HookCalls(hooks[1..], value)
  }

  /** Number of occurrences of `x` in `s`. */
  function Count<T(==)>(s: seq<T>, x: T): nat
  {
    if s == [] then 0 else (if s[0] == x then 1 else 0) + Count(s[1..], x)
  }

  /**
   * Every hook sees every sent value once per registration: a hook
   * registered once receives exactly one call, and no call carries any
   * other value.
   */
  lemma {:induction false} HookCallsOncePerHook(hooks: seq<HookId>, value: Value, h: HookId)
    ensures Count(HookCalls(hooks, value), HookCall(h, value)) == Count(hooks, h)
    ensures forall c :: c in HookCalls(hooks, value) ==> c.value == value && c.hook in hooks
  {
    if hooks != [] {
      HookCallsOncePerHook(hooks[1..], value, h);
      assert HookCalls(hooks, value)[1..] == HookCalls(hooks[1..], value);
    }
  }
}
