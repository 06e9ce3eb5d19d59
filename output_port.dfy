/**
 * DefaultOutputPort: the aggregation of a port's output streams. Each
 * task the port hands to its task runner (`update`, `open`, `close`) is
 * one atomic step here, with the results of the streams' own `open` and
 * `close` given as inputs. The streams themselves are not modelled: a
 * `Stream` holds the configuration the port pushed to it and the size and
 * full readings it reports, and `calls` records every call the port makes
 * on a stream.
 */
module OutputPort {
  import opened Common

  const DefaultSendQueueMaxSize: int := 10000

  /**
   * A stream of the port: its address, the queue size and drain handler
   * the port configured on it (`None` when the port never set one), and
   * what it reports from `size()` and `sendQueueFull()`.
   */
  datatype Stream = Stream(
    address: string,
    maxQueueSize: Option<int>,
    drainHandler: Option<HandlerId>,
    size: nat,
    full: bool)

  /** A call the port makes on one of its streams. */
  datatype StreamCall =
    | OpenCall(address: string)
    | CloseCall(address: string)
    | SendCall(address: string, value: Value)
    | BatchCall(address: string, batch: string)
    | GroupCall(address: string, group: string)

  /** A stream as `update` creates it: `new DefaultOutputStream(vertx, output)`, nothing configured. */
  function NewStream(address: string): Stream
  {
    Stream(address, None, None, 0, false)
  }

  function Addresses(streams: seq<Stream>): (r: seq<string>)
    ensures |r| == |streams|
    ensures forall i :: 0 <= i < |streams| ==> r[i] == streams[i].address
  {
    if streams == [] then [] else [streams[0].address] + Addresses(streams[1..])
  }

  /** The streams `update` keeps: those whose address the new configuration still lists, in order. */
  function Survivors(streams: seq<Stream>, config: seq<string>): (r: seq<Stream>)
    ensures |r| <= |streams|
  {
    if streams == [] then []
    else
      var rest := Survivors(streams[1..], config);
      if streams[0].address in config then [streams[0]] + rest else rest
  }

  /** The streams `update` closes and drops, in order. */
  function Dropped(streams: seq<Stream>, config: seq<string>): (r: seq<Stream>)
    ensures |Survivors(streams, config)| + |r| == |streams|
  {
    if streams == [] then []
    else
      var rest := Dropped(streams[1..], config);
      if streams[0].address !in config then [streams[0]] + rest else rest
  }

  /**
   * The addresses `update` creates streams for: every entry of the new
   * configuration (duplicates included) that no kept stream has.
   */
  function Missing(config: seq<string>, kept: seq<Stream>): (r: seq<string>)
    ensures |r| <= |config|
  {
    if config == [] then []
    else
      var rest := Missing(config[1..], kept);
      if config[0] !in Addresses(kept) then [config[0]] + rest else rest
  }

  /** The addresses whose stream opened successfully, in order. */
  function OpenedOnly(addresses: seq<string>, opens: string -> bool): (r: seq<string>)
    ensures |r| <= |addresses|
  {
    if addresses == [] then []
    else
      var rest := OpenedOnly(addresses[1..], opens);
      if opens(addresses[0]) then [addresses[0]] + rest else rest
  }

  /** A stream is kept exactly when it was there and the configuration lists its address. */
  lemma {:induction false} SurvivorsMembers(streams: seq<Stream>, config: seq<string>, s: Stream)
    ensures s in Survivors(streams, config) <==> s in streams && s.address in config
  {
    if streams != [] {
      SurvivorsMembers(streams[1..], config, s);
      assert s in streams <==> s == streams[0] || s in streams[1..];
    }
  }

  /** A stream is closed exactly when it was there and the configuration no longer lists it. */
  lemma {:induction false} DroppedMembers(streams: seq<Stream>, config: seq<string>, s: Stream)
    ensures s in Dropped(streams, config) <==> s in streams && s.address !in config
  {
    if streams != [] {
      DroppedMembers(streams[1..], config, s);
      assert s in streams <==> s == streams[0] || s in streams[1..];
    }
  }

  /** An address gets a new stream exactly when it is configured and no kept stream has it. */
  lemma {:induction false} MissingMembers(config: seq<string>, kept: seq<Stream>, a: string)
    ensures a in Missing(config, kept) <==> a in config && a !in Addresses(kept)
  {
    if config != [] {
      MissingMembers(config[1..], kept, a);
      assert a in config <==> a == config[0] || a in config[1..];
    }
  }

  lemma {:induction false} OpenedOnlyMembers(addresses: seq<string>, opens: string -> bool, a: string)
    ensures a in OpenedOnly(addresses, opens) <==> a in addresses && opens(a)
  {
    if addresses != [] {
      OpenedOnlyMembers(addresses[1..], opens, a);
      assert a in addresses <==> a == addresses[0] || a in addresses[1..];
    }
  }

  function NewStreams(addresses: seq<string>): (r: seq<Stream>)
    ensures |r| == |addresses|
  {
    if addresses == [] then [] else [NewStream(addresses[0])] + NewStreams(addresses[1..])
  }

  /** Streams as `open` creates them: configured with the port's queue size and drain handler. */
  function ConfiguredStreams(addresses: seq<string>, maxQueueSize: int, drain: Option<HandlerId>): (r: seq<Stream>)
    ensures |r| == |addresses|
  {
    if addresses == [] then []
    else [Stream(addresses[0], Some(maxQueueSize), drain, 0, false)] + ConfiguredStreams(addresses[1..], maxQueueSize, drain)
  }

  function OpenCalls(addresses: seq<string>): (r: seq<StreamCall>)
    ensures |r| == |addresses|
  {
    if addresses == [] then [] else [OpenCall(addresses[0])] + OpenCalls(addresses[1..])
  }

  function CloseCalls(streams: seq<Stream>): (r: seq<StreamCall>)
    ensures |r| == |streams|
  {
    if streams == [] then [] else [CloseCall(streams[0].address)] + CloseCalls(streams[1..])
  }

  /** The port's fan-out of one call: the same call on every stream, once each, in order. */
  function FanOut(streams: seq<Stream>, call: string -> StreamCall): (r: seq<StreamCall>)
    ensures |r| == |streams|
  {
    if streams == [] then [] else [call(streams[0].address)] + FanOut(streams[1..], call)
  }

  /**
   * The streams the port holds after `update` when `open` is the port's
   * state: the kept streams first, in their order, then at most one new
   * stream per configuration entry.
   */
  function AfterUpdate(streams: seq<Stream>, config: seq<string>, open: bool, opens: string -> bool): (r: seq<Stream>)
    ensures Survivors(streams, config) <= r
    ensures |r| <= |Survivors(streams, config)| + |config|
  {
    var kept := Survivors(streams, config);
    var created := Missing(config, kept);
    kept + NewStreams(if open then OpenedOnly(created, opens) else created)
  }

  lemma AddressesAppend(a: seq<Stream>, b: seq<Stream>)
    ensures Addresses(a + b) == Addresses(a) + Addresses(b)
  {
    assert |Addresses(a + b)| == |Addresses(a) + Addresses(b)|;
    forall i | 0 <= i < |a + b| ensures Addresses(a + b)[i] == (Addresses(a) + Addresses(b))[i] {
      if i < |a| {} else { assert (a + b)[i] == b[i - |a|]; }
    }
  }

  lemma {:induction false} NewStreamsAddresses(addresses: seq<string>)
    ensures Addresses(NewStreams(addresses)) == addresses
  {
    if addresses != [] {
      NewStreamsAddresses(addresses[1..]);
    }
  }

  /** A fan-out makes the call once for each stream, in stream order, and nothing else. */
  lemma {:induction false} FanOutOncePerStream(streams: seq<Stream>, call: string -> StreamCall, i: nat)
    requires i < |streams|
    ensures FanOut(streams, call)[i] == call(streams[i].address)
  {
    if i > 0 {
      FanOutOncePerStream(streams[1..], call, i - 1);
    }
  }

  /**
   * `update` follows the new configuration: on a closed port the streams
   * afterwards cover exactly the configured addresses; on an open port an
   * address is covered when it was kept or its new stream opened. No
   * surviving stream has an address outside the configuration.
   */
  lemma UpdateFollowsConfig(streams: seq<Stream>, config: seq<string>, open: bool, opens: string -> bool, a: string)
    ensures var after := Addresses(AfterUpdate(streams, config, open, opens));
      && (a in after ==> a in config)
      && (!open ==> (a in after <==> a in config))
      && (open ==> (a in after <==> a in config && (a in Addresses(streams) || opens(a))))
  {
    var kept := Survivors(streams, config);
    var created := Missing(config, kept);
    var added := if open then OpenedOnly(created, opens) else created;
    AddressesAppend(kept, NewStreams(added));
    NewStreamsAddresses(added);
    assert a in Addresses(kept) <==> a in config && a in Addresses(streams) by {
      if a in Addresses(kept) {
        var i :| 0 <= i < |kept| && Addresses(kept)[i] == a;
        assert kept[i] in kept;
        SurvivorsMembers(streams, config, kept[i]);
        var j :| 0 <= j < |streams| && streams[j] == kept[i];
        assert Addresses(streams)[j] == a;
      }
      if a in config && a in Addresses(streams) {
        var j :| 0 <= j < |streams| && Addresses(streams)[j] == a;
        assert streams[j] in streams;
        SurvivorsMembers(streams, config, streams[j]);
        var i :| 0 <= i < |kept| && kept[i] == streams[j];
        assert Addresses(kept)[i] == a;
      }
    }
    MissingMembers(config, kept, a);
    if open {
      OpenedOnlyMembers(created, opens, a);
    }
  }

  /** Whether some stream of `streams` has `address` (the inner search loops of `update`). */
  method HasStream(streams: seq<Stream>, address: string) returns (found: bool)
    ensures found <==> address in Addresses(streams)
  {
    found := false;
    var i := 0;
    while i < |streams|
      invariant 0 <= i <= |streams|
      invariant !found
      invariant address !in Addresses(streams[..i])
    {
      assert Addresses(streams[..i + 1]) == Addresses(streams[..i]) + [streams[i].address] by {
        assert streams[..i + 1] == streams[..i] + [streams[i]];
        AddressesAppend(streams[..i], [streams[i]]);
      }
      if streams[i].address == address {
        found := true;
        assert Addresses(streams)[i] == address;
        return;
      }
      i := i + 1;
    }
    assert streams[..i] == streams;
  }

  /** Whether `config` lists `address` (the inner search loop of `update`'s removal pass). */
  method Listed(config: seq<string>, address: string) returns (found: bool)
    ensures found <==> address in config
  {
    var j := 0;
    while j < |config|
      invariant 0 <= j <= |config|
      invariant address !in config[..j]
    {
      if config[j] == address {
        return true;
      }
      assert config[..j + 1] == config[..j] + [config[j]];
      j := j + 1;
    }
    assert config[..j] == config;
    return false;
  }

  /** The removal pass of `update`: which streams stay and which are closed, each in order. */
  method Partition(streams: seq<Stream>, config: seq<string>) returns (kept: seq<Stream>, dropped: seq<Stream>)
    ensures kept == Survivors(streams, config)
    ensures dropped == Dropped(streams, config)
  {
    kept, dropped := [], [];
    var i := 0;
    while i < |streams|
      invariant 0 <= i <= |streams|
      invariant kept == Survivors(streams[..i], config)
      invariant dropped == Dropped(streams[..i], config)
    {
      var found := Listed(config, streams[i].address);
      SplitLast(streams, i, config);
      if found {
        kept := kept + [streams[i]];
      } else {
        dropped := dropped + [streams[i]];
      }
      i := i + 1;
    }
    assert streams[..i] == streams;
  }

  /** The creation pass of `update`: the configured addresses no kept stream has, in order. */
  method MissingAddresses(config: seq<string>, kept: seq<Stream>) returns (created: seq<string>)
    ensures created == Missing(config, kept)
  {
    created := [];
    var k := 0;
    while k < |config|
      invariant 0 <= k <= |config|
      invariant created == Missing(config[..k], kept)
    {
      var found := HasStream(kept, config[k]);
      MissingSnoc(config, k, kept);
      if !found {
        created := created + [config[k]];
      }
      k := k + 1;
    }
    assert config[..k] == config;
  }

  /**
   * The counting barrier of the port's `batch` and `group`: the user's
   * handler runs once, when the number of started sub-batches or
   * sub-groups reaches the stream count captured at the call.
   */
  class Barrier {
    const expected: nat
    /** The handles of the sub-batches or sub-groups started so far, by stream address. */
    var arrived: seq<string>
    /** Each call of the user's handler, with the handles it received. */
    var firings: seq<seq<string>>

    ghost predicate Valid()
      reads this
    {
      |firings| == FiredCount(expected, |arrived|)
    }

    /** With no streams the handler runs at once with an empty list. */
    constructor (expected: nat)
      ensures Valid()
      ensures this.expected == expected && arrived == []
      ensures firings == (if expected == 0 then [[]] else [])
    {
      this.expected := expected;
      arrived := [];
      firings := if expected == 0 then [[]] else [];
    }

    method Arrive(handle: string)
      requires Valid()
      modifies this`arrived, this`firings
      ensures Valid()
      ensures arrived == old(arrived) + [handle]
      ensures firings == old(firings) + (if |arrived| == expected then [arrived] else [])
    {
      arrived := arrived + [handle];
      if |arrived| == expected {
        firings := firings + [arrived];
      }
    }
  }

  /** How often the handler of a barrier expecting `expected` has run after `arrivals` arrivals. */
  function FiredCount(expected: nat, arrivals: nat): nat
  {
    if arrivals == 0 then (if expected == 0 then 1 else 0)
    else FiredCount(expected, arrivals - 1) + (if arrivals == expected then 1 else 0)
  }

  /** The handler runs at most once: never before every stream has answered, once from then on. */
  lemma {:induction false} FiredAtMostOnce(expected: nat, arrivals: nat)
    ensures FiredCount(expected, arrivals) == if expected == 0 || arrivals >= expected then 1 else 0
  {
    if arrivals > 0 {
      FiredAtMostOnce(expected, arrivals - 1);
    }
  }

  class Port {
    const hooks: seq<HookId>
    var streams: seq<Stream>
    var maxQueueSize: int
    var drainHandler: Option<HandlerId>
    var open: bool
    /** Every call made on a stream, in order. */
    var calls: seq<StreamCall>
    var hookCalls: seq<HookCall>

    constructor (hooks: seq<HookId>)
      ensures this.hooks == hooks && streams == [] && maxQueueSize == DefaultSendQueueMaxSize
      ensures drainHandler == None && !open && calls == [] && hookCalls == []
    {
      this.hooks := hooks;
      streams := [];
      maxQueueSize := DefaultSendQueueMaxSize;
      drainHandler := None;
      open := false;
      calls := [];
      hookCalls := [];
    }

    /**
     * `update`: streams whose address left the configuration are closed and
     * dropped whatever the close result; a stream is created for every
     * configured address no kept stream has. On a closed port the new
     * streams are added at once; on an open port a new stream is added only
     * once its own open succeeded (`opens`).
     */
    method Update(config: seq<string>, opens: string -> bool)
      modifies this`streams, this`calls
      ensures streams == AfterUpdate(old(streams), config, open, opens)
      ensures calls == old(calls) + CloseCalls(Dropped(old(streams), config))
        + (if open then OpenCalls(Missing(config, Survivors(old(streams), config))) else [])
    {
      var kept, dropped := Partition(streams, config);
      RecordCloses(dropped);
      streams := kept;
      var created := MissingAddresses(config, kept);
      if open {
        OpenNew(created, opens);
      } else {
        streams := streams + NewStreams(created);
      }
    }

    /** The close calls `update` makes on the dropped streams; their results are ignored. */
    method RecordCloses(dropped: seq<Stream>)
      modifies this`calls
      ensures calls == old(calls) + CloseCalls(dropped)
    {
      var i := 0;
      while i < |dropped|
        invariant 0 <= i <= |dropped|
        invariant calls == old(calls) + CloseCalls(dropped[..i])
      {
        CloseCallsSnoc(dropped, i);
        calls := calls + [CloseCall(dropped[i].address)];
        i := i + 1;
      }
      assert dropped[..i] == dropped;
    }

    /** On an open port, each new stream is opened and added only once its open succeeded. */
    method OpenNew(created: seq<string>, opens: string -> bool)
      modifies this`streams, this`calls
      ensures streams == old(streams) + NewStreams(OpenedOnly(created, opens))
      ensures calls == old(calls) + OpenCalls(created)
    {
      var added: seq<Stream> := [];
      var m := 0;
      while m < |created|
        modifies this`calls
        invariant 0 <= m <= |created|
        invariant added == NewStreams(OpenedOnly(created[..m], opens))
        invariant calls == old(calls) + OpenCalls(created[..m])
      {
        ghost var done := OpenedOnly(created[..m], opens);
        OpenedOnlySnoc(created, m, opens);
        OpenCallsSnoc(created, m);
        calls := calls + [OpenCall(created[m])];
        if opens(created[m]) {
          NewStreamsSnoc(done, created[m]);
          added := added + [NewStream(created[m])];
        } else {
          assert OpenedOnly(created[..m + 1], opens) == done;
        }
        m := m + 1;
      }
      assert created[..m] == created;
      streams := streams + added;
    }

    /**
     * `open`: a no-op success when already open. Otherwise the stream list
     * is cleared, the port is marked open, a stream configured with the
     * port's queue size and drain handler is opened for every configured
     * address, and only those that opened are kept; the open succeeds when
     * every stream opened.
     */
    method Open(config: seq<string>, opens: string -> bool) returns (ok: bool)
      modifies this`streams, this`open, this`calls
      ensures open
      ensures old(open) ==> ok && streams == old(streams) && calls == old(calls)
      ensures !old(open) ==>
        && streams == ConfiguredStreams(OpenedOnly(config, opens), maxQueueSize, drainHandler)
        && calls == old(calls) + OpenCalls(config)
        && (ok <==> forall i :: 0 <= i < |config| ==> opens(config[i]))
    {
      if open {
        return true;
      }
      streams := [];
      open := true;
      ok := OpenConfigured(config, opens);
    }

    /** The loop of `open`: each configured stream is set up, opened, and kept once it opened. */
    method OpenConfigured(config: seq<string>, opens: string -> bool) returns (ok: bool)
      modifies this`streams, this`calls
      ensures streams == old(streams) + ConfiguredStreams(OpenedOnly(config, opens), maxQueueSize, drainHandler)
      ensures calls == old(calls) + OpenCalls(config)
      ensures ok <==> forall i :: 0 <= i < |config| ==> opens(config[i])
    {
      var size, drain := maxQueueSize, drainHandler;
      var added: seq<Stream> := [];
      ok := true;
      var i := 0;
      while i < |config|
        modifies this`calls
        invariant 0 <= i <= |config|
        invariant added == ConfiguredStreams(OpenedOnly(config[..i], opens), size, drain)
        invariant calls == old(calls) + OpenCalls(config[..i])
        invariant ok == AllOpen(config[..i], opens)
      {
        ghost var done := OpenedOnly(config[..i], opens);
        AllOpenSnoc(config, i, opens);
        OpenedOnlySnoc(config, i, opens);
        OpenCallsSnoc(config, i);
        calls := calls + [OpenCall(config[i])];
        if opens(config[i]) {
          ConfiguredSnoc(done, config[i], size, drain);
          added := added + [Stream(config[i], Some(size), drain, 0, false)];
        } else {
          assert OpenedOnly(config[..i + 1], opens) == done;
          ok := false;
        }
        i := i + 1;
      }
      assert config[..i] == config;
      streams := streams + added;
      assert ok <==> forall i :: 0 <= i < |config| ==> opens(config[i]);
    }

    /**
     * `close`: a no-op success when not open. Otherwise the stream list is
     * emptied and the port marked closed before every former stream is
     * closed; the close succeeds when every stream closed.
     */
    method Close(closes: string -> bool) returns (ok: bool)
      modifies this`streams, this`open, this`calls
      ensures !open
      ensures !old(open) ==> ok && streams == old(streams) && calls == old(calls)
      ensures old(open) ==>
        && streams == []
        && calls == old(calls) + CloseCalls(old(streams))
        && (ok <==> forall i :: 0 <= i < |old(streams)| ==> closes(old(streams)[i].address))
    {
      if !open {
        return true;
      }
      var closing := streams;
      streams := [];
      open := false;
      ok := true;
      var i := 0;
      while i < |closing|
        modifies this`calls
        invariant 0 <= i <= |closing|
        invariant calls == old(calls) + CloseCalls(closing[..i])
        invariant ok <==> forall j :: 0 <= j < i ==> closes(closing[j].address)
      {
        CloseCallsSnoc(closing, i);
        calls := calls + [CloseCall(closing[i].address)];
        if !closes(closing[i].address) {
          ok := false;
        }
        i := i + 1;
      }
      assert closing[..i] == closing;
    }

    /** `setSendQueueMaxSize`: a non-positive size is rejected; otherwise every current stream gets it. */
    method SetSendQueueMaxSize(maxSize: int) returns (accepted: bool)
      modifies this`maxQueueSize, this`streams
      ensures accepted <==> maxSize > 0
      ensures !accepted ==> maxQueueSize == old(maxQueueSize) && streams == old(streams)
      ensures accepted ==>
        && maxQueueSize == maxSize
        && |streams| == |old(streams)|
        && forall i :: 0 <= i < |streams| ==> streams[i] == old(streams)[i].(maxQueueSize := Some(maxSize))
    {
      if maxSize <= 0 {
        return false;
      }
      maxQueueSize := maxSize;
      var i := 0;
      while i < |streams|
        invariant 0 <= i <= |streams| && |streams| == |old(streams)|
        modifies this`streams
        invariant forall j :: 0 <= j < i ==> streams[j] == old(streams)[j].(maxQueueSize := Some(maxSize))
        invariant forall j :: i <= j < |streams| ==> streams[j] == old(streams)[j]
      {
        streams := streams[i := streams[i].(maxQueueSize := Some(maxSize))];
        i := i + 1;
      }
      accepted := true;
    }

    /** `drainHandler`: the handler is kept for later streams and reaches every current one. */
    method DrainHandler(handler: Option<HandlerId>)
      modifies this`drainHandler, this`streams
      ensures drainHandler == handler
      ensures |streams| == |old(streams)|
      ensures forall i :: 0 <= i < |streams| ==> streams[i] == old(streams)[i].(drainHandler := handler)
    {
      drainHandler := handler;
      var i := 0;
      while i < |streams|
        invariant 0 <= i <= |streams| && |streams| == |old(streams)|
        modifies this`streams
        invariant forall j :: 0 <= j < i ==> streams[j] == old(streams)[j].(drainHandler := handler)
        invariant forall j :: i <= j < |streams| ==> streams[j] == old(streams)[j]
      {
        streams := streams[i := streams[i].(drainHandler := handler)];
        i := i + 1;
      }
    }

    /** `size()`: the largest stream size, 0 with no streams. */
    method Size() returns (highest: nat)
      ensures forall i :: 0 <= i < |streams| ==> streams[i].size <= highest
      ensures (streams == [] && highest == 0) || exists i :: 0 <= i < |streams| && streams[i].size == highest
    {
      highest := 0;
      var i := 0;
      while i < |streams|
        invariant 0 <= i <= |streams|
        invariant forall j :: 0 <= j < i ==> streams[j].size <= highest
        invariant (i == 0 && highest == 0) || exists j :: 0 <= j < i && streams[j].size == highest
      {
        if streams[i].size > highest {
          highest := streams[i].size;
        }
        i := i + 1;
      }
    }

    /** `sendQueueFull()`: some stream reports full. */
    method SendQueueFull() returns (full: bool)
      ensures full <==> exists i :: 0 <= i < |streams| && streams[i].full
    {
      var i := 0;
      while i < |streams|
        invariant 0 <= i <= |streams|
        invariant forall j :: 0 <= j < i ==> !streams[j].full
      {
        if streams[i].full {
          return true;
        }
        i := i + 1;
      }
      return false;
    }

    /** `batch`: the batch is started on every stream; the barrier waits for all of them. */
    method Batch(id: string) returns (b: Barrier)
      modifies this`calls
      ensures fresh(b) && b.Valid()
      ensures b.expected == |streams| && b.arrived == []
      ensures b.firings == (if streams == [] then [[]] else [])
      ensures calls == old(calls) + FanOut(streams, a => BatchCall(a, id))
    {
      b := new Barrier(|streams|);
      var i := 0;
      while i < |streams|
        invariant 0 <= i <= |streams|
        modifies this`calls
        invariant calls == old(calls) + FanOut(streams[..i], a => BatchCall(a, id))
      {
        FanOutSnoc(streams, i, a => BatchCall(a, id));
        calls := calls + [BatchCall(streams[i].address, id)];
        i := i + 1;
      }
      assert streams[..i] == streams;
    }

    /** `group`: the group is started on every stream; the barrier waits for all of them. */
    method Group(name: string) returns (b: Barrier)
      modifies this`calls
      ensures fresh(b) && b.Valid()
      ensures b.expected == |streams| && b.arrived == []
      ensures b.firings == (if streams == [] then [[]] else [])
      ensures calls == old(calls) + FanOut(streams, a => GroupCall(a, name))
    {
      b := new Barrier(|streams|);
      var i := 0;
      while i < |streams|
        invariant 0 <= i <= |streams|
        modifies this`calls
        invariant calls == old(calls) + FanOut(streams[..i], a => GroupCall(a, name))
      {
        FanOutSnoc(streams, i, a => GroupCall(a, name));
        calls := calls + [GroupCall(streams[i].address, name)];
        i := i + 1;
      }
      assert streams[..i] == streams;
    }

    /** `send`: the message goes to every stream once, then every port hook sees it once. */
    method Send(value: Value)
      modifies this`calls, this`hookCalls
      ensures calls == old(calls) + FanOut(streams, a => SendCall(a, value))
      ensures hookCalls == old(hookCalls) + HookCalls(hooks, value)
    {
      var i := 0;
      while i < |streams|
        modifies this`calls
        invariant 0 <= i <= |streams|
        invariant calls == old(calls) + FanOut(streams[..i], a => SendCall(a, value))
      {
        FanOutSnoc(streams, i, a => SendCall(a, value));
        calls := calls + [SendCall(streams[i].address, value)];
        i := i + 1;
      }
      assert streams[..i] == streams;
      TriggerSend(value);
    }

    /** `triggerSend`: each port hook once, with the message. */
    method TriggerSend(value: Value)
      modifies this`hookCalls
      ensures hookCalls == old(hookCalls) + HookCalls(hooks, value)
    {
      var i := 0;
      while i < |hooks|
        invariant 0 <= i <= |hooks|
        invariant hookCalls == old(hookCalls) + HookCalls(hooks[..i], value)
      {
        assert hooks[..i + 1] == hooks[..i] + [hooks[i]];
        hookCalls := hookCalls + [HookCall(hooks[i], value)];
        i := i + 1;
      }
      assert hooks[..i] == hooks;
    }
  }

  // ---- one-step unfolding lemmas for the loops above ----

  /** Every stream of `addresses` opened. */
  predicate AllOpen(addresses: seq<string>, opens: string -> bool)
  {
    forall j :: 0 <= j < |addresses| ==> opens(addresses[j])
  }

  lemma AllOpenSnoc(s: seq<string>, i: nat, opens: string -> bool)
    requires i < |s|
    ensures AllOpen(s[..i + 1], opens) == (AllOpen(s[..i], opens) && opens(s[i]))
  {
    assert forall j :: 0 <= j < i + 1 ==> s[..i + 1][j] == s[j];
  }

  lemma SplitLast(streams: seq<Stream>, i: nat, config: seq<string>)
    requires i < |streams|
    ensures Survivors(streams[..i + 1], config)
      == Survivors(streams[..i], config) + (if streams[i].address in config then [streams[i]] else [])
    ensures Dropped(streams[..i + 1], config)
      == Dropped(streams[..i], config) + (if streams[i].address !in config then [streams[i]] else [])
  {
    assert streams[..i + 1] == streams[..i] + [streams[i]];
    SurvivorsSnoc(streams[..i], streams[i], config);
    DroppedSnoc(streams[..i], streams[i], config);
  }

  lemma {:induction false} SurvivorsSnoc(s: seq<Stream>, x: Stream, config: seq<string>)
    ensures Survivors(s + [x], config) == Survivors(s, config) + (if x.address in config then [x] else [])
  {
    if s != [] {
      assert (s + [x])[1..] == s[1..] + [x];
      SurvivorsSnoc(s[1..], x, config);
    }
  }

  lemma {:induction false} DroppedSnoc(s: seq<Stream>, x: Stream, config: seq<string>)
    ensures Dropped(s + [x], config) == Dropped(s, config) + (if x.address !in config then [x] else [])
  {
    if s != [] {
      assert (s + [x])[1..] == s[1..] + [x];
      DroppedSnoc(s[1..], x, config);
    }
  }

  lemma {:induction false} CloseCallsAppend(a: seq<Stream>, b: seq<Stream>)
    ensures CloseCalls(a + b) == CloseCalls(a) + CloseCalls(b)
  {
    if a != [] {
      assert (a + b)[0] == a[0];
      assert (a + b)[1..] == a[1..] + b;
      CloseCallsAppend(a[1..], b);
    } else {
      assert a + b == b;
    }
  }

  lemma CloseCallsSnoc(s: seq<Stream>, i: nat)
    requires i < |s|
    ensures CloseCalls(s[..i + 1]) == CloseCalls(s[..i]) + [CloseCall(s[i].address)]
  {
    assert s[..i + 1] == s[..i] + [s[i]];
    CloseCallsAppend(s[..i], [s[i]]);
  }

  lemma {:induction false} MissingAppend(a: seq<string>, b: seq<string>, kept: seq<Stream>)
    ensures Missing(a + b, kept) == Missing(a, kept) + Missing(b, kept)
  {
    if a != [] {
      assert (a + b)[0] == a[0];
      assert (a + b)[1..] == a[1..] + b;
      MissingAppend(a[1..], b, kept);
    } else {
      assert a + b == b;
    }
  }

  lemma MissingSnoc(config: seq<string>, k: nat, kept: seq<Stream>)
    requires k < |config|
    ensures Missing(config[..k + 1], kept)
      == Missing(config[..k], kept) + (if config[k] !in Addresses(kept) then [config[k]] else [])
  {
    assert config[..k + 1] == config[..k] + [config[k]];
    MissingAppend(config[..k], [config[k]], kept);
  }

  lemma {:induction false} OpenedOnlyAppend(a: seq<string>, b: seq<string>, opens: string -> bool)
    ensures OpenedOnly(a + b, opens) == OpenedOnly(a, opens) + OpenedOnly(b, opens)
  {
    if a != [] {
      assert (a + b)[0] == a[0];
      assert (a + b)[1..] == a[1..] + b;
      OpenedOnlyAppend(a[1..], b, opens);
    } else {
      assert a + b == b;
    }
  }

  lemma OpenedOnlySnoc(s: seq<string>, i: nat, opens: string -> bool)
    requires i < |s|
    ensures OpenedOnly(s[..i + 1], opens) == OpenedOnly(s[..i], opens) + (if opens(s[i]) then [s[i]] else [])
  {
    assert s[..i + 1] == s[..i] + [s[i]];
    OpenedOnlyAppend(s[..i], [s[i]], opens);
  }

  lemma {:induction false} OpenCallsAppend(a: seq<string>, b: seq<string>)
    ensures OpenCalls(a + b) == OpenCalls(a) + OpenCalls(b)
  {
    if a != [] {
      assert (a + b)[0] == a[0];
      assert (a + b)[1..] == a[1..] + b;
      OpenCallsAppend(a[1..], b);
    } else {
      assert a + b == b;
    }
  }

  lemma OpenCallsSnoc(s: seq<string>, i: nat)
    requires i < |s|
    ensures OpenCalls(s[..i + 1]) == OpenCalls(s[..i]) + [OpenCall(s[i])]
  {
    assert s[..i + 1] == s[..i] + [s[i]];
    OpenCallsAppend(s[..i], [s[i]]);
  }

  lemma {:induction false} NewStreamsAppend(a: seq<string>, b: seq<string>)
    ensures NewStreams(a + b) == NewStreams(a) + NewStreams(b)
  {
    if a != [] {
      assert (a + b)[0] == a[0];
      assert (a + b)[1..] == a[1..] + b;
      NewStreamsAppend(a[1..], b);
    } else {
      assert a + b == b;
    }
  }

  lemma NewStreamsSnoc(s: seq<string>, a: string)
    ensures NewStreams(s + [a]) == NewStreams(s) + [NewStream(a)]
  {
    NewStreamsAppend(s, [a]);
  }

  lemma {:induction false} ConfiguredAppend(a: seq<string>, b: seq<string>, maxQueueSize: int, drain: Option<HandlerId>)
    ensures ConfiguredStreams(a + b, maxQueueSize, drain) == ConfiguredStreams(a, maxQueueSize, drain) + ConfiguredStreams(b, maxQueueSize, drain)
  {
    if a != [] {
      assert (a + b)[0] == a[0];
      assert (a + b)[1..] == a[1..] + b;
      ConfiguredAppend(a[1..], b, maxQueueSize, drain);
    } else {
      assert a + b == b;
    }
  }

  lemma ConfiguredSnoc(s: seq<string>, a: string, maxQueueSize: int, drain: Option<HandlerId>)
    ensures ConfiguredStreams(s + [a], maxQueueSize, drain)
      == ConfiguredStreams(s, maxQueueSize, drain) + [Stream(a, Some(maxQueueSize), drain, 0, false)]
  {
    ConfiguredAppend(s, [a], maxQueueSize, drain);
  }

  lemma {:induction false} FanOutAppend(a: seq<Stream>, b: seq<Stream>, call: string -> StreamCall)
    ensures FanOut(a + b, call) == FanOut(a, call) + FanOut(b, call)
  {
    if a != [] {
      assert (a + b)[0] == a[0];
      assert (a + b)[1..] == a[1..] + b;
      FanOutAppend(a[1..], b, call);
    } else {
      assert a + b == b;
    }
  }

  lemma FanOutSnoc(s: seq<Stream>, i: nat, call: string -> StreamCall)
    requires i < |s|
    ensures FanOut(s[..i + 1], call) == FanOut(s[..i], call) + [call(s[i].address)]
  {
    assert s[..i + 1] == s[..i] + [s[i]];
    FanOutAppend(s[..i], [s[i]], call);
  }
}
