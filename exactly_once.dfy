/**
 * ExactlyOnceOutputConnection: the durable-staging output connection.
 * Every copy of a message is first written to a per-target staging map of
 * the cluster; only when every write has succeeded are the copies sent,
 * and a copy leaves its staging map only after the target replied `true`.
 * A per-target count of staged copies drives the `queueFull` flag.
 *
 * The cluster maps are modelled by their contents (`staged`), the outcome
 * of each asynchronous write or removal is an input, and every event-bus
 * send, acker call and map clear is recorded as an output.
 */
module ExactlyOnce {
  import opened Common
  import opened Handshake

  /** The id of a message or of one of its copies. */
  type MessageId = string

  /** One `sendWithTimeout` of a copy to a target address. */
  datatype Transmission = Transmission(address: string, copy: MessageId)

  /** One `acker.anchor(parent, child)`. */
  datatype AnchorCall = AnchorCall(parent: MessageId, child: MessageId)

  // ---------------------------------------------------------------------
  // The queue-count accounting, on values

  /** The flag is accurate: it is set exactly when some target holds `maxQueueSize` or more staged copies. */
  predicate Accurate(sizes: map<string, int>, full: bool, maxQueueSize: int)
  {
    full <==> exists a :: a in sizes && sizes[a] >= maxQueueSize
  }

  /** Some target is at or above capacity. */
  predicate AtCapacity(sizes: map<string, int>, maxQueueSize: int)
  {
    exists a :: a in sizes && sizes[a] >= maxQueueSize
  }

  /**
   * A successful staging write raises the target's count by one and sets
   * the flag when that count reaches capacity; this keeps the flag accurate.
   */
  lemma PutKeepsAccuracy(sizes: map<string, int>, full: bool, maxQueueSize: int, a: string)
    requires a in sizes
    requires Accurate(sizes, full, maxQueueSize)
    ensures Accurate(sizes[a := sizes[a] + 1], full || sizes[a] + 1 >= maxQueueSize, maxQueueSize)
  {
    var after := sizes[a := sizes[a] + 1];
    if full {
      var b :| b in sizes && sizes[b] >= maxQueueSize;
      assert b in after && after[b] >= maxQueueSize;
    }
    if sizes[a] + 1 >= maxQueueSize {
      assert a in after && after[a] >= maxQueueSize;
    }
  }

  /**
   * A successful removal lowers the target's count by one; the flag is then
   * kept only while some target is still at capacity. This keeps the flag
   * accurate.
   */
  lemma RemovalKeepsAccuracy(sizes: map<string, int>, full: bool, maxQueueSize: int, a: string)
    requires a in sizes
    requires Accurate(sizes, full, maxQueueSize)
    ensures var after := sizes[a := sizes[a] - 1];
      Accurate(after, full && AtCapacity(after, maxQueueSize), maxQueueSize)
  {
  }

  /**
   * `update` forgets the counts of dropped targets without recomputing the
   * flag: a connection whose only full target is dropped stays full.
   */
  lemma UpdateLeavesFlagStale()
    ensures var sizes := map["x" := 5];
      && Accurate(sizes, true, 5)
      && !Accurate(Restricted(sizes, []), true, 5)
  {
    var sizes := map["x" := 5];
    assert "x" in sizes && sizes["x"] >= 5;
    assert Restricted(sizes, []) == map[];
  }

  /** The counts of the targets an update keeps. */
  function Restricted(sizes: map<string, int>, keep: seq<string>): (r: map<string, int>)
    ensures forall a :: a in r <==> a in sizes && a in keep
    ensures forall a :: a in r ==> r[a] == sizes[a]
  {
    map a | a in sizes && a in keep :: sizes[a]
  }

  // ---------------------------------------------------------------------
  // The copies of a send

  /** One entry of the selector's list, with the id of the copy `createCopy` made for it. */
  datatype Entry = Entry(address: string, copy: MessageId)

  /** The selected addresses, in the selector's order. */
  function Selected(entries: seq<Entry>): (r: seq<string>)
    ensures |r| == |entries|
  {
    if entries == [] then []
    else
      var n := |entries| - 1;
      Selected(entries[..n]) + [entries[n].address]
  }

  /** The i-th selected address is the address of the i-th entry. */
  lemma {:induction false} SelectedAt(entries: seq<Entry>, i: nat)
    requires i < |entries|
    ensures Selected(entries)[i] == entries[i].address
  {
    var n := |entries| - 1;
    if i < n {
      SelectedAt(entries[..n], i);
    }
  }

  /**
   * The `children` map of `send`: the copy of each entry put under its
   * address, so that a later copy for the same address replaces an
   * earlier one. It has an entry for exactly the selected addresses.
   */
  function Children(entries: seq<Entry>): (r: map<string, MessageId>)
    ensures forall a :: a in r <==> a in Selected(entries)
  {
    if entries == [] then map[]
    else
      var n := |entries| - 1;
      Children(entries[..n])[entries[n].address := entries[n].copy]
  }

  /** The copy kept for an address is the one made for its last entry in the selection. */
  lemma {:induction false} ChildrenLastWins(entries: seq<Entry>, a: string)
    requires a in Children(entries)
    ensures exists j :: (0 <= j < |entries| && entries[j].address == a && Children(entries)[a] == entries[j].copy &&
      forall k :: j < k < |entries| ==> entries[k].address != a)
  {
    var n := |entries| - 1;
    if entries[n].address == a {
      assert entries[n].address == a && Children(entries)[a] == entries[n].copy;
    } else {
      var prefix := entries[..n];
      ChildrenLastWins(prefix, a);
      var j :| 0 <= j < n && prefix[j].address == a && Children(prefix)[a] == prefix[j].copy &&
        forall k :: j < k < n ==> prefix[k].address != a;
      assert entries[j] == prefix[j];
      forall k | j < k < |entries| ensures entries[k].address != a {
        if k < n {
          assert entries[k] == prefix[k];
        }
      }
    }
  }

  /** The keys of the children map, in the order the model writes and sends the copies. */
  function Addresses(entries: seq<Entry>): seq<string>
  {
    Distinct(Selected(entries))
  }

  /** The elements of a sequence, each once, in the order of their first occurrence. */
  function Distinct(s: seq<string>): (r: seq<string>)
    ensures |r| <= |s|
  {
    if s == [] then []
    else
      var n := |s| - 1;
      var d := Distinct(s[..n]);
      if s[n] in d then d else d + [s[n]]
  }

  /** An address is among the distinct ones exactly when it was selected. */
  lemma {:induction false} DistinctMembers(s: seq<string>, a: string)
    ensures a in Distinct(s) <==> a in s
  {
    if s != [] {
      var n := |s| - 1;
      DistinctMembers(s[..n], a);
      assert s == s[..n] + [s[n]];
    }
  }

  /** No address is listed twice. */
  lemma {:induction false} DistinctNoDuplicates(s: seq<string>)
    ensures NoDuplicates(Distinct(s))
  {
    if s != [] {
      var n := |s| - 1;
      DistinctNoDuplicates(s[..n]);
      var d := Distinct(s[..n]);
      if s[n] !in d {
        var r := d + [s[n]];
        forall i, j | 0 <= i < j < |r| ensures r[i] != r[j] {
          if j == |d| {
            assert r[i] == d[i] && d[i] in d;
          } else {
            assert r[i] == d[i] && r[j] == d[j];
          }
        }
      }
    }
  }

  /** Every write succeeds exactly when the success count reaches the number of writes. */
  lemma {:induction false} OkCountAll(keys: seq<string>, stored: set<string>)
    ensures OkCount(keys, stored) == |keys| <==> forall i :: 0 <= i < |keys| ==> (keys[i] in stored)
  {
    if keys != [] {
      OkCountAll(keys[1..], stored);
      assert forall i :: 1 <= i < |keys| ==> keys[i] == keys[1..][i - 1];
    }
  }

  /** What the staging writes of one send change: the counts, the staging maps, the flag, the parent's acks. */
  datatype Staging = Staging(sizes: map<string, int>, staged: map<string, set<MessageId>>, full: bool, acks: seq<MessageId>)

  /**
   * The result handler of one staging write: on success the parent is
   * acked, the target's count rises by one and its staging map holds the
   * copy, and the flag is set when the count reaches capacity; a failed
   * write changes nothing here.
   */
  function StageOne(s: Staging, a: string, copy: MessageId, parent: Option<MessageId>, ok: bool, maxQueueSize: int): (r: Staging)
    requires a in s.sizes && a in s.staged
    ensures r.sizes.Keys == s.sizes.Keys && r.staged.Keys == s.staged.Keys
  {
    if !ok then s
    else
      Staging(s.sizes[a := s.sizes[a] + 1], s.staged[a := s.staged[a] + {copy}],
              s.full || s.sizes[a] + 1 >= maxQueueSize,
              if parent.Some? then s.acks + [parent.value] else s.acks)
  }

  /** Every address to write has a count, a staging map and a copy. */
  predicate Stageable(s: Staging, keys: seq<string>, children: map<string, MessageId>)
  {
    forall i :: 0 <= i < |keys| ==> keys[i] in s.sizes && keys[i] in s.staged && keys[i] in children
  }

  /** The staging writes of `send`, their results handled one address after another, in the order of `keys`. */
  function StageAll(s: Staging, keys: seq<string>, children: map<string, MessageId>,
                    parent: Option<MessageId>, stored: set<string>, maxQueueSize: int): (r: Staging)
    requires Stageable(s, keys, children)
    ensures r.sizes.Keys == s.sizes.Keys && r.staged.Keys == s.staged.Keys
    decreases |keys|
  {
    if keys == [] then s
    else
      var a := keys[0];
      StageAll(StageOne(s, a, children[a], parent, (a in stored), maxQueueSize), keys[1..], children, parent, stored, maxQueueSize)
  }

  /**
   * Writing each address once, an address's count rises by one and its
   * staging map gains its copy exactly when its write succeeded; every
   * other count and staging map is unchanged.
   */
  lemma {:induction false} StageAllPerAddress(s: Staging, keys: seq<string>, children: map<string, MessageId>,
                                              parent: Option<MessageId>, stored: set<string>, maxQueueSize: int, a: string)
    requires Stageable(s, keys, children) && NoDuplicates(keys)
    ensures var r := StageAll(s, keys, children, parent, stored, maxQueueSize);
      && (a in s.sizes ==> r.sizes[a] == s.sizes[a] + (if a in keys && (a in stored) then 1 else 0))
      && (a in s.staged ==> r.staged[a] == s.staged[a] + (if a in keys && (a in stored) then {children[a]} else {}))
    decreases |keys|
  {
    if keys != [] {
      var k := keys[0];
      var s1 := StageOne(s, k, children[k], parent, (k in stored), maxQueueSize);
      assert NoDuplicates(keys[1..]);
      StageAllPerAddress(s1, keys[1..], children, parent, stored, maxQueueSize, a);
      assert a in keys <==> a == k || a in keys[1..];
      if a == k {
        assert a !in keys[1..];
      }
    }
  }

  /** Some address among `keys` whose write succeeded is at capacity in `sizes`. */
  predicate Reached(keys: seq<string>, ok: set<string>, sizes: map<string, int>, maxQueueSize: int)
  {
    exists a :: a in keys && a in ok && a in sizes && sizes[a] >= maxQueueSize
  }

  /**
   * Writing each address once, the flag ends up set exactly when it was
   * set before or some address whose write succeeded is at capacity.
   */
  lemma {:induction false} StageAllFlag(s: Staging, keys: seq<string>, children: map<string, MessageId>,
                                        parent: Option<MessageId>, stored: set<string>, maxQueueSize: int)
    requires Stageable(s, keys, children) && NoDuplicates(keys)
    ensures var r := StageAll(s, keys, children, parent, stored, maxQueueSize);
      r.full <==> s.full || Reached(keys, stored, r.sizes, maxQueueSize)
    decreases |keys|
  {
    if keys != [] {
      var k := keys[0];
      var rest := keys[1..];
      var s1 := StageOne(s, k, children[k], parent, k in stored, maxQueueSize);
      assert NoDuplicates(rest);
      StageAllFlag(s1, rest, children, parent, stored, maxQueueSize);
      var r := StageAll(s1, rest, children, parent, stored, maxQueueSize);
      StageAllPerAddress(s1, rest, children, parent, stored, maxQueueSize, k);
      assert k !in rest;
      assert Reached(keys, stored, r.sizes, maxQueueSize) <==>
        Reached(rest, stored, r.sizes, maxQueueSize) || (k in stored && r.sizes[k] >= maxQueueSize) by {
        assert forall a :: a in keys <==> a == k || a in rest;
      }
    }
  }

  /** The staging writes keep the flag accurate. */
  lemma {:induction false} StageAllKeepsAccuracy(s: Staging, keys: seq<string>, children: map<string, MessageId>,
                                                 parent: Option<MessageId>, stored: set<string>, maxQueueSize: int)
    requires Stageable(s, keys, children)
    requires Accurate(s.sizes, s.full, maxQueueSize)
    ensures var r := StageAll(s, keys, children, parent, stored, maxQueueSize);
      Accurate(r.sizes, r.full, maxQueueSize)
    decreases |keys|
  {
    if keys != [] {
      var k := keys[0];
      var s1 := StageOne(s, k, children[k], parent, (k in stored), maxQueueSize);
      if (k in stored) {
        PutKeepsAccuracy(s.sizes, s.full, maxQueueSize, k);
      }
      StageAllKeepsAccuracy(s1, keys[1..], children, parent, stored, maxQueueSize);
    }
  }

  /** The parent is acked once per successful write, and only when there is a parent. */
  lemma {:induction false} StageAllAcks(s: Staging, keys: seq<string>, children: map<string, MessageId>,
                                        parent: Option<MessageId>, stored: set<string>, maxQueueSize: int)
    requires Stageable(s, keys, children)
    ensures var r := StageAll(s, keys, children, parent, stored, maxQueueSize);
      r.acks == s.acks + (if parent.Some? then Acks(parent.value, OkCount(keys, stored)) else [])
    decreases |keys|
  {
    if keys != [] {
      var k := keys[0];
      var s1 := StageOne(s, k, children[k], parent, (k in stored), maxQueueSize);
      StageAllAcks(s1, keys[1..], children, parent, stored, maxQueueSize);
      if parent.Some? && (k in stored) {
        var m := OkCount(keys[1..], stored);
        AcksPrepend(parent.value, m);
        assert s1.acks == s.acks + [parent.value];
        assert s.acks + [parent.value] + Acks(parent.value, m) == s.acks + ([parent.value] + Acks(parent.value, m));
      }
    }
  }

  /** One more acknowledgement in front. */
  lemma {:induction false} AcksPrepend(parent: MessageId, n: nat)
    ensures [parent] + Acks(parent, n) == Acks(parent, n + 1)
  {
    if n > 0 {
      AcksPrepend(parent, n - 1);
    }
  }

  /** The addresses a send writes to are the keys of its children map, each a target. */
  lemma SelectionKeys(entries: seq<Entry>, targets: seq<string>)
    requires forall i :: 0 <= i < |entries| ==> entries[i].address in targets
    ensures forall a :: a in Children(entries) <==> a in Addresses(entries)
    ensures forall i :: 0 <= i < |Addresses(entries)| ==> Addresses(entries)[i] in targets
    ensures Addresses(entries) == [] <==> entries == []
  {
    var selected := Selected(entries);
    forall a ensures a in Children(entries) <==> a in Addresses(entries) {
      DistinctMembers(selected, a);
    }
    forall i | 0 <= i < |selected| ensures selected[i] in targets {
      SelectedAt(entries, i);
    }
    forall i | 0 <= i < |Addresses(entries)| ensures Addresses(entries)[i] in targets {
      DistinctMembers(selected, Addresses(entries)[i]);
    }
    if entries != [] {
      DistinctMembers(selected, selected[0]);
    }
  }

  /** A send's children map and its write order fit a state holding a count and a staging map for every target. */
  lemma SelectionStageable(s: Staging, entries: seq<Entry>, targets: seq<string>)
    requires forall a :: a in targets ==> a in s.sizes && a in s.staged
    requires forall i :: 0 <= i < |entries| ==> entries[i].address in targets
    ensures Stageable(s, Addresses(entries), Children(entries))
    ensures forall a :: a in Children(entries) <==> a in Addresses(entries)
    ensures Addresses(entries) == [] <==> entries == []
  {
    SelectionKeys(entries, targets);
  }

  /** The completion counter's verdict: it counts a success for every write exactly when every copy was stored. */
  lemma CounterVerdict(keys: seq<string>, children: map<string, MessageId>, stored: set<string>)
    requires forall a :: a in children <==> a in keys
    ensures OkCount(keys, stored) == |keys| <==> children.Keys <= stored
  {
    OkCountAll(keys, stored);
    if children.Keys <= stored {
      assert forall i :: 0 <= i < |keys| ==> keys[i] in children;
    }
  }

  /** How many staging writes succeed. */
  function OkCount(keys: seq<string>, stored: set<string>): (r: nat)
    ensures r <= |keys|
  {
    if keys == [] then 0 else (if (keys[0] in stored) then 1 else 0) + OkCount(keys[1..], stored)
  }

  /** `doSend(children)`: one send per address, of that address's copy, in the order of `keys`. */
  function Transmissions(keys: seq<string>, children: map<string, MessageId>): (r: seq<Transmission>)
    requires forall i :: 0 <= i < |keys| ==> keys[i] in children
    ensures |r| == |keys|
  {
    if keys == [] then []
    else
      var n := |keys| - 1;
      Transmissions(keys[..n], children) + [Transmission(keys[n], children[keys[n]])]
  }

  /** The i-th send goes to the i-th address, with its copy. */
  lemma {:induction false} TransmissionsAt(keys: seq<string>, children: map<string, MessageId>, i: nat)
    requires forall k :: 0 <= k < |keys| ==> keys[k] in children
    requires i < |keys|
    ensures Transmissions(keys, children)[i] == Transmission(keys[i], children[keys[i]])
  {
    var n := |keys| - 1;
    if i < n {
      TransmissionsAt(keys[..n], children, i);
    }
  }

  /**
   * The sends `send` makes once every write succeeded are one per copy:
   * each to the copy's address, of the copy kept for it, every address once.
   */
  lemma TransmissionsSendEachCopy(entries: seq<Entry>)
    ensures forall i :: 0 <= i < |Addresses(entries)| ==> Addresses(entries)[i] in Children(entries)
    ensures SendsEachCopy(Transmissions(Addresses(entries), Children(entries)), Children(entries))
  {
    var keys := Addresses(entries);
    var children := Children(entries);
    forall a ensures a in children <==> a in keys {
      DistinctMembers(Selected(entries), a);
    }
    DistinctNoDuplicates(Selected(entries));
    TransmissionsSendEach(keys, children);
  }

  /** Sending each key of a repeat-free list whose elements are the map's keys sends each copy once. */
  lemma TransmissionsSendEach(keys: seq<string>, children: map<string, MessageId>)
    requires forall a :: a in children <==> a in keys
    requires NoDuplicates(keys)
    ensures SendsEachCopy(Transmissions(keys, children), children)
  {
    var sent := Transmissions(keys, children);
    forall i | 0 <= i < |sent| ensures sent[i] == Transmission(keys[i], children[keys[i]]) {
      TransmissionsAt(keys, children, i);
    }
    assert forall i :: 0 <= i < |sent| ==> sent[i].address in children && sent[i].copy == children[sent[i].address];
    forall a | a in children ensures Transmission(a, children[a]) in sent {
      var i :| 0 <= i < |keys| && keys[i] == a;
      assert sent[i] == Transmission(a, children[a]);
    }
    assert forall i, j :: 0 <= i < j < |sent| ==> sent[i].address != sent[j].address;
  }

  /** `n` identical acknowledgements of `parent`. */
  function Acks(parent: MessageId, n: nat): (r: seq<MessageId>)
    ensures |r| == n
    ensures forall i :: 0 <= i < n ==> r[i] == parent
  {
    if n == 0 then [] else Acks(parent, n - 1) + [parent]
  }

  /** The anchors `send` with a parent makes: one per entry, in the selector's order. */
  function Anchors(parent: MessageId, entries: seq<Entry>): (r: seq<AnchorCall>)
    ensures |r| == |entries|
  {
    if entries == [] then []
    else
      var n := |entries| - 1;
      Anchors(parent, entries[..n]) + [AnchorCall(parent, entries[n].copy)]
  }

  // ---------------------------------------------------------------------
  // The target-set update, on values

  /** The addresses `update` appends to the targets: each listed address not yet a target, once. */
  function Unseen(update: seq<string>, targets: seq<string>): (r: seq<string>)
    ensures |r| <= |update|
    decreases |update|
  {
    if update == [] then []
    else if update[0] in targets then Unseen(update[1..], targets)
    else [update[0]] + Unseen(update[1..], targets + [update[0]])
  }

  /** The targets that a new target list still lists, in order. */
  function Listed(targets: seq<string>, update: seq<string>): (r: seq<string>)
    ensures |r| <= |targets|
  {
    if targets == [] then []
    else
      var rest := Listed(targets[1..], update);
      if targets[0] in update then [targets[0]] + rest else rest
  }

  /** The targets that a new target list no longer lists, in order. */
  function Unlisted(targets: seq<string>, update: seq<string>): (r: seq<string>)
    ensures |Listed(targets, update)| + |r| == |targets|
  {
    if targets == [] then []
    else
      var rest := Unlisted(targets[1..], update);
      if targets[0] !in update then [targets[0]] + rest else rest
  }

  /** A target is kept exactly when the update lists it, and dropped exactly when it does not. */
  lemma {:induction false} ListedMembers(targets: seq<string>, update: seq<string>, a: string)
    ensures a in Listed(targets, update) <==> a in targets && a in update
    ensures a in Unlisted(targets, update) <==> a in targets && a !in update
  {
    if targets != [] {
      ListedMembers(targets[1..], update, a);
      assert a in targets <==> a == targets[0] || a in targets[1..];
    }
  }

  /** The addresses appended are listed and were not targets. */
  lemma {:induction false} UnseenMembers(update: seq<string>, targets: seq<string>, a: string)
    ensures a in Unseen(update, targets) ==> a in update && a !in targets
    decreases |update|
  {
    if update != [] {
      if update[0] in targets {
        UnseenMembers(update[1..], targets, a);
      } else {
        UnseenMembers(update[1..], targets + [update[0]], a);
      }
    }
  }

  /** Every listed address is already a target or is among the unseen ones. */
  lemma {:induction false} UnseenCovers(update: seq<string>, targets: seq<string>, a: string)
    requires a in update
    ensures a in targets || a in Unseen(update, targets)
    decreases |update|
  {
    if update[0] != a {
      assert a in update[1..];
      if update[0] !in targets {
        UnseenCovers(update[1..], targets + [update[0]], a);
      } else {
        UnseenCovers(update[1..], targets, a);
      }
    }
  }

  /** An unseen address is added once, and never one that is already a target. */
  lemma {:induction false} UnseenDistinct(update: seq<string>, targets: seq<string>)
    ensures NoDuplicates(Unseen(update, targets))
    decreases |update|
  {
    if update != [] {
      if update[0] in targets {
        UnseenDistinct(update[1..], targets);
      } else {
        UnseenDistinct(update[1..], targets + [update[0]]);
        var rest := Unseen(update[1..], targets + [update[0]]);
        UnseenMembers(update[1..], targets + [update[0]], update[0]);
        assert Unseen(update, targets) == [update[0]] + rest;
        assert forall i :: 1 <= i < |[update[0]] + rest| ==> ([update[0]] + rest)[i] == rest[i - 1];
      }
    }
  }

  /** No element occurs twice. */
  predicate NoDuplicates(s: seq<string>)
  {
    forall i, j :: 0 <= i < j < |s| ==> s[i] != s[j]
  }

  /** Filtering keeps a list free of repeats. */
  lemma {:induction false} ListedDistinct(targets: seq<string>, update: seq<string>)
    requires NoDuplicates(targets)
    ensures NoDuplicates(Listed(targets, update))
  {
    if targets != [] {
      assert NoDuplicates(targets[1..]) by {
        assert forall i :: 0 <= i < |targets[1..]| ==> targets[1..][i] == targets[i + 1];
      }
      ListedDistinct(targets[1..], update);
      var rest := Listed(targets[1..], update);
      if targets[0] in update {
        assert targets[0] !in targets[1..];
        ListedMembers(targets[1..], update, targets[0]);
        assert forall i :: 1 <= i < |[targets[0]] + rest| ==> ([targets[0]] + rest)[i] == rest[i - 1];
      }
    }
  }

  /** After an update the targets are exactly the listed addresses. */
  lemma UpdateFollowsTargets(targets: seq<string>, update: seq<string>, a: string)
    ensures a in UpdatedTargets(targets, update) <==> a in update
  {
    if a in update {
      UnseenCovers(update, targets, a);
    }
    ListedMembers(targets, update, a);
    UnseenMembers(update, targets, a);
  }

  /**
   * After an update each target is listed once: the kept targets in their
   * old order, then the new ones in the order the update lists them.
   */
  lemma UpdatedTargetsDistinct(targets: seq<string>, update: seq<string>)
    requires NoDuplicates(targets)
    ensures NoDuplicates(UpdatedTargets(targets, update))
  {
    var kept := Listed(targets, update);
    var unseen := Unseen(update, targets);
    UnseenDistinct(update, targets);
    ListedDistinct(targets, update);
    var r := kept + unseen;
    forall i, j | 0 <= i < j < |r| ensures r[i] != r[j] {
      var n := |kept|;
      if j < n {
        assert r[i] == kept[i] && r[j] == kept[j];
      } else if i >= n {
        assert r[i] == unseen[i - n] && r[j] == unseen[j - n];
      } else {
        assert r[i] == kept[i] && r[i] in kept;
        ListedMembers(targets, update, r[i]);
        assert r[j] == unseen[j - n] && r[j] in unseen;
        UnseenMembers(update, targets, r[j]);
      }
    }
  }

  /** The entry `vals` holds for `k`, or `v` when it holds none. */
  function Lookup<V>(vals: map<string, V>, k: string, v: V): V
  {
    if k in vals then vals[k] else v
  }

  /**
   * `m` with an entry added for every key of `keys`, in order (the map puts
   * of the first pass): the entry `vals` holds for the key, or `v`.
   */
  function Extend<V>(m: map<string, V>, keys: seq<string>, vals: map<string, V>, v: V): map<string, V>
  {
    if keys == [] then m
    else
      var n := |keys| - 1;
      Extend(m, keys[..n], vals, v)[keys[n] := Lookup(vals, keys[n], v)]
  }

  /** One more key put. */
  lemma ExtendSnoc<V>(m: map<string, V>, keys: seq<string>, a: string, vals: map<string, V>, v: V)
    ensures Extend(m, keys + [a], vals, v) == Extend(m, keys, vals, v)[a := Lookup(vals, a, v)]
  {
    assert (keys + [a])[..|keys|] == keys;
  }

  /** The keys of `keys` gain the entry `vals` holds for them, or `v`; every other entry is unchanged. */
  lemma {:induction false} ExtendMembers<V>(m: map<string, V>, keys: seq<string>, vals: map<string, V>, v: V, a: string)
    ensures a in Extend(m, keys, vals, v) <==> a in m || a in keys
    ensures a in Extend(m, keys, vals, v) ==> Extend(m, keys, vals, v)[a] == if a in keys then Lookup(vals, a, v) else m[a]
  {
    if keys != [] {
      var n := |keys| - 1;
      ExtendMembers(m, keys[..n], vals, v, a);
      assert keys == keys[..n] + [keys[n]];
    }
  }

  /** `m` without the keys of `keys` that `update` does not list, in order (the map removals of the second pass). */
  function Drop<V>(m: map<string, V>, keys: seq<string>, update: seq<string>): map<string, V>
  {
    if keys == [] then m
    else
      var n := |keys| - 1;
      var rest := Drop(m, keys[..n], update);
      if keys[n] in update then rest else rest - {keys[n]}
  }

  /** One more key considered for removal. */
  lemma DropSnoc<V>(m: map<string, V>, s: seq<string>, j: nat, update: seq<string>)
    requires j < |s|
    ensures Drop(m, s[..j + 1], update) ==
      if s[j] in update then Drop(m, s[..j], update) else Drop(m, s[..j], update) - {s[j]}
  {
    assert s[..j + 1][..j] == s[..j];
  }

  /** An entry survives exactly when its key is listed or was not considered; surviving entries are unchanged. */
  lemma {:induction false} DropMembers<V>(m: map<string, V>, keys: seq<string>, update: seq<string>, a: string)
    ensures a in Drop(m, keys, update) <==> a in m && (a in keys ==> a in update)
    ensures a in Drop(m, keys, update) ==> Drop(m, keys, update)[a] == m[a]
  {
    if keys != [] {
      var n := |keys| - 1;
      DropMembers(m, keys[..n], update, a);
      assert keys == keys[..n] + [keys[n]];
    }
  }

  /**
   * The per-target maps after `update` (staging maps and counts alike):
   * a listed address has an entry, which is its old one when it was a
   * target and a fresh one when it was not; an address no longer listed
   * has none.
   */
  lemma UpdateEntries<V>(targets: seq<string>, m: map<string, V>, update: seq<string>, vals: map<string, V>, initial: V, a: string)
    requires forall b :: b in m <==> b in targets
    ensures var unseen := Unseen(update, targets);
      var r := Drop(Extend(m, unseen, vals, initial), targets + unseen, update);
      && (a in r <==> a in update)
      && (a in r ==> r[a] == if a in m then m[a] else Lookup(vals, a, initial))
  {
    var unseen := Unseen(update, targets);
    DropMembers(Extend(m, unseen, vals, initial), targets + unseen, update, a);
    ExtendMembers(m, unseen, vals, initial, a);
    UnseenMembers(update, targets, a);
    if a in update {
      UnseenCovers(update, targets, a);
    }
  }

  /** The target list after `update`, with the removal pass as the set filter it is meant to be. */
  function UpdatedTargets(targets: seq<string>, update: seq<string>): seq<string>
  {
    Listed(targets, update) + Unseen(update, targets)
  }

  // ---------------------------------------------------------------------
  // The connection

  class StagingConnection {
    /** The target addresses the selector chooses from. */
    var targets: seq<string>
    /** The contents of each target's staging map: the ids of the copies staged for it. */
    var staged: map<string, set<MessageId>>
    /** The per-target count of staged copies (`queueSizes`). */
    var queueSizes: map<string, int>
    var queueFull: bool
    const maxQueueSize: int

    var transmissions: seq<Transmission>
    /** Staged removals requested after a `true` reply. */
    var removals: seq<Transmission>
    var anchors: seq<AnchorCall>
    var parentAcks: seq<MessageId>
    /** Targets whose staging map was cleared by an update. */
    var cleared: seq<string>

    /** Every target has a staging map and a count, and nothing else has; no target is listed twice. */
    ghost predicate Valid()
      reads this
    {
      && NoDuplicates(targets)
      && (forall a :: a in staged <==> a in targets)
      && (forall a :: a in queueSizes <==> a in targets)
    }

    /**
     * Each target is attached to its named staging map as the cluster holds
     * it (`cluster`, by target; a map the cluster never saw is empty), and
     * its count starts at 0 whatever that map already holds.
     */
    constructor (targets: seq<string>, maxQueueSize: int, cluster: map<string, set<MessageId>>)
      requires NoDuplicates(targets)
      ensures Valid()
      ensures this.targets == targets && this.maxQueueSize == maxQueueSize
      ensures forall a :: a in staged ==> staged[a] == Lookup(cluster, a, {})
      ensures forall a :: a in queueSizes ==> queueSizes[a] == 0
      ensures !queueFull
      ensures transmissions == [] && removals == [] && anchors == [] && parentAcks == [] && cleared == []
    {
      this.targets := targets;
      this.maxQueueSize := maxQueueSize;
      var st: map<string, set<MessageId>> := map[];
      var qs: map<string, int> := map[];
      var i := 0;
      while i < |targets|
        invariant 0 <= i <= |targets|
        invariant forall a :: a in st <==> a in targets[..i]
        invariant forall a :: a in qs <==> a in targets[..i]
        invariant forall a :: a in st ==> st[a] == Lookup(cluster, a, {})
        invariant forall a :: a in qs ==> qs[a] == 0
      {
        assert targets[..i + 1] == targets[..i] + [targets[i]];
        st := st[targets[i] := Lookup(cluster, targets[i], {})];
        qs := qs[targets[i] := 0];
        i := i + 1;
      }
      assert targets[..i] == targets;
      staged := st;
      queueSizes := qs;
      queueFull := false;
      transmissions, removals, anchors, parentAcks, cleared := [], [], [], [], [];
    }

    /**
     * `sendQueueFull()` reports the flag, in every state; while the flag is
     * accurate that is "some target holds `maxQueueSize` staged copies or
     * more" (after an `update` it need not be, see UpdateLeavesFlagStale).
     */
    function SendQueueFull(): (r: bool)
      reads this
      requires Valid()
      ensures r == queueFull
      ensures Accurate(queueSizes, queueFull, maxQueueSize) ==>
        (r <==> exists a :: a in targets && queueSizes[a] >= maxQueueSize)
    {
      queueFull
    }

    /**
     * `update`: every listed address that is not yet a target becomes one,
     * attached to its named staging map as the cluster holds it (`cluster`,
     * by target), with a count of 0; every target the update no longer
     * lists is dropped, its staging map cleared and its count forgotten.
     * The flag is left as it was.
     */
    method Update(update: seq<string>, cluster: map<string, set<MessageId>>)
      requires Valid()
      modifies this`targets, this`staged, this`queueSizes, this`cleared
      ensures Valid()
      ensures targets == UpdatedTargets(old(targets), update)
      ensures forall a :: a in targets <==> a in update
      ensures forall a :: a in staged ==> staged[a] == if a in old(staged) then old(staged)[a] else Lookup(cluster, a, {})
      ensures forall a :: a in queueSizes ==> queueSizes[a] == if a in old(queueSizes) then old(queueSizes)[a] else 0
      ensures cleared == old(cleared) + Unlisted(old(targets), update)
    {
      ghost var t0, s0, q0 := targets, staged, queueSizes;
      AddUnseen(update, cluster);
      DropUnlisted(update);
      ListedOfGrown(t0, update);
      UpdatedTargetsDistinct(t0, update);
      forall a
        ensures (a in targets <==> a in update) && (a in staged <==> a in update) && (a in queueSizes <==> a in update)
        ensures a in staged ==> staged[a] == if a in s0 then s0[a] else Lookup(cluster, a, {})
        ensures a in queueSizes ==> queueSizes[a] == if a in q0 then q0[a] else 0
      {
        UpdateFollowsTargets(t0, update, a);
        UpdateEntries(t0, s0, update, cluster, {}, a);
        UpdateEntries(t0, q0, update, map[], 0, a);
      }
    }

    /**
     * The first pass of `update`: each listed address that is not yet a
     * target is appended, once, attached to its named staging map as the
     * cluster holds it, with a count of 0.
     */
    method AddUnseen(update: seq<string>, cluster: map<string, set<MessageId>>)
      modifies this`targets, this`staged, this`queueSizes
      ensures targets == old(targets) + Unseen(update, old(targets))
      ensures staged == Extend(old(staged), Unseen(update, old(targets)), cluster, {})
      ensures queueSizes == Extend(old(queueSizes), Unseen(update, old(targets)), map[], 0)
    {
      var t0, s0, q0 := targets, staged, queueSizes;
      var t, st, qs := t0, s0, q0;
      ghost var u: seq<string> := [];
      var i := 0;
      while i < |update|
        modifies {}
        invariant 0 <= i <= |update|
        invariant u == Unseen(update[..i], t0)
        invariant t == t0 + u
        invariant st == Extend(s0, u, cluster, {})
        invariant qs == Extend(q0, u, map[], 0)
      {
        UnseenSnoc(update, i, t0);
        var a := update[i];
        if a !in t {
          ExtendSnoc(s0, u, a, cluster, {});
          ExtendSnoc(q0, u, a, map[], 0);
          t := t + [a];
          st := st[a := Lookup(cluster, a, {})];
          qs := qs[a := 0];
          u := u + [a];
        }
        i := i + 1;
      }
      assert update[..i] == update;
      targets, staged, queueSizes := t, st, qs;
    }

    /**
     * The second pass of `update`, as the set filter it is meant to be: each
     * target the update no longer lists is dropped, with its staging map
     * cleared and its count forgotten. The one pass of the source is
     * modelled as a pass over the targets and one over each per-target map.
     */
    method DropUnlisted(update: seq<string>)
      modifies this`targets, this`staged, this`queueSizes, this`cleared
      ensures targets == Listed(old(targets), update)
      ensures cleared == old(cleared) + Unlisted(old(targets), update)
      ensures staged == Drop(old(staged), old(targets), update)
      ensures queueSizes == Drop(old(queueSizes), old(targets), update)
    {
      var kept, dropped := SplitTargets(targets, update);
      var st := DropKeys(staged, targets, update);
      var qs := DropKeys(queueSizes, targets, update);
      targets, staged, queueSizes, cleared := kept, st, qs, cleared + dropped;
    }

    /** Whether some target holds `maxQueueSize` or more staged copies (the recompute loop over the counts). */
    method AnyAtCapacity() returns (isFull: bool)
      requires Valid()
      ensures isFull <==> AtCapacity(queueSizes, maxQueueSize)
    {
      var i := 0;
      while i < |targets|
        invariant 0 <= i <= |targets|
        invariant forall k :: 0 <= k < i ==> queueSizes[targets[k]] < maxQueueSize
      {
        if queueSizes[targets[i]] >= maxQueueSize {
          return true;
        }
        i := i + 1;
      }
      forall a | a in queueSizes ensures queueSizes[a] < maxQueueSize {
        var k :| 0 <= k < |targets| && targets[k] == a;
      }
      return false;
    }

    /** The part of the state the staging writes of a send change. */
    function Snapshot(): Staging
      reads this
    {
      Staging(queueSizes, staged, queueFull, parentAcks)
    }

    /**
     * `send`, with and without a parent: one copy per selected entry
     * (anchored to the parent when there is one), kept per address; every
     * kept copy is written to its target's staging map, and the results of
     * the writes are handled as `StageAll` says. Only when every write
     * succeeded are the copies sent. The result is the message's own id and
     * whether the done handler is told of success (at once when nothing was
     * selected: the completion counter is taken to succeed when it counts
     * zero writes, as the port's counters over zero streams do).
     */
    method Send(message: MessageId, parent: Option<MessageId>, entries: seq<Entry>, stored: set<string>)
      returns (id: MessageId, done: bool)
      requires Valid()
      requires forall i :: 0 <= i < |entries| ==> entries[i].address in targets
      modifies this`staged, this`queueSizes, this`queueFull, this`anchors, this`parentAcks, this`transmissions
      ensures Valid()
      ensures id == message
      ensures anchors == old(anchors) + (if parent.Some? then Anchors(parent.value, entries) else [])
      ensures Stageable(old(Snapshot()), Addresses(entries), Children(entries))
      ensures Snapshot() == StageAll(old(Snapshot()), Addresses(entries), Children(entries), parent, stored, maxQueueSize)
      ensures done <==> Children(entries).Keys <= stored
      ensures done ==> transmissions == old(transmissions) + Transmissions(Addresses(entries), Children(entries))
      ensures !done ==> transmissions == old(transmissions)
    {
      id := message;
      if parent.Some? {
        anchors := anchors + Anchors(parent.value, entries);
      }
      done := StoreSelection(parent, entries, stored);
    }

    /** The children map of a send built, then its copies stored and, when every write succeeded, sent. */
    method StoreSelection(parent: Option<MessageId>, entries: seq<Entry>, stored: set<string>) returns (done: bool)
      requires Valid()
      requires forall i :: 0 <= i < |entries| ==> entries[i].address in targets
      modifies this`staged, this`queueSizes, this`queueFull, this`parentAcks, this`transmissions
      ensures Valid()
      ensures Stageable(old(Snapshot()), Addresses(entries), Children(entries))
      ensures Snapshot() == StageAll(old(Snapshot()), Addresses(entries), Children(entries), parent, stored, maxQueueSize)
      ensures done <==> Children(entries).Keys <= stored
      ensures done ==> transmissions == old(transmissions) + Transmissions(Addresses(entries), Children(entries))
      ensures !done ==> transmissions == old(transmissions)
    {
      var children := BuildChildren(entries);
      var keys := Addresses(entries);
      SelectionStageable(Snapshot(), entries, targets);
      done := Store(keys, children, parent, stored);
    }

    /**
     * The staging writes of a send and their completion counter: the done
     * outcome is success once a success was counted for every write, and
     * only then are the copies sent.
     */
    method Store(keys: seq<string>, children: map<string, MessageId>, parent: Option<MessageId>, stored: set<string>)
      returns (done: bool)
      requires Stageable(Snapshot(), keys, children)
      requires forall a :: a in children <==> a in keys
      modifies this`staged, this`queueSizes, this`queueFull, this`parentAcks, this`transmissions
      ensures Snapshot() == StageAll(old(Snapshot()), keys, children, parent, stored, maxQueueSize)
      ensures done <==> children.Keys <= stored
      ensures done ==> transmissions == old(transmissions) + Transmissions(keys, children)
      ensures !done ==> transmissions == old(transmissions)
    {
      Stage(keys, children, parent, stored);
      // The completion counter succeeds once it has counted a success per write.
      done := OkCount(keys, stored) == |keys|;
      CounterVerdict(keys, children, stored);
      if done {
        TransmitAll(keys, children);
      }
    }

    /** The staging writes of `send`: the result of each address's write handled in the order of `keys`. */
    method Stage(keys: seq<string>, children: map<string, MessageId>, parent: Option<MessageId>, stored: set<string>)
      requires Stageable(Snapshot(), keys, children)
      modifies this`staged, this`queueSizes, this`queueFull, this`parentAcks
      ensures Snapshot() == StageAll(old(Snapshot()), keys, children, parent, stored, maxQueueSize)
    {
      ghost var start := Snapshot();
      var i := 0;
      while i < |keys|
        invariant 0 <= i <= |keys|
        invariant queueSizes.Keys == start.sizes.Keys && staged.Keys == start.staged.Keys
        invariant StageAll(Snapshot(), keys[i..], children, parent, stored, maxQueueSize)
          == StageAll(start, keys, children, parent, stored, maxQueueSize)
      {
        assert keys[i..][1..] == keys[i + 1..];
        var a := keys[i];
        HandleStored(a, children[a], parent, a in stored);
        i := i + 1;
      }
    }

    /**
     * The result handler of one staging write: on success the parent (if
     * any) is acked, the target's count rises by one, its staging map holds
     * the copy, and the flag is set once the count reaches capacity. A
     * failed write only fails the send's completion counter.
     */
    method HandleStored(address: string, copy: MessageId, parent: Option<MessageId>, ok: bool)
      requires address in queueSizes && address in staged
      modifies this`staged, this`queueSizes, this`queueFull, this`parentAcks
      ensures Snapshot() == StageOne(old(Snapshot()), address, copy, parent, ok, maxQueueSize)
    {
      if ok {
        if parent.Some? {
          parentAcks := parentAcks + [parent.value];
        }
        queueSizes := queueSizes[address := queueSizes[address] + 1];
        staged := staged[address := staged[address] + {copy}];
        if queueSizes[address] >= maxQueueSize {
          queueFull := true;
        }
      }
    }

    /** The sends of `doSend(children)`: each address's copy once, in the order of `keys`. */
    method TransmitAll(keys: seq<string>, children: map<string, MessageId>)
      requires forall i :: 0 <= i < |keys| ==> keys[i] in children
      modifies this`transmissions
      ensures transmissions == old(transmissions) + Transmissions(keys, children)
    {
      var sent: seq<Transmission> := [];
      var i := 0;
      while i < |keys|
        invariant 0 <= i <= |keys|
        invariant sent == Transmissions(keys[..i], children)
      {
        assert keys[..i + 1][..i] == keys[..i];
        sent := sent + [Transmission(keys[i], children[keys[i]])];
        i := i + 1;
      }
      assert keys[..i] == keys;
      transmissions := transmissions + sent;
    }

    /**
     * The reply handler of a copy's send: a transport failure or a `false`
     * reply sends the same copy to the same address again and leaves the
     * staged entry; a `true` reply asks for the entry's removal. A target
     * dropped in the meantime has no staging map, and the source's
     * `messages.get(address).remove` then throws (`thrown`).
     */
    method HandleReply(t: Transmission, reply: Reply) returns (thrown: bool)
      modifies this`transmissions, this`removals
      ensures thrown <==> reply == Replied(true) && t.address !in staged
      ensures reply != Replied(true) ==> transmissions == old(transmissions) + [t] && removals == old(removals)
      ensures reply == Replied(true) ==> transmissions == old(transmissions)
      ensures reply == Replied(true) && !thrown ==> removals == old(removals) + [t]
      ensures thrown ==> removals == old(removals)
    {
      thrown := false;
      if reply.Failed? || !reply.accepted {
        transmissions := transmissions + [t];
      } else if t.address !in staged {
        thrown := true;
      } else {
        removals := removals + [t];
      }
    }

    /**
     * The result of a staged removal: on success the copy leaves its
     * target's staging map, the count drops by one, and a set flag is
     * cleared when the target fell below capacity and no target is at
     * capacity any more. A failed removal changes nothing. A dropped target
     * has no count, and the source's unboxing of it throws (`thrown`).
     */
    method HandleRemoved(t: Transmission, ok: bool) returns (thrown: bool)
      requires Valid()
      modifies this`staged, this`queueSizes, this`queueFull
      ensures Valid()
      ensures thrown <==> ok && t.address !in queueSizes
      ensures !ok || thrown ==> staged == old(staged) && queueSizes == old(queueSizes) && queueFull == old(queueFull)
      ensures ok && !thrown ==>
        && staged == old(staged)[t.address := old(staged)[t.address] - {t.copy}]
        && queueSizes == old(queueSizes)[t.address := old(queueSizes)[t.address] - 1]
        && (queueFull <==> old(queueFull) && AtCapacity(queueSizes, maxQueueSize))
      ensures old(Accurate(queueSizes, queueFull, maxQueueSize)) ==> Accurate(queueSizes, queueFull, maxQueueSize)
    {
      thrown := false;
      if !ok {
        return;
      }
      if t.address !in queueSizes {
        thrown := true;
        return;
      }
      if Accurate(queueSizes, queueFull, maxQueueSize) {
        RemovalKeepsAccuracy(queueSizes, queueFull, maxQueueSize, t.address);
      }
      Release(t);
      RecheckFull(t.address);
    }

    /** A removed copy leaves its target's staging map, and the target's count drops by one. */
    method Release(t: Transmission)
      requires t.address in queueSizes && t.address in staged
      modifies this`staged, this`queueSizes
      ensures staged == old(staged)[t.address := old(staged)[t.address] - {t.copy}]
      ensures queueSizes == old(queueSizes)[t.address := old(queueSizes)[t.address] - 1]
    {
      staged := staged[t.address := staged[t.address] - {t.copy}];
      queueSizes := queueSizes[t.address := queueSizes[t.address] - 1];
    }

    /**
     * After a removal from `address`: a set flag is cleared when that target
     * fell below capacity and the recompute loop finds no target at
     * capacity; otherwise it is left as it was.
     */
    method RecheckFull(address: string)
      requires Valid() && address in queueSizes
      modifies this`queueFull
      ensures queueFull <==> old(queueFull) && AtCapacity(queueSizes, maxQueueSize)
    {
      if queueFull && queueSizes[address] < maxQueueSize {
        var isFull := AnyAtCapacity();
        if !isFull {
          queueFull := false;
        }
      } else if queueFull {
        assert address in queueSizes && queueSizes[address] >= maxQueueSize;
      }
    }
  }

  /** The new sends are one per copy: each to the copy's address, of that address's copy, every address once. */
  predicate SendsEachCopy(sent: seq<Transmission>, children: map<string, MessageId>)
  {
    && (forall i :: 0 <= i < |sent| ==> sent[i].address in children && sent[i].copy == children[sent[i].address])
    && (forall a :: a in children ==> Transmission(a, children[a]) in sent)
    && (forall i, j :: 0 <= i < j < |sent| ==> sent[i].address != sent[j].address)
  }

  /** The target side of the removal pass: the targets kept and the targets dropped, each in order. */
  method SplitTargets(targets: seq<string>, update: seq<string>) returns (kept: seq<string>, dropped: seq<string>)
    ensures kept == Listed(targets, update)
    ensures dropped == Unlisted(targets, update)
  {
    kept, dropped := [], [];
    var j := 0;
    while j < |targets|
      invariant 0 <= j <= |targets|
      invariant kept == Listed(targets[..j], update)
      invariant dropped == Unlisted(targets[..j], update)
    {
      ListedSnoc(targets, j, update);
      if targets[j] in update {
        kept := kept + [targets[j]];
      } else {
        dropped := dropped + [targets[j]];
      }
      j := j + 1;
    }
    assert targets[..j] == targets;
  }

  /** The map side of the removal pass: the entry of every dropped target is removed. */
  method DropKeys<V>(m: map<string, V>, targets: seq<string>, update: seq<string>) returns (r: map<string, V>)
    ensures r == Drop(m, targets, update)
  {
    r := m;
    var j := 0;
    while j < |targets|
      invariant 0 <= j <= |targets|
      invariant r == Drop(m, targets[..j], update)
    {
      DropSnoc(m, targets, j, update);
      if targets[j] !in update {
        r := r - {targets[j]};
      }
      j := j + 1;
    }
    assert targets[..j] == targets;
  }

  /** The children loop of `send`: the map the copies are kept in. */
  method BuildChildren(entries: seq<Entry>) returns (children: map<string, MessageId>)
    ensures children == Children(entries)
  {
    children := map[];
    var i := 0;
    while i < |entries|
      invariant 0 <= i <= |entries|
      invariant children == Children(entries[..i])
    {
      assert entries[..i + 1][..i] == entries[..i];
      children := children[entries[i].address := entries[i].copy];
      i := i + 1;
    }
    assert entries[..i] == entries;
  }

  // ---------------------------------------------------------------------
  // Step lemmas for the update passes

  /** One more address of the update considered by the first pass. */
  lemma UnseenSnoc(update: seq<string>, i: nat, targets: seq<string>)
    requires i < |update|
    ensures Unseen(update[..i + 1], targets) ==
      if update[i] in targets + Unseen(update[..i], targets) then Unseen(update[..i], targets)
      else Unseen(update[..i], targets) + [update[i]]
  {
    assert update[..i + 1] == update[..i] + [update[i]];
    UnseenAppend(update[..i], update[i], targets);
  }

  /** Appending one address to the update appends it to the unseen ones when it is new. */
  lemma {:induction false} UnseenAppend(u: seq<string>, a: string, targets: seq<string>)
    ensures Unseen(u + [a], targets) ==
      if a in targets + Unseen(u, targets) then Unseen(u, targets) else Unseen(u, targets) + [a]
    decreases |u|
  {
    if u != [] {
      assert (u + [a])[0] == u[0];
      assert (u + [a])[1..] == u[1..] + [a];
      if u[0] in targets {
        UnseenAppend(u[1..], a, targets);
      } else {
        var t2 := targets + [u[0]];
        UnseenAppend(u[1..], a, t2);
        assert a in t2 + Unseen(u[1..], t2) <==> a in targets + Unseen(u, targets);
      }
    }
  }

  /** One more target considered by the second pass. */
  lemma ListedSnoc(s: seq<string>, j: nat, update: seq<string>)
    requires j < |s|
    ensures Listed(s[..j + 1], update) == Listed(s[..j], update) + (if s[j] in update then [s[j]] else [])
    ensures Unlisted(s[..j + 1], update) == Unlisted(s[..j], update) + (if s[j] in update then [] else [s[j]])
  {
    assert s[..j + 1] == s[..j] + [s[j]];
    ListedAppend(s[..j], s[j], update);
  }

  /** Filtering a list with one more element. */
  lemma {:induction false} ListedAppend(s: seq<string>, x: string, update: seq<string>)
    ensures Listed(s + [x], update) == Listed(s, update) + (if x in update then [x] else [])
    ensures Unlisted(s + [x], update) == Unlisted(s, update) + (if x in update then [] else [x])
  {
    if s != [] {
      assert (s + [x])[0] == s[0];
      assert (s + [x])[1..] == s[1..] + [x];
      ListedAppend(s[1..], x, update);
    }
  }

  /** The unseen targets are all listed, so filtering the grown list keeps them all. */
  lemma ListedOfGrown(start: seq<string>, update: seq<string>)
    ensures Listed(start + Unseen(update, start), update) == UpdatedTargets(start, update)
    ensures Unlisted(start + Unseen(update, start), update) == Unlisted(start, update)
  {
    forall a | a in Unseen(update, start) ensures a in update {
      UnseenMembers(update, start, a);
    }
    ListedAllListed(Unseen(update, start), update);
    ListedConcat(start, Unseen(update, start), update);
  }

  /** Filtering keeps a list whose elements are all listed. */
  lemma {:induction false} ListedAllListed(s: seq<string>, update: seq<string>)
    requires forall a :: a in s ==> a in update
    ensures Listed(s, update) == s
    ensures Unlisted(s, update) == []
  {
    if s != [] {
      ListedAllListed(s[1..], update);
    }
  }

  /** Filtering distributes over concatenation. */
  lemma {:induction false} ListedConcat(s: seq<string>, t: seq<string>, update: seq<string>)
    ensures Listed(s + t, update) == Listed(s, update) + Listed(t, update)
    ensures Unlisted(s + t, update) == Unlisted(s, update) + Unlisted(t, update)
  {
    if s != [] {
      assert (s + t)[0] == s[0];
      assert (s + t)[1..] == s[1..] + t;
      ListedConcat(s[1..], t, update);
    } else {
      assert s + t == t;
    }
  }
}
