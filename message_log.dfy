/**
 * The framed envelopes of an output connection and its in-flight log
 * (the `TreeMap<Long, JsonObject> messages` of DefaultOutputConnection),
 * with the acknowledgement rule as the source writes it and as its
 * comment intends it.
 */
module MessageLog {
  import opened Common

  /** The `action` tag of an envelope together with the fields it carries. */
  datatype Action =
    | Message
    | StartGroup(group: string, name: string, parent: Option<string>)
    | GroupMessage(group: string)
    | EndGroup(group: string)
    | StartBatch(batch: string)
    | BatchMessage(batch: string)
    | EndBatch(batch: string)

  /** A framed message: the id under which it is logged, its action and its payload. */
  datatype Envelope = Envelope(id: nat, action: Action, body: Value)

  /** `messages.containsKey(k)` */
  predicate HasKey(log: seq<Envelope>, k: int)
  {
    exists i :: 0 <= i < |log| && log[i].id == k
  }

  /** The ids of a log run consecutively from `first`; the order a TreeMap iterates in. */
  predicate Consecutive(log: seq<Envelope>, first: nat)
  {
    forall i :: 0 <= i < |log| ==> log[i].id == first + i
  }

  /** Ids strictly increase along the log. */
  predicate Ascending(log: seq<Envelope>)
  {
    forall i, j :: 0 <= i < j < |log| ==> log[i].id < log[j].id
  }

  lemma ConsecutiveIsAscending(log: seq<Envelope>, first: nat)
    requires Consecutive(log, first)
    ensures Ascending(log)
  {
  }

  /**
   * A consecutive log starting at `first` holds key `k` exactly when `k`
   * lies in `first .. first + |log| - 1`.
   */
  lemma ConsecutiveKeys(log: seq<Envelope>, first: nat, k: int)
    requires Consecutive(log, first)
    ensures HasKey(log, k) <==> first <= k < first + |log|
  {
    if first <= k < first + |log| {
      assert log[k - first].id == k;
    }
  }

  /**
   * `doAck(id)` as written: when `id + 1` is a key the `tailMap` view is
   * built and thrown away, so the log stays as it is; otherwise it is cleared.
   */
  function AckAsWritten(log: seq<Envelope>, id: int): (r: seq<Envelope>)
    ensures r == log || r == []
    ensures r != [] ==> HasKey(r, id + 1)
  {
    if HasKey(log, id + 1) then log else []
  }

  /**
   * The acknowledgement the comment of `doAck` describes ("clear any
   * messages before the indicated ID"): keep exactly the envelopes whose
   * id is above the acknowledged one, in their order.
   */
  function CumulativeAck(log: seq<Envelope>, id: int): (r: seq<Envelope>)
    ensures |r| <= |log|
    ensures forall e :: e in r <==> e in log && e.id > id
  {
    if log == [] then []
    else
      var rest := CumulativeAck(log[1..], id);
      assert forall e :: e in log <==> e == log[0] || e in log[1..];
      if log[0].id > id then [log[0]] + rest else rest
  }

  /** The intended rule keeps the log's order: an ascending log stays ascending. */
  lemma {:induction false} CumulativeAckAscending(log: seq<Envelope>, id: int)
    requires Ascending(log)
    ensures Ascending(CumulativeAck(log, id))
  {
    if log != [] {
      var tail := log[1..];
      assert Ascending(tail);
      CumulativeAckAscending(tail, id);
      if log[0].id > id {
        var rest := CumulativeAck(tail, id);
        forall e | e in rest ensures log[0].id < e.id {
          var j :| 0 <= j < |tail| && tail[j] == e;
          assert log[j + 1] == e;
        }
        AscendingCons(log[0], rest);
      }
    }
  }

  /** An envelope below every id of an ascending log can go in front of it. */
  lemma AscendingCons(x: Envelope, rest: seq<Envelope>)
    requires Ascending(rest)
    requires forall e :: e in rest ==> x.id < e.id
    ensures Ascending([x] + rest)
  {
    var r := [x] + rest;
    forall i, j | 0 <= i < j < |r| ensures r[i].id < r[j].id {
      assert r[j] == rest[j - 1];
      if i > 0 {
        assert r[i] == rest[i - 1];
      }
    }
  }

  /**
   * When the acknowledged id is at or beyond every logged id, the source's
   * rule and the intended one agree: the log is emptied.
   */
  lemma AckAgreesBeyondLog(log: seq<Envelope>, id: int)
    requires forall i :: 0 <= i < |log| ==> log[i].id <= id
    ensures AckAsWritten(log, id) == CumulativeAck(log, id) == []
  {
  }

  /**
   * On a consecutive log whose first id is at most `id + 1`, the intended
   * rule is a suffix of the log: the envelopes from `id + 1` on.
   */
  lemma {:induction false} CumulativeAckOfConsecutive(log: seq<Envelope>, first: nat, id: int)
    requires Consecutive(log, first)
    requires first <= id + 1 <= first + |log|
    ensures CumulativeAck(log, id) == log[id + 1 - first..]
  {
    if log != [] {
      assert Consecutive(log[1..], first + 1);
      if log[0].id > id {
        assert id + 1 == first;
        CumulativeAckAllAbove(log, id);
      } else {
        CumulativeAckOfConsecutive(log[1..], first + 1, id);
        assert log[1..][id + 1 - (first + 1)..] == log[id + 1 - first..];
      }
    }
  }

  /**
   * The intended rule keeps a consecutive log consecutive and ending where
   * it ended: what remains is a suffix, starting at `first` or later.
   */
  lemma AckKeepsConsecutive(log: seq<Envelope>, first: nat, id: int)
    requires Consecutive(log, first)
    ensures var r := CumulativeAck(log, id);
      Consecutive(r, first + |log| - |r|)
  {
    if id + 1 < first {
      forall i | 0 <= i < |log| ensures log[i].id > id {
      }
      CumulativeAckAllAbove(log, id);
    } else if id + 1 > first + |log| {
      AckAgreesBeyondLog(log, id);
    } else {
      CumulativeAckOfConsecutive(log, first, id);
    }
  }

  /**
   * On a consecutive log the source's rule and the intended one agree
   * exactly when the log is empty, the acknowledged id is the one just
   * before the oldest logged id, or it is at or beyond the newest one;
   * every other acknowledgement keeps or drops something it should not.
   */
  lemma AckRulesAgree(log: seq<Envelope>, first: nat, id: int)
    requires Consecutive(log, first)
    ensures AckAsWritten(log, id) == CumulativeAck(log, id) <==>
      log == [] || id + 1 == first || id + 1 >= first + |log|
  {
    ConsecutiveKeys(log, first, id + 1);
    if id + 1 < first {
      forall i | 0 <= i < |log| ensures log[i].id > id {
      }
      CumulativeAckAllAbove(log, id);
    } else if id + 1 >= first + |log| {
      AckAgreesBeyondLog(log, id);
    } else {
      CumulativeAckOfConsecutive(log, first, id);
      assert |CumulativeAck(log, id)| == first + |log| - (id + 1);
    }
  }

  /** A log every id of which is above `id` is kept whole by the intended rule. */
  lemma {:induction false} CumulativeAckAllAbove(log: seq<Envelope>, id: int)
    requires forall i :: 0 <= i < |log| ==> log[i].id > id
    ensures CumulativeAck(log, id) == log
  {
    if log != [] {
      CumulativeAckAllAbove(log[1..], id);
    }
  }

  /**
   * The source keeps acknowledged envelopes: with ids 1 and 2 logged,
   * `ack(1)` leaves envelope 1 in the log.
   */
  lemma AckAsWrittenKeepsAcknowledged()
    ensures var log := [Envelope(1, Message, "a"), Envelope(2, Message, "b")];
            AckAsWritten(log, 1) == log && CumulativeAck(log, 1) == [log[1]]
  {
    var log := [Envelope(1, Message, "a"), Envelope(2, Message, "b")];
    assert log[1].id == 2;
    assert CumulativeAck(log[1..], 1) == [log[1]] by {
      assert CumulativeAck(log[1..][1..], 1) == [];
    }
  }

  /**
   * The source drops unacknowledged envelopes: with ids 5 and 6 logged,
   * `ack(0)` finds no key 1 and clears the log.
   */
  lemma AckAsWrittenDropsUnacknowledged()
    ensures var log := [Envelope(5, Message, "a"), Envelope(6, Message, "b")];
            AckAsWritten(log, 0) == [] && CumulativeAck(log, 0) == log
  {
    var log := [Envelope(5, Message, "a"), Envelope(6, Message, "b")];
    CumulativeAckAllAbove(log, 0);
  }

  /** Java's `n / 2` on an `int`, which truncates toward zero. */
  function HalfTruncated(n: int): int
  {
    if n >= 0 then n / 2 else -((-n) / 2)
  }

  /**
   * The guard of `checkDrain`: the connection was full, is not paused, and
   * holds fewer than half (truncated) of `maxQueueSize` envelopes.
   */
  predicate Drains(full: bool, paused: bool, size: nat, maxQueueSize: int)
  {
    full && !paused && size < HalfTruncated(maxQueueSize)
  }
}
