/**
  Exchanges on a bus die out. Every reply of `process` ranks strictly below the message it answers,
  so a weight on the messages in flight falls with every delivery, broadcasts to all nodes included.
*/
module Quiescence {
  import opened Bytes
  import opened Messages
  import opened NodeSpec
  import opened Sequences

  // What every node has been asked so far, and the messages on the bus.
  datatype Bus = Bus(calls: seq<seq<Call>>, inFlight: seq<Message>)

  ghost function Rank(b: Body): nat {
    match b
    case Ack(_) => 0
    case BlobRequest(_, _) => 2
    case DeviceInfoReq => 2
    case HealthReq => 2
    case _ => 1
  }

  lemma ReplyRanksLower(node: Node, calls: seq<Call>, m: Message)
    ensures var reply := Reply(node, calls, m);
            reply.Some? ==> Rank(reply.value.body) < Rank(m.body)
  {
  }

  // The replies of the nodes from the j-th on, to one delivered message.
  ghost function Replies(nodes: seq<Node>, calls: seq<seq<Call>>, m: Message, j: nat): seq<Message>
    requires |calls| == |nodes| && j <= |nodes|
    decreases |nodes| - j
  {
    if j == |nodes| then []
    else
      (match Reply(nodes[j], calls[j], m) case None => [] case Some(r) => [r]) + Replies(nodes, calls, m, j + 1)
  }

  ghost function Asked(nodes: seq<Node>, calls: seq<seq<Call>>, m: Message): seq<seq<Call>>
    requires |calls| == |nodes|
  {
    seq(|nodes|, j requires 0 <= j < |nodes| =>
      if Addressed(nodes[j], m.receiver) then CallsAfter(calls[j], m) else calls[j])
  }

  // The i-th message in flight reaches every node.
  ghost function Delivered(nodes: seq<Node>, b: Bus, i: nat): Bus
    requires |b.calls| == |nodes| && i < |b.inFlight|
  {
    var m := b.inFlight[i];
    Bus(Asked(nodes, b.calls, m), Without(b.inFlight, i) + Replies(nodes, b.calls, m, 0))
  }

  ghost function Lose(b: Bus, i: nat): Bus
    requires i < |b.inFlight|
  {
    b.(inFlight := Without(b.inFlight, i))
  }

  ghost predicate Passes(nodes: seq<Node>, b: Bus, c: Bus)
    requires |b.calls| == |nodes|
  {
    exists i: nat :: i < |b.inFlight| && (c == Delivered(nodes, b, i) || c == Lose(b, i))
  }

  // (n + 1) to the rank.
  ghost function Mass(n: nat, rank: nat): (w: nat)
    ensures w > 0
  {
    if rank == 0 then 1 else (n + 1) * Mass(n, rank - 1)
  }

  ghost function Weight(n: nat, ms: seq<Message>): nat {
    if ms == [] then 0 else Mass(n, Rank(ms[0].body)) + Weight(n, ms[1..])
  }

  lemma {:induction false} WeightConcat(n: nat, a: seq<Message>, b: seq<Message>)
    ensures Weight(n, a + b) == Weight(n, a) + Weight(n, b)
  {
    if a == [] {
      assert a + b == b;
    } else {
      assert (a + b)[1..] == a[1..] + b;
      WeightConcat(n, a[1..], b);
    }
  }

  lemma WeightWithout(n: nat, ms: seq<Message>, i: nat)
    requires i < |ms|
    ensures Weight(n, ms) == Weight(n, Without(ms, i)) + Mass(n, Rank(ms[i].body))
  {
    assert ms == ms[..i] + ([ms[i]] + ms[i + 1..]);
    WeightConcat(n, ms[..i], [ms[i]] + ms[i + 1..]);
    WeightConcat(n, ms[..i], ms[i + 1..]);
    assert ([ms[i]] + ms[i + 1..])[1..] == ms[i + 1..];
  }

  lemma {:induction false} MassGrows(n: nat, r: nat, s: nat)
    requires r <= s
    ensures Mass(n, r) <= Mass(n, s)
  {
    if r < s {
      MassGrows(n, r, s - 1);
      assert Mass(n, s) == (n + 1) * Mass(n, s - 1) >= Mass(n, s - 1);
    }
  }

  lemma {:induction false} NoReplyToAck(nodes: seq<Node>, calls: seq<seq<Call>>, m: Message, j: nat)
    requires |calls| == |nodes| && j <= |nodes| && Rank(m.body) == 0
    ensures Replies(nodes, calls, m, j) == []
    decreases |nodes| - j
  {
    if j < |nodes| {
      NoReplyToAck(nodes, calls, m, j + 1);
      ReplyRanksLower(nodes[j], calls[j], m);
    }
  }

  lemma OneMore(k: nat, w: nat)
    ensures (k + 1) * w == k * w + w
  {
  }

  lemma {:induction false} RepliesWeight(nodes: seq<Node>, calls: seq<seq<Call>>, m: Message, j: nat, w: nat)
    requires |calls| == |nodes| && j <= |nodes|
    requires Rank(m.body) > 0 && w == Mass(|nodes|, Rank(m.body) - 1)
    ensures Weight(|nodes|, Replies(nodes, calls, m, j)) <= (|nodes| - j) * w
    decreases |nodes| - j
  {
    if j < |nodes| {
      RepliesWeight(nodes, calls, m, j + 1, w);
      ReplyRanksLower(nodes[j], calls[j], m);
      hide Reply, Rank, Mass;
      var n, rest := |nodes|, Replies(nodes, calls, m, j + 1);
      OneMore(n - j - 1, w);
      match Reply(nodes[j], calls[j], m)
      case None =>
        assert [] + rest == rest;
      case Some(r) =>
        assert ([r] + rest)[1..] == rest;
        MassGrows(n, Rank(r.body), Rank(m.body) - 1);
    }
  }

  lemma RepliesAreLighter(nodes: seq<Node>, calls: seq<seq<Call>>, m: Message)
    requires |calls| == |nodes|
    ensures Weight(|nodes|, Replies(nodes, calls, m, 0)) < Mass(|nodes|, Rank(m.body))
  {
    hide Rank, Replies;
    var n, r := |nodes|, Rank(m.body);
    if r == 0 {
      NoReplyToAck(nodes, calls, m, 0);
    } else {
      RepliesWeight(nodes, calls, m, 0, Mass(n, r - 1));
      OneMore(n, Mass(n, r - 1));
    }
  }

  /** Every delivery or loss makes the bus lighter. */
  lemma StepIsLighter(nodes: seq<Node>, b: Bus, c: Bus)
    requires |b.calls| == |nodes| && Passes(nodes, b, c)
    ensures |c.calls| == |nodes|
    ensures Weight(|nodes|, c.inFlight) < Weight(|nodes|, b.inFlight)
  {
    hide Weight, Rank;
    var i: nat :| i < |b.inFlight| && (c == Delivered(nodes, b, i) || c == Lose(b, i));
    WeightWithout(|nodes|, b.inFlight, i);
    if c == Delivered(nodes, b, i) {
      RepliesAreLighter(nodes, b.calls, b.inFlight[i]);
      WeightConcat(|nodes|, Without(b.inFlight, i), Replies(nodes, b.calls, b.inFlight[i], 0));
    }
  }

  ghost predicate IsExchange(nodes: seq<Node>, run: seq<Bus>) {
    && run != [] && |run[0].calls| == |nodes|
    && forall k :: 0 <= k < |run| - 1 ==> |run[k].calls| == |nodes| && Passes(nodes, run[k], run[k + 1])
  }

  /** Any exchange ends: no run has more steps than the weight it started with. */
  lemma {:induction false} ExchangesEnd(nodes: seq<Node>, run: seq<Bus>)
    requires IsExchange(nodes, run)
    ensures |run| - 1 + Weight(|nodes|, run[|run| - 1].inFlight) <= Weight(|nodes|, run[0].inFlight)
  {
    hide Passes, Weight;
    if |run| > 1 {
      var earlier := run[..|run| - 1];
      ExchangesEnd(nodes, earlier);
      StepIsLighter(nodes, run[|run| - 2], run[|run| - 1]);
    }
  }
}
