/**
 * Two nodes, each with a peer object for the other, exchanging heartbeats over a channel that may lose,
 * duplicate, delay and reorder them. A heartbeat is named by the step whose tick sent it.
 */
module Handshake {
  import opened Prelude
  import opened PeerModel

  datatype Node = A | B

  function Other(n: Node): Node { if n == A then B else A }

  datatype Pair = Pair(a: Peer, b: Peer)

  function At(s: Pair, n: Node): Peer { if n == A then s.a else s.b }

  function With(s: Pair, n: Node, p: Peer): Pair { if n == A then s.(a := p) else s.(b := p) }

  /** `Deliver(n, sent, ...)`: node n receives the heartbeat that the other node's tick at step `sent` sent. */
  datatype NetEvent =
    | Own(node: Node, e: Event)
    | Deliver(node: Node, sent: nat, from: SocketAddr, localDisabled: bool, now: Time)

  /** The event is a tick in which the node sends at least one heartbeat. */
  predicate SendsHeartbeat(s: Pair, e: NetEvent, n: Node) {
    e.Own? && e.node == n && e.e.Tick?
    && exists a :: a in TickActions(At(s, n), e.e.stunEnabled, true, e.e.now) && a.SendHeartbeat?
  }

  /** Heartbeats reach a peer only as deliveries of what the other side sent before. */
  ghost predicate Enabled(run: seq<Pair>, events: seq<NetEvent>, i: nat)
    requires i < |events| && i < |run|
  {
    match events[i]
    case Own(n, e) => !e.Heartbeat?
    case Deliver(n, sent, _, _, _) => sent < i && SendsHeartbeat(run[sent], events[sent], Other(n))
  }

  /** A heartbeat carries the sender's acknowledgement at the time it was sent. */
  function Step(run: seq<Pair>, events: seq<NetEvent>, i: nat): Pair
    requires i < |events| && i < |run| && (events[i].Deliver? ==> events[i].sent < i)
  {
    match events[i]
    case Own(n, e) => With(run[i], n, PeerModel.Step(At(run[i], n), e))
    case Deliver(n, sent, from, localDisabled, now) =>
      With(run[i], n, AfterHeartbeat(At(run[i], n), from, At(run[sent], Other(n)).ack, localDisabled, now))
  }

  ghost predicate IsRun(run: seq<Pair>, events: seq<NetEvent>) {
    && |run| == |events| + 1
    && (exists t: U32, u: U32 :: run[0] == Pair(Fresh(t), Fresh(u)))
    && forall i: nat :: i < |events| ==> Enabled(run, events, i) && run[i + 1] == Step(run, events, i)
  }

  /** At step i node n processes a heartbeat that the other node sent. */
  ghost predicate Hears(run: seq<Pair>, events: seq<NetEvent>, i: nat, n: Node) {
    && i < |events| && i < |run|
    && events[i].Deliver? && events[i].node == n && events[i].sent < i
    && SendsHeartbeat(run[events[i].sent], events[events[i].sent], Other(n))
    && PeerModel.Hears(At(run[i], n), events[i].from, events[i].localDisabled)
  }

  // ---- what an acknowledgement proves ----

  /** From step i on up to step j node n acknowledges, without a reset. */
  ghost predicate AcksThroughout(run: seq<Pair>, i: nat, j: nat, n: Node) {
    j < |run| && forall m :: i < m <= j ==> At(run[m], n).ack != 0 && !Resets(At(run[m], n).state)
  }

  /** A heartbeat says ack only if its sender has processed one before, and not been reset since. */
  lemma {:induction false} AckMeansHeard(run: seq<Pair>, events: seq<NetEvent>, j: nat, n: Node)
    requires IsRun(run, events) && j < |run| && At(run[j], n).ack != 0
    ensures exists i: nat :: i < j && Hears(run, events, i, n) && AcksThroughout(run, i, j, n)
  {
    assert j > 0;
    if At(run[j - 1], n).ack == 0 { FirstAck(run, events, j, n); }
    AckNoReset(run, events, j, n);
    hide Step, Hears, Enabled;
    if At(run[j - 1], n).ack != 0 {
      AckMeansHeard(run, events, j - 1, n);
      var i: nat :| i < j - 1 && Hears(run, events, i, n) && AcksThroughout(run, i, j - 1, n);
      assert AcksThroughout(run, i, j, n);
    } else {
      assert AcksThroughout(run, j - 1, j, n);
    }
  }

  lemma FirstAck(run: seq<Pair>, events: seq<NetEvent>, j: nat, n: Node)
    requires IsRun(run, events) && 0 < j < |run| && At(run[j - 1], n).ack == 0 && At(run[j], n).ack != 0
    ensures Hears(run, events, j - 1, n)
  {
    assert Enabled(run, events, j - 1);
  }

  /** A peer that acknowledges is in none of the states that a reset leads to. */
  lemma {:induction false} AckNoReset(run: seq<Pair>, events: seq<NetEvent>, j: nat, n: Node)
    requires IsRun(run, events) && j < |run|
    ensures At(run[j], n).ack != 0 ==> !Resets(At(run[j], n).state)
  {
    if j > 0 {
      AckNoReset(run, events, j - 1, n);
      assert Enabled(run, events, j - 1);
    }
  }

  /** A peer is CONNECTED only since it processed an acknowledging heartbeat. */
  ghost predicate ConnectedBy(run: seq<Pair>, events: seq<NetEvent>, k: nat, n: nat, node: Node) {
    && k < n < |run| && Hears(run, events, k, node)
    && At(run[events[k].sent], Other(node)).ack != 0
    && forall m :: k < m <= n ==> At(run[m], node).state == CONNECTED
  }

  lemma {:induction false} ConnectedMeansAcked(run: seq<Pair>, events: seq<NetEvent>, n: nat, node: Node)
    requires IsRun(run, events) && n < |run| && At(run[n], node).state == CONNECTED
    ensures exists k: nat :: ConnectedBy(run, events, k, n, node)
  {
    assert n > 0;
    if At(run[n - 1], node).state == CONNECTED {
      ConnectedMeansAcked(run, events, n - 1, node);
      var k: nat :| ConnectedBy(run, events, k, n - 1, node);
      assert ConnectedBy(run, events, k, n, node);
    } else {
      assert Enabled(run, events, n - 1);
      assert ConnectedBy(run, events, n - 1, n, node);
    }
  }

  /**
   * The handshake is a handshake. If a node's peer is CONNECTED then, in this order: the node sent a
   * heartbeat (step h), the other side processed it (i), and without a reset since sent a heartbeat that
   * acknowledges (j), and the node processed that one (k) and has been CONNECTED ever since.
   */
  lemma ConnectedBothWays(run: seq<Pair>, events: seq<NetEvent>, n: nat, node: Node)
    returns (h: nat, i: nat, j: nat, k: nat)
    requires IsRun(run, events) && n < |run| && At(run[n], node).state == CONNECTED
    ensures h < i < j < k < n && n <= |events|
    ensures SendsHeartbeat(run[h], events[h], node)
    ensures Hears(run, events, i, Other(node)) && events[i].sent == h
    ensures AcksThroughout(run, i, j, Other(node))
    ensures SendsHeartbeat(run[j], events[j], Other(node)) && At(run[j], Other(node)).ack == 1
    ensures Hears(run, events, k, node) && events[k].sent == j
    ensures forall m :: k < m <= n ==> At(run[m], node).state == CONNECTED
  {
    ConnectedMeansAcked(run, events, n, node);
    k :| ConnectedBy(run, events, k, n, node);
    j := events[k].sent;
    AckMeansHeard(run, events, j, Other(node));
    i :| i < j && Hears(run, events, i, Other(node)) && AcksThroughout(run, i, j, Other(node));
    h := events[i].sent;
    AckIsBit(run, events, j, Other(node));
  }

  lemma {:induction false} AckIsBit(run: seq<Pair>, events: seq<NetEvent>, j: nat, n: Node)
    requires IsRun(run, events) && j < |run|
    ensures At(run[j], n).ack <= 1
  {
    if j > 0 {
      AckIsBit(run, events, j - 1, n);
      assert Enabled(run, events, j - 1);
    }
  }
}
