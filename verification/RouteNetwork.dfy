/**
 * Any number of relay nodes running the routing table of RouteModel over links that lose, duplicate and
 * reorder ROUTE messages: every distance in a table or a message is the length of a real walk.
 */
module RouteNetwork {
  import opened PeerModel
  import opened RouteModel

  /** A ROUTE message, named by its sender. */
  datatype Message = Message(sender: Addr, dst: Addr, rtt: int)

  /** One measured delay: the DELAY echo that `from` got back from `to`. */
  datatype Link = Link(from: Addr, to: Addr, delay: int)

  datatype Net = Net(tables: map<Addr, Table>, sent: set<Message>, measured: set<Link>)

  /** Node -> its routeCost, at most 1000; a node with cost 0 does not take part. */
  type Costs = map<Addr, nat>

  datatype Event =
    | Measure(node: Addr, peer: Addr, delay: int)
    | Deliver(node: Addr, msg: Message)
    | Lose(node: Addr, peer: Addr)

  function Start(costs: Costs): Net { Net(map a | a in costs :: map[], {}, {}) }

  /** handleDelayMessage reflects a message addressed to the node; handleRouteMessage skips routes to the node. */
  ghost predicate Enabled(costs: Costs, n: Net, e: Event) {
    && e.node in costs && e.node in n.tables && costs[e.node] > 0
    && match e
       case Measure(a, b, _) => a != b
       case Deliver(a, msg) => msg in n.sent && msg.dst != a
       case Lose(_, _) => true
  }

  function Updated(costs: Costs, n: Net, a: Addr, dst: Addr, next: Addr, rtt: int): Net
    requires a in costs && a in n.tables
  {
    var t, ads := n.tables[a], Adverts(n.tables[a], dst, next, rtt);
    n.(tables := n.tables[a := AfterUpdateRt(t, dst, next, rtt)],
       sent := n.sent + set d | d in ads :: Message(a, d, Advertised(ads[d], costs[a])))
  }

  ghost function Step(costs: Costs, n: Net, e: Event): Net
    requires Enabled(costs, n, e)
  {
    match e
    case Measure(a, b, m) => Updated(costs, n.(measured := n.measured + {Link(a, b, m)}), a, b, b, m)
    case Deliver(a, msg) => Updated(costs, n, a, msg.dst, msg.sender, msg.rtt)
    case Lose(a, b) => Updated(costs, n, a, b, b, RTT_LIMIT)
  }

  ghost predicate IsRun(costs: Costs, run: seq<Net>, events: seq<Event>) {
    && |run| == |events| + 1
    && run[0] == Start(costs)
    && forall i :: 0 <= i < |events| ==>
         Enabled(costs, run[i], events[i]) && run[i + 1] == Step(costs, run[i], events[i])
  }

  // ---- walks ----

  /** A walk over measured links, each between 0 and 1000. */
  ghost predicate IsWalk(costs: Costs, links: set<Link>, w: seq<Link>, from: Addr, to: Addr) {
    && w != [] && w[0].from == from && w[|w| - 1].to == to
    && (forall i :: 0 <= i < |w| ==> w[i] in links && 0 <= w[i].delay <= 1000 && w[i].from in costs)
    && (forall i :: 0 < i < |w| ==> w[i].from == w[i - 1].to)
  }

  /** The delays of a walk plus the cost of every relay it passes. */
  ghost function Length(costs: Costs, w: seq<Link>): int
    requires forall i :: 0 <= i < |w| ==> w[i].from in costs
  {
    if |w| == 0 then 0
    else if |w| == 1 then w[0].delay
    else w[0].delay + costs[w[1].from] + Length(costs, w[1..])
  }

  ghost predicate Visits(w: seq<Link>, a: Addr) { exists i :: 0 <= i < |w| && w[i].to == a }

  lemma {:induction false} LengthConcat(costs: Costs, u: seq<Link>, v: seq<Link>)
    requires u != [] && v != []
    requires forall i :: 0 <= i < |u| ==> u[i].from in costs
    requires forall i :: 0 <= i < |v| ==> v[i].from in costs
    ensures Length(costs, u + v) == Length(costs, u) + costs[v[0].from] + Length(costs, v)
  {
    if |u| == 1 {
      assert (u + v)[1..] == v;
    } else {
      LengthConcat(costs, u[1..], v);
      assert (u + v)[1..] == u[1..] + v;
    }
  }

  lemma WalkConcat(costs: Costs, links: set<Link>, u: seq<Link>, v: seq<Link>, a: Addr, b: Addr, c: Addr)
    requires IsWalk(costs, links, u, a, b) && IsWalk(costs, links, v, b, c)
    ensures IsWalk(costs, links, u + v, a, c) && Visits(u + v, b)
    ensures Length(costs, u + v) == Length(costs, u) + costs[b] + Length(costs, v)
  {
    LengthConcat(costs, u, v);
    assert (u + v)[|u| - 1].to == b;
  }

  // ---- the invariant ----

  ghost predicate Witness(costs: Costs, links: set<Link>, w: seq<Link>, a: Addr, dst: Addr, r: Route) {
    IsWalk(costs, links, w, a, dst) && Visits(w, r.next) && Length(costs, w) == r.rtt
  }

  ghost predicate Witnessed(costs: Costs, links: set<Link>, a: Addr, dst: Addr, r: Route) {
    dst != a && exists w :: Witness(costs, links, w, a, dst, r)
  }

  ghost predicate Carries(costs: Costs, links: set<Link>, w: seq<Link>, m: Message)
    requires m.sender in costs
  {
    IsWalk(costs, links, w, m.sender, m.dst) && m.rtt == costs[m.sender] + Length(costs, w)
  }

  ghost predicate MessageOk(costs: Costs, links: set<Link>, m: Message) {
    m.sender in costs && m.dst != m.sender && (m.rtt != RTT_LIMIT ==> exists w :: Carries(costs, links, w, m))
  }

  ghost predicate TableOk(costs: Costs, links: set<Link>, a: Addr, t: Table) {
    forall d :: d in t ==> Witnessed(costs, links, a, d, t[d])
  }

  ghost predicate Inv(costs: Costs, n: Net) {
    && n.tables.Keys == costs.Keys
    && (forall a :: a in n.tables ==> TableOk(costs, n.measured, a, n.tables[a]))
    && (forall m :: m in n.sent ==> MessageOk(costs, n.measured, m))
  }

  lemma MoreLinks(costs: Costs, n: Net, link: Link)
    requires Inv(costs, n)
    ensures Inv(costs, n.(measured := n.measured + {link}))
  {
    var links := n.measured + {link};
    forall a | a in n.tables
      ensures TableOk(costs, links, a, n.tables[a])
    {
      forall d | d in n.tables[a]
        ensures Witnessed(costs, links, a, d, n.tables[a][d])
      {
        assert Witnessed(costs, n.measured, a, d, n.tables[a][d]);
        var w :| Witness(costs, n.measured, w, a, d, n.tables[a][d]);
        assert Witness(costs, links, w, a, d, n.tables[a][d]);
      }
    }
    forall m | m in n.sent
      ensures MessageOk(costs, links, m)
    {
      if m.rtt != RTT_LIMIT {
        var w :| Carries(costs, n.measured, w, m);
        assert Carries(costs, links, w, m);
      }
    }
  }

  /** An update whose new entries are witnessed keeps everything witnessed. */
  lemma UpdatedInv(costs: Costs, n: Net, a: Addr, dst: Addr, next: Addr, rtt: int)
    requires Inv(costs, n) && a in costs
    requires TableOk(costs, n.measured, a, AfterUpdateRt(n.tables[a], dst, next, rtt))
    ensures Inv(costs, Updated(costs, n, a, dst, next, rtt))
  {
    var t' := AfterUpdateRt(n.tables[a], dst, next, rtt);
    var ads := Adverts(n.tables[a], dst, next, rtt);
    forall d | d in ads
      ensures MessageOk(costs, n.measured, Message(a, d, Advertised(ads[d], costs[a])))
    {
      AdvertsAreTheChanges(n.tables[a], dst, next, rtt, d);
      if d in t' {
        assert Witnessed(costs, n.measured, a, d, t'[d]);
        var w :| Witness(costs, n.measured, w, a, d, t'[d]);
        if ads[d] != RTT_LIMIT { assert Carries(costs, n.measured, w, Message(a, d, Advertised(ads[d], costs[a]))); }
      } else {
        assert Witnessed(costs, n.measured, a, d, n.tables[a][d]);
      }
    }
  }

  lemma OneLink(costs: Costs, links: set<Link>, l: Link)
    requires l in links && 0 <= l.delay <= 1000 && l.from in costs
    ensures Witness(costs, links, [l], l.from, l.to, Route(l.to, l.delay))
  {
    assert [l][0].to == l.to;
  }

  lemma MeasureInv(costs: Costs, n: Net, a: Addr, b: Addr, m: int)
    requires Inv(costs, n) && Enabled(costs, n, Measure(a, b, m))
    ensures Inv(costs, Step(costs, n, Measure(a, b, m)))
  {
    hide Updated, MessageOk, Witness;
    var n1 := n.(measured := n.measured + {Link(a, b, m)});
    MoreLinks(costs, n, Link(a, b, m));
    var t' := AfterUpdateRt(n.tables[a], b, b, m);
    forall d | d in t'
      ensures Witnessed(costs, n1.measured, a, d, t'[d])
    {
      if d in n.tables[a] && t'[d] == n.tables[a][d] {
        assert TableOk(costs, n1.measured, a, n1.tables[a]);
      } else {
        OneLink(costs, n1.measured, Link(a, b, m));
      }
    }
    UpdatedInv(costs, n1, a, b, b, m);
  }

  /** A node never hears of a route to the sender itself, so a ROUTE message never takes the direct branches. */
  lemma DeliverInv(costs: Costs, n: Net, a: Addr, msg: Message)
    requires Inv(costs, n) && Enabled(costs, n, Deliver(a, msg))
    ensures msg.dst != msg.sender
    ensures Inv(costs, Step(costs, n, Deliver(a, msg)))
  {
    hide Updated, Length, IsWalk, Visits;
    assert MessageOk(costs, n.measured, msg);
    var t, s := n.tables[a], msg.sender;
    var t' := AfterUpdateRt(t, msg.dst, s, msg.rtt);
    assert TableOk(costs, n.measured, a, t);
    forall d | d in t'
      ensures Witnessed(costs, n.measured, a, d, t'[d])
    {
      if !(d in t && t'[d] == t[d]) {
        assert Witnessed(costs, n.measured, a, s, t[s]);
        var u :| Witness(costs, n.measured, u, a, s, t[s]);
        var v :| Carries(costs, n.measured, v, msg);
        WalkConcat(costs, n.measured, u, v, a, s, msg.dst);
        assert Witness(costs, n.measured, u + v, a, d, t'[d]);
      }
    }
    UpdatedInv(costs, n, a, msg.dst, s, msg.rtt);
  }

  lemma LoseInv(costs: Costs, n: Net, a: Addr, b: Addr)
    requires Inv(costs, n) && Enabled(costs, n, Lose(a, b))
    ensures Inv(costs, Step(costs, n, Lose(a, b)))
  {
    var t' := AfterUpdateRt(n.tables[a], b, b, RTT_LIMIT);
    assert TableOk(costs, n.measured, a, n.tables[a]);
    assert forall d :: d in t' ==> d in n.tables[a] && t'[d] == n.tables[a][d];
    UpdatedInv(costs, n, a, b, b, RTT_LIMIT);
  }

  lemma {:induction false} RunInv(costs: Costs, run: seq<Net>, events: seq<Event>, i: nat)
    requires IsRun(costs, run, events) && i < |run|
    ensures Inv(costs, run[i])
  {
    if i > 0 {
      RunInv(costs, run, events, i - 1);
      match events[i - 1]
      case Measure(a, b, m) => MeasureInv(costs, run[i - 1], a, b, m);
      case Deliver(a, msg) => DeliverInv(costs, run[i - 1], a, msg);
      case Lose(a, b) => LoseInv(costs, run[i - 1], a, b);
    }
  }

  /**
   * In every run, a stored route is the length of a walk to its destination through its next hop: measured
   * delays between 0 and 1000 plus the cost of every relay passed, exactly. No node has a route to itself.
   */
  lemma RoutesAreWalks(costs: Costs, run: seq<Net>, events: seq<Event>, i: nat, a: Addr, dst: Addr)
    requires IsRun(costs, run, events) && i < |run|
    requires a in run[i].tables && dst in run[i].tables[a]
    ensures dst != a
    ensures exists w :: && IsWalk(costs, run[i].measured, w, a, dst)
                        && Visits(w, run[i].tables[a][dst].next)
                        && Length(costs, w) == run[i].tables[a][dst].rtt
  {
    RunInv(costs, run, events, i);
    assert Witnessed(costs, run[i].measured, a, dst, run[i].tables[a][dst]);
    var w :| Witness(costs, run[i].measured, w, a, dst, run[i].tables[a][dst]);
  }

  /** The same of every message ever sent that is not a withdrawal: the sender's walk plus the sender's cost. */
  lemma MessagesAreWalks(costs: Costs, run: seq<Net>, events: seq<Event>, i: nat, m: Message)
    requires IsRun(costs, run, events) && i < |run| && m in run[i].sent
    ensures m.dst != m.sender && m.sender in costs
    ensures m.rtt != RTT_LIMIT ==>
              exists w :: && IsWalk(costs, run[i].measured, w, m.sender, m.dst)
                          && m.rtt == costs[m.sender] + Length(costs, w)
  {
    RunInv(costs, run, events, i);
    assert MessageOk(costs, run[i].measured, m);
    if m.rtt != RTT_LIMIT {
      var w :| Carries(costs, run[i].measured, w, m);
    }
  }

  // ---- routes are as short as what was offered ----

  /** After a node is told of a destination by a next hop it knows, the destination is no farther than by way of it. */
  lemma {:induction false} DeliveryImproves(costs: Costs, run: seq<Net>, events: seq<Event>, i: nat, a: Addr,
                                            msg: Message)
    requires IsRun(costs, run, events) && i < |events| && events[i] == Deliver(a, msg)
    requires 0 <= msg.rtt <= 1000 && msg.sender in run[i].tables[a]
    ensures msg.dst in run[i + 1].tables[a]
    ensures run[i + 1].tables[a][msg.dst].rtt <= run[i].tables[a][msg.sender].rtt + msg.rtt
  {
    RunInv(costs, run, events, i);
    assert Enabled(costs, run[i], events[i]) && run[i + 1] == Step(costs, run[i], events[i]);
    DeliverInv(costs, run[i], a, msg);
    OffersTaken(run[i].tables[a], msg.dst, msg.sender, msg.rtt);
  }

  /** After a peer is lost exactly the routes through it are gone. */
  lemma {:induction false} LossErases(costs: Costs, run: seq<Net>, events: seq<Event>, i: nat, d: Addr)
    requires IsRun(costs, run, events) && i < |events| && events[i].Lose? && Enabled(costs, run[i], events[i])
    ensures var t, t' := run[i].tables[events[i].node], run[i + 1].tables[events[i].node];
            && (d in t' <==> d in t && t[d].next != events[i].peer)
            && (d in t' ==> t'[d] == t[d])
  {
    assert Enabled(costs, run[i], events[i]) && run[i + 1] == Step(costs, run[i], events[i]);
    var e := events[i];
    WithdrawalsTaken(run[i].tables[e.node], e.peer, e.peer, RTT_LIMIT, d);
  }

  /** After a delay is measured, the peer is no farther than that. */
  lemma {:induction false} MeasurementImproves(costs: Costs, run: seq<Net>, events: seq<Event>, i: nat)
    requires IsRun(costs, run, events) && i < |events| && Enabled(costs, run[i], events[i])
    ensures events[i].Measure? && 0 <= events[i].delay <= 1000 ==>
              && events[i].peer in run[i + 1].tables[events[i].node]
              && run[i + 1].tables[events[i].node][events[i].peer].rtt <= events[i].delay
  {
    assert Enabled(costs, run[i], events[i]) && run[i + 1] == Step(costs, run[i], events[i]);
    var e := events[i];
    if e.Measure? && 0 <= e.delay <= 1000 { OffersTaken(run[i].tables[e.node], e.peer, e.peer, e.delay); }
  }

  /**
   * Whatever changes in a node's table is announced: a new or another route with the node's own cost added, a lost
   * one as a withdrawal. The other nodes' tables stay as they are, and nothing sent is taken back.
   */
  lemma {:induction false} ChangesAnnounced(costs: Costs, run: seq<Net>, events: seq<Event>, i: nat, d: Addr)
    requires IsRun(costs, run, events) && i < |events| && Enabled(costs, run[i], events[i])
    requires events[i].node in run[i + 1].tables
    ensures var a, n, n' := events[i].node, run[i], run[i + 1];
            var t: Table, t': Table := n.tables[a], n'.tables[a];
            && n.sent <= n'.sent && n'.tables == n.tables[a := t']
            && (d in t && d !in t' ==> Message(a, d, 0x7FFF_FFFF) in n'.sent)
            && (d in t' && (d in t ==> t[d] != t'[d]) && t'[d].rtt < 0x7FFF_FFFF ==>
                  Message(a, d, t'[d].rtt + costs[a]) in n'.sent)
  {
    assert run[i + 1] == Step(costs, run[i], events[i]);
    var t := run[i].tables[events[i].node];
    match events[i]
    case Measure(a, b, m) => AdvertsAreTheChanges(t, b, b, m, d);
    case Deliver(a, msg) => AdvertsAreTheChanges(t, msg.dst, msg.sender, msg.rtt, d);
    case Lose(a, b) => AdvertsAreTheChanges(t, b, b, RTT_LIMIT, d);
  }
}
