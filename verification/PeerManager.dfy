/**
 * PeerManager: the routing table code of manager.cc with its erase-while-iterating and send loops, joined to
 * the ticking of the peers. The order in which the loops visit a hash map is arbitrary, so what a step sends
 * is a multiset.
 */
module PeerManagers {
  import opened Prelude
  import opened PeerModel
  import opened RouteModel
  import Peers

  /** A ROUTE message handed to the peer object `to`. */
  datatype Packet = Packet(to: Addr, dst: Addr, next: Addr, rtt: int)

  /** The packet advertises one of `ads` to one of the connected peers. */
  predicate Advertises(x: Packet, connected: set<Addr>, self: Addr, cost: nat, ads: map<Addr, int>) {
    x.to in connected && x.dst in ads && x.next == self && x.rtt == Advertised(ads[x.dst], cost)
  }

  /** Between `before` and `after` exactly one message per connected peer and advertised destination went out. */
  ghost predicate Broadcast(before: multiset<Packet>, after: multiset<Packet>, connected: set<Addr>,
                            self: Addr, cost: nat, ads: map<Addr, int>) {
    forall x: Packet :: after[x] == before[x] + (if Advertises(x, connected, self, cost, ads) then 1 else 0)
  }

  lemma NothingSent(sent: multiset<Packet>, connected: set<Addr>, self: Addr, cost: nat)
    ensures Broadcast(sent, sent, connected, self, cost, map[])
  {
  }

  lemma BroadcastMore(before: multiset<Packet>, mid: multiset<Packet>, after: multiset<Packet>, connected: set<Addr>,
                      self: Addr, cost: nat, ads: map<Addr, int>, d: Addr, rtt: int)
    requires Broadcast(before, mid, connected, self, cost, ads) && d !in ads
    requires Broadcast(mid, after, connected, self, cost, map[d := rtt])
    ensures Broadcast(before, after, connected, self, cost, ads[d := rtt])
  {
  }

  /** The packet withdraws the route to a destination of `gone`. */
  predicate Withdraws(x: Packet, self: Addr, gone: set<Addr>) { x.dst in gone && x.next == self && x.rtt == RTT_LIMIT }

  /**
   * Between `before` and `after` each destination of `gone` was withdrawn exactly once to every peer of `still`
   * and at most once to any other peer of `was`, and nothing else was sent.
   */
  ghost predicate Withdrawn(before: multiset<Packet>, after: multiset<Packet>, was: set<Addr>, still: set<Addr>,
                            self: Addr, gone: set<Addr>) {
    forall x: Packet ::
      && before[x] <= after[x] <= before[x] + 1
      && (after[x] != before[x] ==> Withdraws(x, self, gone) && x.to in was)
      && (Withdraws(x, self, gone) && x.to in still ==> after[x] == before[x] + 1)
  }

  /** One more broadcast of withdrawals, of routes not withdrawn before, to the peers still connected. */
  lemma {:induction false} WithdrawnStep(before: multiset<Packet>, mid: multiset<Packet>, after: multiset<Packet>,
                                         was: set<Addr>, now: set<Addr>, still: set<Addr>, self: Addr, cost: nat,
                                         gone: set<Addr>, more: map<Addr, int>)
    requires Withdrawn(before, mid, was, now, self, gone) && still <= now && now <= was
    requires (forall d :: d in more ==> more[d] == RTT_LIMIT) && more.Keys !! gone
    requires Broadcast(mid, after, still, self, cost, more)
    ensures Withdrawn(before, after, was, still, self, gone + more.Keys)
  {
    hide Withdrawn, Broadcast;
    forall x: Packet
      ensures before[x] <= after[x] <= before[x] + 1
      ensures after[x] != before[x] ==> Withdraws(x, self, gone + more.Keys) && x.to in was
      ensures Withdraws(x, self, gone + more.Keys) && x.to in still ==> after[x] == before[x] + 1
    {
      WithdrawnAt(before, mid, was, now, self, gone, x);
      BroadcastAt(mid, after, still, self, cost, more, x);
    }
    WithdrawnAll(before, after, was, still, self, gone + more.Keys);
  }

  lemma WithdrawnAt(before: multiset<Packet>, after: multiset<Packet>, was: set<Addr>, still: set<Addr>, self: Addr,
                    gone: set<Addr>, x: Packet)
    requires Withdrawn(before, after, was, still, self, gone)
    ensures before[x] <= after[x] <= before[x] + 1
    ensures after[x] != before[x] ==> Withdraws(x, self, gone) && x.to in was
    ensures Withdraws(x, self, gone) && x.to in still ==> after[x] == before[x] + 1
  {
  }

  lemma BroadcastAt(before: multiset<Packet>, after: multiset<Packet>, connected: set<Addr>, self: Addr, cost: nat,
                    ads: map<Addr, int>, x: Packet)
    requires Broadcast(before, after, connected, self, cost, ads)
    ensures after[x] == before[x] + (if Advertises(x, connected, self, cost, ads) then 1 else 0)
  {
  }

  lemma WithdrawnAll(before: multiset<Packet>, after: multiset<Packet>, was: set<Addr>, still: set<Addr>, self: Addr,
                     gone: set<Addr>)
    requires forall x: Packet :: before[x] <= after[x] <= before[x] + 1
    requires forall x: Packet :: after[x] != before[x] ==> Withdraws(x, self, gone) && x.to in was
    requires forall x: Packet :: Withdraws(x, self, gone) && x.to in still ==> after[x] == before[x] + 1
    ensures Withdrawn(before, after, was, still, self, gone)
  {
  }

  lemma NothingWithdrawn(sent: multiset<Packet>, was: set<Addr>, self: Addr)
    ensures Withdrawn(sent, sent, was, was, self, {})
  {
  }

  class PeerManager {
    const tunIp: Addr
    const routeCost: nat
    var rtTable: Table
    const peers: map<Addr, Peers.Peer>

    // Every ROUTE message handed to a peer so far.
    ghost var sent: multiset<Packet>

    ghost predicate Valid()
      reads this
    {
      && routeCost <= 1000
      && (forall ip :: ip in peers ==> peers[ip].addr == ip)
    }

    function Connected(): set<Addr>
      reads peers.Values
    {
      set ip | ip in peers && peers[ip].state == CONNECTED
    }

    /** setRouteCost, and the peer objects known so far. */
    constructor (tunIp: Addr, cost: int, peers: map<Addr, Peers.Peer>)
      requires forall ip :: ip in peers ==> peers[ip].addr == ip
      ensures Valid() && this.tunIp == tunIp && this.peers == peers && rtTable == map[] && sent == multiset{}
      ensures routeCost == if cost < 0 then 0 else if cost > 1000 then 1000 else cost
    {
      this.tunIp := tunIp;
      routeCost := if cost < 0 then 0 else if cost > 1000 then 1000 else cost;
      this.peers := peers;
      rtTable := map[];
      sent := multiset{};
    }

    predicate ClientRelayEnabled() { routeCost > 0 }

    method SendRtMessage(dst: Addr, rtt: int)
      requires Valid()
      modifies `sent
      ensures Broadcast(old(sent), sent, Connected(), tunIp, routeCost, map[dst := rtt])
    {
      var wire := if rtt != RTT_LIMIT then rtt + routeCost else rtt;
      var todo := peers.Keys;
      ghost var connected, done := Connected(), {};
      while todo != {}
        modifies `sent
        invariant todo <= peers.Keys && done == connected - todo
        invariant Broadcast(old(sent), sent, done, tunIp, routeCost, map[dst := rtt])
        decreases todo
      {
        var ip :| ip in todo;
        if peers[ip].state == CONNECTED {
          sent := sent + multiset{Packet(ip, dst, tunIp, wire)};
          done := done + {ip};
        }
        todo := todo - {ip};
      }
      assert done == connected;
    }

    /** The table and the messages after an update, for any entry whatever. */
    method UpdateRtTable(dst: Addr, next: Addr, rtt: int)
      requires Valid()
      modifies `rtTable, `sent
      ensures rtTable == AfterUpdateRt(old(rtTable), dst, next, rtt)
      ensures Broadcast(old(sent), sent, Connected(), tunIp, routeCost, Adverts(old(rtTable), dst, next, rtt))
    {
      var isDirect := dst == next;
      var isDelete := rtt < 0 || rtt > 1000;
      if isDirect && isDelete {
        EraseThrough(next);
      } else if isDirect {
        if dst !in rtTable || rtTable[dst].next == next || rtTable[dst].rtt > rtt {
          rtTable := rtTable[dst := Route(next, rtt)];
          SendRtMessage(dst, rtt);
        }
      } else if isDelete {
        if dst in rtTable && rtTable[dst].next == next {
          SendRtMessage(dst, RTT_LIMIT);
          rtTable := rtTable - {dst};
        }
      } else {
        if next !in rtTable { return; }
        var rttNow := rtTable[next].rtt + rtt;
        if dst !in rtTable || rtTable[dst].next == next || rtTable[dst].rtt > rttNow {
          rtTable := rtTable[dst := Route(next, rttNow)];
          SendRtMessage(dst, rttNow);
        }
      }
    }

    /** The erase-while-iterating loop: one withdrawal to each connected peer for every route through `next`. */
    method EraseThrough(next: Addr)
      requires Valid()
      modifies `rtTable, `sent
      ensures rtTable == Without(old(rtTable), next)
      ensures Broadcast(old(sent), sent, Connected(), tunIp, routeCost, Withdrawals(Through(old(rtTable), next)))
    {
      hide Broadcast, Connected;
      var todo := rtTable.Keys;
      ghost var table, gone := rtTable, map[];
      NothingSent(sent, Connected(), tunIp, routeCost);
      while todo != {}
        modifies `rtTable, `sent
        invariant todo <= rtTable.Keys <= table.Keys
        invariant forall d :: d in rtTable ==> rtTable[d] == table[d]
        invariant forall d :: d in table && d !in todo ==> (d in rtTable <==> table[d].next != next)
        invariant gone == Withdrawals(Through(table, next) - todo)
        invariant Broadcast(old(sent), sent, Connected(), tunIp, routeCost, gone)
        decreases todo
      {
        var d :| d in todo;
        if rtTable[d].next == next {
          ghost var mid := sent;
          SendRtMessage(d, RTT_LIMIT);
          BroadcastMore(old(sent), mid, sent, Connected(), tunIp, routeCost, gone, d, RTT_LIMIT);
          rtTable := rtTable - {d};
          gone := gone[d := RTT_LIMIT];
        }
        todo := todo - {d};
      }
      assert Through(table, next) - todo == Through(table, next);
    }

    static function Withdrawals(ds: set<Addr>): map<Addr, int> { map d | d in ds :: RTT_LIMIT }

    // ---- messages ----

    /** `reflect`: the message goes back to its sender. The measured delay is now minus the echoed timestamp. */
    method HandleDelayMessage(src: Addr, dst: Addr, measured: int) returns (reflect: bool)
      requires Valid()
      modifies `rtTable, `sent, if dst in peers then {peers[dst]} else {}
      ensures reflect == (ClientRelayEnabled() && dst == tunIp && src in Connected())
      ensures var update := ClientRelayEnabled() && dst != tunIp && src == tunIp && dst in peers;
              && rtTable == (if update then AfterUpdateRt(old(rtTable), dst, dst, measured) else old(rtTable))
              && Broadcast(old(sent), sent, Connected(), tunIp, routeCost,
                                               if update then Adverts(old(rtTable), dst, dst, measured) else map[])
              && (dst in peers ==>
                   peers[dst].Abs() == old(peers[dst].Abs()).(rtt := if update then measured else old(peers[dst].rtt)))
    {
      reflect := false;
      if !ClientRelayEnabled() { return; }
      if dst == tunIp {
        reflect := src in peers && peers[src].state == CONNECTED;
        return;
      }
      if src == tunIp && dst in peers {
        peers[dst].rtt := measured;
        UpdateRtTable(dst, dst, measured);
      }
    }

    method HandleRouteMessage(dst: Addr, next: Addr, rtt: int)
      requires Valid()
      modifies `rtTable, `sent
      ensures var update := ClientRelayEnabled() && dst != tunIp;
              && rtTable == (if update then AfterUpdateRt(old(rtTable), dst, next, rtt) else old(rtTable))
              && Broadcast(old(sent), sent, Connected(), tunIp, routeCost,
                                               if update then Adverts(old(rtTable), dst, next, rtt) else map[])
    {
      if routeCost == 0 { return; }
      if dst != tunIp {
        UpdateRtTable(dst, next, rtt);
      }
    }

    /**
     * sendPacket: the peer a packet is given to. The route's next hop comes first, then the destination itself;
     * either must be connected, and the sending to it succeed. `relayed` and `direct` are what sendEncrypted
     * answers the first and the second time.
     */
    method SendPacket(dst: Addr, relayed: bool, direct: bool) returns (to: Option<Addr>)
      requires Valid()
      ensures var hop := dst in rtTable && rtTable[dst].next in Connected() && relayed;
              to == if hop then Some(rtTable[dst].next) else if dst in Connected() && direct then Some(dst) else None
    {
      to := SendPacketRelay(dst, relayed);
      if to.None? { to := SendPacketDirect(dst, direct); }
    }

    method SendPacketDirect(dst: Addr, sent: bool) returns (to: Option<Addr>)
      ensures to == if dst in Connected() && sent then Some(dst) else None
    {
      if dst in peers && peers[dst].state == CONNECTED && sent { return Some(dst); }
      return None;
    }

    method SendPacketRelay(dst: Addr, sent: bool) returns (to: Option<Addr>)
      ensures to == if dst in rtTable && rtTable[dst].next in Connected() && sent then Some(rtTable[dst].next) else None
    {
      if dst !in rtTable { return None; }
      to := SendPacketDirect(rtTable[dst].next, sent);
    }

    // ---- a tick ----

    /**
     * One peer's turn in tick(). If the peer drops out of CONNECTED and relaying is enabled, then afterwards
     * no route goes through it, every other route is as before, and each peer still connected has been handed
     * exactly one withdrawal for every route removed. In every other case nothing is routed differently.
     */
    method TickPeer(ip: Addr, stunEnabled: bool, now: Time)
      requires Valid() && ip in peers
      modifies `rtTable, `sent, peers[ip]
      ensures peers[ip].Abs() == AfterTick(old(peers[ip].Abs()), stunEnabled, now)
      ensures var lost := ClientRelayEnabled() && old(peers[ip].state) == CONNECTED && peers[ip].state != CONNECTED;
              && (lost ==>
                   && Through(rtTable, ip) == {}
                   && (forall d :: d in old(rtTable) && old(rtTable)[d].next != ip ==>
                         d in rtTable && rtTable[d] == old(rtTable)[d])
                   && rtTable.Keys == old(rtTable).Keys - Through(old(rtTable), ip)
                   && Broadcast(old(sent), sent, Connected(), tunIp, routeCost, Withdrawals(Through(old(rtTable), ip)))
                   && ip !in Connected())
              && (!lost ==> rtTable == old(rtTable) && sent == old(sent))
    {
      var actions := peers[ip].Tick(stunEnabled, ClientRelayEnabled(), now);
      if RouteLost in actions {
        UpdateRtTable(ip, ip, RTT_LIMIT);
      }
    }

    function States(): map<Addr, PeerModel.Peer>
      reads peers.Values
    {
      map ip | ip in peers :: peers[ip].Abs()
    }

    /** The routes of `t` that do not go through a peer of `lost`. */
    static function Keeping(t: Table, lost: set<Addr>): Table {
      map d | d in t && t[d].next !in lost :: t[d]
    }

    static predicate DropsOut(p: PeerModel.Peer, stunEnabled: bool, now: Time) {
      p.state == CONNECTED && AfterTick(p, stunEnabled, now).state != CONNECTED
    }

    static lemma TickConnectsNobody(p: PeerModel.Peer, stunEnabled: bool, now: Time)
      ensures AfterTick(p, stunEnabled, now).state == CONNECTED ==> p.state == CONNECTED
    {
    }

    /** One turn of the loop of tick(), as a change of all the peers and of the table. */
    method Turn(ip: Addr, stunEnabled: bool, now: Time)
      requires Valid() && ip in peers
      modifies `rtTable, `sent, peers[ip]
      ensures States() == old(States())[ip := AfterTick(old(States())[ip], stunEnabled, now)]
      ensures var gone := if ClientRelayEnabled() && DropsOut(old(States())[ip], stunEnabled, now) then {ip} else {};
              rtTable == Keeping(old(rtTable), gone)
      ensures Connected() <= old(Connected())
      ensures Broadcast(old(sent), sent, Connected(), tunIp, routeCost, Withdrawals(old(rtTable).Keys - rtTable.Keys))
    {
      hide Broadcast, AfterTick;
      TickConnectsNobody(peers[ip].Abs(), stunEnabled, now);
      TickPeer(ip, stunEnabled, now);
      NothingSent(sent, Connected(), tunIp, routeCost);
      assert old(rtTable).Keys - rtTable.Keys == if rtTable == old(rtTable) then {} else Through(old(rtTable), ip);
    }

    /** The peers when those of `todo` have still to tick. */
    static function Midway(was: map<Addr, PeerModel.Peer>, todo: set<Addr>, stunEnabled: bool, now: Time)
      : map<Addr, PeerModel.Peer>
    {
      map ip | ip in was :: if ip in todo then was[ip] else AfterTick(was[ip], stunEnabled, now)
    }

    static function Dropouts(was: map<Addr, PeerModel.Peer>, stunEnabled: bool, now: Time): set<Addr> {
      set ip | ip in was && DropsOut(was[ip], stunEnabled, now)
    }

    static lemma MidwayStep(was: map<Addr, PeerModel.Peer>, todo: set<Addr>, ip: Addr, stunEnabled: bool, now: Time)
      requires ip in todo && todo <= was.Keys
      ensures var peer := Midway(was, todo, stunEnabled, now);
              && peer[ip] == was[ip]
              && Midway(was, todo - {ip}, stunEnabled, now) == peer[ip := AfterTick(was[ip], stunEnabled, now)]
    {
    }

    static lemma WithdrawnAfter(before: multiset<Packet>, mid: multiset<Packet>, after: multiset<Packet>,
                                was: set<Addr>, now: set<Addr>, still: set<Addr>, self: Addr, cost: nat,
                                all: set<Addr>, left: set<Addr>, leftNow: set<Addr>)
      requires Withdrawn(before, mid, was, now, self, all - left) && still <= now && now <= was
      requires leftNow <= left && left <= all
      requires Broadcast(mid, after, still, self, cost, Withdrawals(left - leftNow))
      ensures Withdrawn(before, after, was, still, self, all - leftNow)
    {
      hide Withdrawn, Broadcast;
      WithdrawnStep(before, mid, after, was, now, still, self, cost, all - left, Withdrawals(left - leftNow));
      assert (all - left) + Withdrawals(left - leftNow).Keys == all - leftNow;
    }

    static lemma KeepingTwice(t: Table, a: set<Addr>, b: set<Addr>)
      ensures Keeping(Keeping(t, a), b) == Keeping(t, a + b)
    {
    }

    /**
     * The loop of tick(): afterwards every peer has ticked once, and with relaying enabled the table holds
     * exactly the routes whose next hop did not drop out of CONNECTED during it. Every route removed has been
     * withdrawn exactly once to each peer still connected, and at most once to a peer that dropped out later.
     */
    method Tick(stunEnabled: bool, now: Time)
      requires Valid()
      modifies `rtTable, `sent, peers.Values
      ensures States() == Midway(old(States()), {}, stunEnabled, now)
      ensures rtTable == Keeping(old(rtTable),
                                 if ClientRelayEnabled() then Dropouts(old(States()), stunEnabled, now) else {})
      ensures Withdrawn(old(sent), sent, old(Connected()), Connected(), tunIp, old(rtTable).Keys - rtTable.Keys)
    {
      hide Withdrawn, Broadcast, Withdrawals, Connected, AfterTick;
      var todo := peers.Keys;
      NothingWithdrawn(sent, Connected(), tunIp);
      assert rtTable.Keys - rtTable.Keys == {};
      ghost var was, table := States(), rtTable;
      ghost var dropouts := if ClientRelayEnabled() then Dropouts(was, stunEnabled, now) else {};
      assert Midway(was, todo, stunEnabled, now) == was;
      assert Keeping(table, dropouts - todo) == table;
      while todo != {}
        modifies `rtTable, `sent, peers.Values
        invariant todo <= peers.Keys
        invariant States() == Midway(was, todo, stunEnabled, now)
        invariant rtTable == Keeping(table, dropouts - todo)
        invariant Connected() <= old(Connected())
        invariant Withdrawn(old(sent), sent, old(Connected()), Connected(), tunIp, table.Keys - rtTable.Keys)
        decreases todo
      {
        ghost var mid, before, now0 := sent, rtTable, Connected();
        var ip :| ip in todo;
        MidwayStep(was, todo, ip, stunEnabled, now);
        ghost var gone := if ip in dropouts then {ip} else {};
        assert dropouts - (todo - {ip}) == (dropouts - todo) + gone;
        KeepingTwice(table, dropouts - todo, gone);
        Turn(ip, stunEnabled, now);
        todo := todo - {ip};
        WithdrawnAfter(old(sent), mid, sent, old(Connected()), now0, Connected(), tunIp, routeCost,
                       table.Keys, before.Keys, rtTable.Keys);
      }
      assert dropouts - todo == dropouts;
    }
  }
}
