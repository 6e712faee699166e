/** Tun: the flow table code of tun.cc, with its expiry and eviction loops, and the decision it serves. */
module FlowTables {
  import opened Prelude
  import opened Net
  import opened FlowModel
  import opened FlowTrace

  /** What becomes of a packet that comes out of the tunnel. */
  datatype Delivery = Invalid | ToNetStack(packet: Bytes) | ToKernel(packet: Bytes)

  const IPIP: Byte := 0x04

  class Tun {
    var initiatedFlows: Table
    var lastFlowReap: Time
    var sysRtTable: seq<SysRouteEntry>
    const userspaceStack: bool
    const ip: IP4

    // The run of the table so far: what happened to it, and the tables in between.
    ghost var events: seq<Event>
    ghost var tables: seq<Flows>

    ghost function Abs(): Flows
      reads this
    {
      Flows(initiatedFlows, lastFlowReap)
    }

    ghost predicate Valid()
      reads this
    {
      IsRun(events, tables) && tables[|events|] == Abs()
    }

    constructor (ip: IP4, userspaceStack: bool)
      ensures Valid() && events == [] && sysRtTable == []
      ensures this.ip == ip && this.userspaceStack == userspaceStack
    {
      this.ip := ip;
      this.userspaceStack := userspaceStack;
      initiatedFlows := map[];
      lastFlowReap := 0;
      sysRtTable := [];
      events, tables := [], [Flows(map[], 0)];
    }

    /** Appends what has just happened to the run. */
    ghost method Note(e: Event)
      requires IsRun(events, tables) && Step(tables[|events|], e, Abs())
      modifies `events, `tables
      ensures Valid() && events == old(events) + [e] && |initiatedFlows| <= CAPACITY
    {
      hide Step;
      RunExtends(events, tables, e, Abs());
      events, tables := events + [e], tables + [Abs()];
      Bounded(events, tables, |events|);
    }

    method ReapIdleFlows(now: Time)
      modifies `initiatedFlows, `lastFlowReap
      ensures Reaps(old(Abs()), now, Abs())
    {
      var overCapacity := |initiatedFlows| > CAPACITY;
      if !overCapacity && now - lastFlowReap < REAP_EVERY {
        return;
      }
      lastFlowReap := now;
      EraseExpired(now);
      ghost var live := initiatedFlows;
      while |initiatedFlows| > CAPACITY
        modifies `initiatedFlows
        invariant initiatedFlows.Keys <= live.Keys && forall k :: k in initiatedFlows ==> initiatedFlows[k] == live[k]
        invariant |initiatedFlows| == |live| || CAPACITY <= |initiatedFlows| < |live|
        invariant forall k, j :: k in live && k !in initiatedFlows && j in initiatedFlows ==>
                    live[k] <= initiatedFlows[j]
        decreases |initiatedFlows|
      {
        var oldest := FindOldest();
        RemovedSize(initiatedFlows, oldest);
        initiatedFlows := initiatedFlows - {oldest};
      }
    }

    static lemma RemovedSize(t: Table, k: FlowKey)
      requires k in t
      ensures |t - {k}| == |t| - 1
    {
      assert (t - {k}).Keys == t.Keys - {k};
    }

    method EraseExpired(now: Time)
      modifies `initiatedFlows
      ensures initiatedFlows == Fresh(old(initiatedFlows), now)
    {
      var todo := initiatedFlows.Keys;
      ghost var before := initiatedFlows;
      while todo != {}
        modifies `initiatedFlows
        invariant todo <= initiatedFlows.Keys && initiatedFlows.Keys <= before.Keys
        invariant forall k :: k in initiatedFlows ==> initiatedFlows[k] == before[k]
        invariant forall k :: k in before && k !in todo ==> (k in initiatedFlows <==> now - before[k] <= FLOW_IDLE)
        decreases todo
      {
        var k :| k in todo;
        if now - initiatedFlows[k] > FLOW_IDLE {
          initiatedFlows := initiatedFlows - {k};
        }
        todo := todo - {k};
      }
    }

    /** The inner loop of the eviction. */
    method FindOldest() returns (oldest: FlowKey)
      requires initiatedFlows != map[]
      ensures oldest in initiatedFlows
      ensures forall k :: k in initiatedFlows ==> initiatedFlows[oldest] <= initiatedFlows[k]
    {
      var todo := initiatedFlows.Keys;
      oldest :| oldest in todo;
      while todo != {}
        invariant oldest in initiatedFlows && todo <= initiatedFlows.Keys
        invariant forall k :: k in initiatedFlows && k !in todo ==> initiatedFlows[oldest] <= initiatedFlows[k]
        decreases todo
      {
        var k :| k in todo;
        if initiatedFlows[k] < initiatedFlows[oldest] { oldest := k; }
        todo := todo - {k};
      }
    }

    /** `now` and `reapNow` are the two readings of the clock. */
    method RecordInitiatedFlow(origPacket: Bytes, now: Time, reapNow: Time)
      requires Valid()
      modifies `initiatedFlows, `lastFlowReap, `events, `tables
      ensures Valid()
      ensures match ParseInnerL4(origPacket)
              case Some(key) =>
                && events == old(events) + [Record(key, now, reapNow)] && |initiatedFlows| <= CAPACITY
                && Reaps(Touched(old(Abs()), key, now), reapNow, Abs())
              case None => events == old(events) && Abs() == old(Abs())
    {
      hide ParseInnerL4, Reaps;
      var key := ParseInnerL4(origPacket);
      if key.None? { return; }
      initiatedFlows := initiatedFlows[key.value := now];
      ReapIdleFlows(reapNow);
      Note(Record(key.value, now, reapNow));
    }

    method IsReturnTraffic(packet: Bytes) returns (r: bool)
      ensures r == (|packet| >= 2 * IP_HEADER && FromRouted(packet[IP_HEADER..], sysRtTable))
    {
      if |packet| < 2 * IP_HEADER { return false; }
      var saddr: IP4 := packet[IP_HEADER..][12..16];
      var i := 0;
      while i < |sysRtTable|
        invariant i <= |sysRtTable|
        invariant forall j :: 0 <= j < i ==> And(saddr, sysRtTable[j].mask) != sysRtTable[j].dst
      {
        if And(saddr, sysRtTable[i].mask) == sysRtTable[i].dst { return true; }
        i := i + 1;
      }
      return false;
    }

    /** Return traffic: by the table of flows if the inner packet has ports, by the routes if it has none. */
    ghost predicate Returning(packet: Bytes)
      reads this
    {
      |packet| >= 2 * IP_HEADER &&
      match ParseInnerL4(packet[IP_HEADER..])
      case Some(fwd) => Reversed(fwd) in initiatedFlows
      case None => FromRouted(packet[IP_HEADER..], sysRtTable)
    }

    /** The reversed five-tuple that a packet of the tunnel is looked up by, if its inner packet has one. */
    static function LookupKey(packet: Bytes): Option<FlowKey> {
      if |packet| < 2 * IP_HEADER then None
      else match ParseInnerL4(packet[IP_HEADER..])
           case Some(fwd) => Some(Reversed(fwd))
           case None => None
    }

    method IsReturnByFlow(packet: Bytes, now: Time) returns (r: bool)
      requires Valid()
      modifies `initiatedFlows, `events, `tables
      ensures Valid() && r == old(Returning(packet))
      ensures events == old(events) + if LookupKey(packet).Some? then [Lookup(LookupKey(packet).value, now)] else []
      ensures Abs() == if LookupKey(packet).Some? && r then Touched(old(Abs()), LookupKey(packet).value, now)
                       else old(Abs())
    {
      hide ParseInnerL4;
      if |packet| < 2 * IP_HEADER { return false; }
      var fwd := ParseInnerL4(packet[IP_HEADER..]);
      if fwd.None? {
        r := IsReturnTraffic(packet);
        return;
      }
      var rev := FlowKey(fwd.value.proto, fwd.value.dstIP, fwd.value.dstPort, fwd.value.srcIP, fwd.value.srcPort);
      r := rev in initiatedFlows;
      if r {
        initiatedFlows := initiatedFlows[rev := now];
      }
      Note(Lookup(rev, now));
    }

    /**
     * An IPIP packet that starts a new flow goes to the user space stack, any other to the kernel, unwrapped.
     * An IPIP packet is looked up, and so keeps alive the flow it answers; no other packet touches the table.
     */
    method HandlePacket(packet: Bytes, now: Time) returns (d: Delivery)
      requires Valid()
      modifies `initiatedFlows, `events, `tables
      ensures Valid()
      ensures |packet| < IP_HEADER ==> d == Invalid && events == old(events) && Abs() == old(Abs())
      ensures |packet| >= IP_HEADER && packet[9] != IPIP ==>
                d == ToKernel(packet) && events == old(events) && Abs() == old(Abs())
      ensures |packet| >= IP_HEADER && packet[9] == IPIP ==>
                var r, key := old(Returning(packet)), LookupKey(packet);
                && d == (if !r && userspaceStack then ToNetStack(packet) else ToKernel(packet[IP_HEADER..]))
                && events == old(events) + (if key.Some? then [Lookup(key.value, now)] else [])
                && Abs() == if key.Some? && r then Touched(old(Abs()), key.value, now) else old(Abs())
    {
      if |packet| < IP_HEADER { return Invalid; }
      if packet[9] == IPIP {
        var back := IsReturnByFlow(packet, now);
        if !back && userspaceStack { return ToNetStack(packet); }
        return ToKernel(packet[IP_HEADER..]);
      }
      return ToKernel(packet);
    }

    /** At any time between packets. */
    lemma TableBounded()
      requires Valid()
      ensures |initiatedFlows| <= 4096
    {
      Bounded(events, tables, |events|);
    }
  }
}
