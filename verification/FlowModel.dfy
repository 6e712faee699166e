/**
 * The initiated flows of tun.cc. A gateway remembers the TCP and UDP flows its own network starts; a packet of
 * the tunnel whose reversed five-tuple is remembered is the return traffic of one, any other is a new inbound flow.
 */
module FlowModel {
  import opened Prelude
  import opened Net
  import Subnets

  const CAPACITY := 4096
  const FLOW_IDLE: Time := 300 * SECOND
  const REAP_EVERY: Time := 10 * SECOND
  const IP_HEADER := 20

  type Port = b: Bytes | |b| == 2 witness [0, 0]

  /** Addresses and ports as they stand in the packet. */
  datatype FlowKey = FlowKey(proto: Byte, srcIP: IP4, srcPort: Port, dstIP: IP4, dstPort: Port)

  type Table = map<FlowKey, Time>
  datatype Flows = Flows(table: Table, lastReap: Time)

  datatype SysRouteEntry = SysRouteEntry(dst: IP4, mask: IP4, nexthop: IP4)

  // ---- packets ----

  function HeaderLength(first: Byte): nat { (first & 0x0F) as nat * 4 }

  /** The five-tuple of a TCP or UDP packet that is a first fragment and reaches to the end of its ports. */
  function ParseInnerL4(pkt: Bytes): Option<FlowKey> {
    if |pkt| < IP_HEADER then None
    else if pkt[0] >> 4 != 4 then None
    else if pkt[9] != 0x06 && pkt[9] != 0x11 then None
    else if (((pkt[6] as bv16) << 8) | (pkt[7] as bv16)) & 0x1FFF != 0 then None
    else
      var ihl := HeaderLength(pkt[0]);
      if ihl < IP_HEADER then None
      else if |pkt| < ihl + 4 then None
      else Some(FlowKey(pkt[9], pkt[12..16], pkt[ihl..ihl + 2], pkt[16..20], pkt[ihl + 2..ihl + 4]))
  }

  // ---- the layout of a packet ----

  /** What a packet holds besides its five-tuple: section 3.1 of RFC 791, and whatever follows the ports. */
  datatype Frame = Frame(first: Byte, service: Bytes, flags: Byte, ttl: Byte, check: Bytes, options: Bytes, rest: Bytes)

  /** Version 4; a header of 20 to 60 bytes, in words of four; fragment offset zero, the three flag bits free. */
  predicate IsFrame(f: Frame) {
    && 0x45 <= f.first <= 0x4F && |f.options| == 4 * (Num(f.first) - 0x45)
    && |f.service| == 5 && |f.check| == 2 && f.flags & 0x1F == 0
  }

  function Assembled(f: Frame, k: FlowKey): Bytes {
    [f.first] + f.service + [f.flags, 0, f.ttl, k.proto] + f.check + k.srcIP + k.dstIP + f.options
    + k.srcPort + k.dstPort + f.rest
  }

  lemma FirstByte(b: Byte)
    ensures (b >> 4 == 4 && HeaderLength(b) >= IP_HEADER) <==> 0x45 <= b <= 0x4F
    ensures 0x45 <= b <= 0x4F ==> HeaderLength(b) == IP_HEADER + 4 * (Num(b) - 0x45)
  {
  }

  lemma FragmentOffset(hi: Byte, lo: Byte)
    ensures (((hi as bv16) << 8) | (lo as bv16)) & 0x1FFF == 0 <==> hi & 0x1F == 0 && lo == 0
  {
  }

  lemma Layout(first: Byte, service: Bytes, flags: Byte, ttl: Byte, proto: Byte, check: Bytes, src: Bytes, dst: Bytes,
               options: Bytes, sport: Bytes, dport: Bytes, rest: Bytes)
    requires |service| == 5 && |check| == 2 && |src| == 4 && |dst| == 4 && |sport| == 2 && |dport| == 2
    ensures var b := [first] + service + [flags, 0, ttl, proto] + check + src + dst + options + sport + dport + rest;
            var n := 20 + |options|;
            && |b| == n + 4 + |rest| && b[0] == first && b[6] == flags && b[7] == 0 && b[9] == proto
            && b[12..16] == src && b[16..20] == dst && b[n..n + 2] == sport && b[n + 2..n + 4] == dport
  {
  }

  lemma Cut(b: Bytes, n: nat)
    requires 20 <= n <= |b| - 4 && b[7] == 0
    ensures b == [b[0]] + b[1..6] + [b[6], 0, b[8], b[9]] + b[10..12] + b[12..16] + b[16..20] + b[20..n]
                 + b[n..n + 2] + b[n + 2..n + 4] + b[n + 4..]
  {
  }

  lemma ParseOfAssembled(f: Frame, k: FlowKey)
    requires IsFrame(f) && (k.proto == 6 || k.proto == 17)
    ensures ParseInnerL4(Assembled(f, k)) == Some(k)
  {
    hide HeaderLength, Num;
    FirstByte(f.first);
    FragmentOffset(f.flags, 0);
    Layout(f.first, f.service, f.flags, f.ttl, k.proto, f.check, k.srcIP, k.dstIP, f.options,
           k.srcPort, k.dstPort, f.rest);
  }

  lemma AssembledOfParse(pkt: Bytes)
    requires ParseInnerL4(pkt).Some?
    ensures var k := ParseInnerL4(pkt).value;
            (k.proto == 6 || k.proto == 17) && exists f :: IsFrame(f) && pkt == Assembled(f, k)
  {
    hide HeaderLength, Num;
    FirstByte(pkt[0]);
    FragmentOffset(pkt[6], pkt[7]);
    var n := HeaderLength(pkt[0]);
    Cut(pkt, n);
    var f := Frame(pkt[0], pkt[1..6], pkt[6], pkt[8], pkt[10..12], pkt[20..n], pkt[n + 4..]);
    assert IsFrame(f) && pkt == Assembled(f, ParseInnerL4(pkt).value);
  }

  /**
   * A packet has a five-tuple exactly if it is an IPv4 header with that protocol, TCP or UDP, and those addresses,
   * any options, any flags and fragment offset zero, followed by those ports and anything at all.
   */
  lemma ParseExactlyPackets(pkt: Bytes, k: FlowKey)
    ensures ParseInnerL4(pkt) == Some(k) <==>
            (k.proto == 6 || k.proto == 17) && exists f :: IsFrame(f) && pkt == Assembled(f, k)
  {
    hide ParseInnerL4, Assembled, IsFrame;
    if ParseInnerL4(pkt) == Some(k) { AssembledOfParse(pkt); }
    forall f | (k.proto == 6 || k.proto == 17) && IsFrame(f) && pkt == Assembled(f, k)
      ensures ParseInnerL4(pkt) == Some(k)
    {
      ParseOfAssembled(f, k);
    }
  }

  function Reversed(k: FlowKey): FlowKey { FlowKey(k.proto, k.dstIP, k.dstPort, k.srcIP, k.srcPort) }

  /** The packet that answers `pkt`: the two ends exchanged, everything else the same. */
  function Answer(pkt: Bytes): Bytes
    requires ParseInnerL4(pkt).Some?
  {
    var l4 := HeaderLength(pkt[0]);
    pkt[..12] + pkt[16..20] + pkt[12..16] + pkt[20..l4] + pkt[l4 + 2..l4 + 4] + pkt[l4..l4 + 2] + pkt[l4 + 4..]
  }

  lemma Pieces<T>(a: seq<T>, b: seq<T>, c: seq<T>, d: seq<T>, e: seq<T>, f: seq<T>, g: seq<T>)
    requires |a| == 12 && |b| == 4 && |c| == 4 && |e| == 2 && |f| == 2
    ensures var s, n := a + b + c + d + e + f + g, 20 + |d|;
            && |s| == n + 4 + |g| && s[..12] == a && s[12..16] == b && s[16..20] == c
            && s[n..n + 2] == e && s[n + 2..n + 4] == f
  {
  }

  /** The answer to a packet parses, to the reversed five-tuple. */
  lemma {:induction false} AnswerReverses(pkt: Bytes)
    requires ParseInnerL4(pkt).Some?
    ensures ParseInnerL4(Answer(pkt)) == Some(Reversed(ParseInnerL4(pkt).value))
  {
    hide HeaderLength;
    var l4 := HeaderLength(pkt[0]);
    Pieces(pkt[..12], pkt[16..20], pkt[12..16], pkt[20..l4], pkt[l4 + 2..l4 + 4], pkt[l4..l4 + 2], pkt[l4 + 4..]);
    var r := Answer(pkt);
    assert forall i :: 0 <= i < 12 ==> r[i] == r[..12][i];
  }

  // ---- the table ----

  /** The rules say the packet's source is in a network reached through this host. */
  predicate FromRouted(pkt: Bytes, rules: seq<SysRouteEntry>)
    requires |pkt| >= IP_HEADER
  {
    exists i :: 0 <= i < |rules| && And(pkt[12..16], rules[i].mask) == rules[i].dst
  }

  /** Rules with a proper mask, prefix by prefix, whose destination is a network. */
  ghost predicate Proper(rules: seq<SysRouteEntry>, prefixes: seq<nat>) {
    && |prefixes| == |rules|
    && forall i :: 0 <= i < |rules| ==>
         && prefixes[i] <= 32 && IsMask(rules[i].mask, prefixes[i])
         && And(rules[i].dst, rules[i].mask) == rules[i].dst
  }

  /** Then the source is in a routed network exactly if its number lies in the block of some rule. */
  lemma {:induction false} FromRoutedExactly(pkt: Bytes, rules: seq<SysRouteEntry>, prefixes: seq<nat>)
    requires |pkt| >= IP_HEADER && Proper(rules, prefixes)
    ensures var src: IP4 := pkt[12..16];
            FromRouted(pkt, rules) <==>
            exists i :: && 0 <= i < |rules|
                        && Value(rules[i].dst) <= Value(src) < Value(rules[i].dst) + Subnets.Size(prefixes[i])
  {
    hide Value, And, IsMask, Subnets.Size;
    var src: IP4 := pkt[12..16];
    forall i | 0 <= i < |rules|
      ensures And(src, rules[i].mask) == rules[i].dst <==>
              Value(rules[i].dst) <= Value(src) < Value(rules[i].dst) + Subnets.Size(prefixes[i])
    {
      Subnets.BlockExactly(src, Subnets.Address(rules[i].dst, rules[i].mask), prefixes[i]);
    }
  }

  /** The entries that are not idle for more than 300 s. */
  function Fresh(t: Table, now: Time): Table { map k | k in t && now - t[k] <= FLOW_IDLE :: t[k] }

  /** `after` keeps as much of `before` as fits, and nothing evicted is newer than anything kept. */
  ghost predicate Trimmed(before: Table, after: Table) {
    && after.Keys <= before.Keys && (forall k :: k in after ==> after[k] == before[k])
    && |after| == (if |before| <= CAPACITY then |before| else CAPACITY)
    && (forall k, j :: k in before && k !in after && j in after ==> before[k] <= after[j])
  }

  predicate Scans(f: Flows, now: Time) { |f.table| > CAPACITY || now - f.lastReap >= REAP_EVERY }

  /** What reapIdleFlows may make of the flows; which of equally old entries go is left open. */
  ghost predicate Reaps(f: Flows, now: Time, g: Flows) {
    if Scans(f, now) then g.lastReap == now && Trimmed(Fresh(f.table, now), g.table) else g == f
  }

  function Touched(f: Flows, k: FlowKey, now: Time): Flows { f.(table := f.table[k := now]) }
}
