/** One peer's connection state machine (peer.cc): seven states, timeouts, back-off and the addresses learnt. */
module PeerModel {
  import opened Prelude

  const RTT_LIMIT: int := 0x7FFF_FFFF
  const RETRY_MIN: int := 30
  const RETRY_MAX: int := 3600
  const ACTIVE_WINDOW: Time := 10 * SECOND
  const CONNECTED_WINDOW: Time := 3 * SECOND

  datatype PeerState = INIT | PREPARING | SYNCHRONIZING | CONNECTING | CONNECTED | WAITING | FAILED

  datatype SocketAddr = SocketAddr(ip: U32, port: U16)

  /** Site-local, link-local and site-local multicast IPv4 ranges, the address read in host order. */
  predicate IsLocalNetwork(a: SocketAddr) {
    || 0x0A00_0000 <= a.ip <= 0x0AFF_FFFF
    || 0xAC10_0000 <= a.ip <= 0xAC1F_FFFF
    || 0xC0A8_0000 <= a.ip <= 0xC0A8_FFFF
    || 0xA9FE_0000 <= a.ip <= 0xA9FE_FFFF
    || 0xEFFF_0000 <= a.ip <= 0xEFFF_FFFF
  }

  datatype Peer = Peer(
    state: PeerState,
    ack: nat,
    retry: int,
    lastActive: Time,
    wideAddr: Option<SocketAddr>,
    localAddr: Option<SocketAddr>,
    realAddr: Option<SocketAddr>,
    rtt: int,
    tickCount: U32)

  function Fresh(tickCount: U32): Peer { Peer(INIT, 0, RETRY_MIN, 0, None, None, None, RTT_LIMIT, tickCount) }

  /** What a call asks the manager to do. */
  datatype Action =
    | SendHeartbeat(to: SocketAddr, ack: nat)
    | SendDelay(to: SocketAddr)
    | SendPubInfo(local: bool)
    | NeedStun
    | RouteLost

  // ---- transitions ----

  predicate Resets(s: PeerState) { s == INIT || s == WAITING || s == FAILED }

  function Min(a: int, b: int): int { if a < b then a else b }

  function NextRetry(from: PeerState, to: PeerState, retry: int): int {
    if from == WAITING && to == INIT then Min(retry * 2, RETRY_MAX)
    else if to == INIT || to == FAILED then RETRY_MIN
    else retry
  }

  function AfterReset(p: Peer): Peer {
    p.(wideAddr := None, localAddr := None, realAddr := None, ack := 0, rtt := RTT_LIMIT)
  }

  function AfterUpdate(p: Peer, to: PeerState, now: Time): Peer {
    if p.state == to then p.(lastActive := now)
    else
      var p1 := if Resets(to) then AfterReset(p) else p;
      p1.(lastActive := now, retry := NextRetry(p.state, to, p.retry), state := to)
  }

  predicate ActiveWithin(p: Peer, window: Time, now: Time) { now - p.lastActive < window }

  function AfterTryConnect(p: Peer, retryFailed: bool, now: Time): Peer {
    if p.state == INIT || (retryFailed && p.state == FAILED) then AfterUpdate(p, PREPARING, now) else p
  }

  function AfterPubInfo(p: Peer, a: SocketAddr, local: bool, now: Time): Peer {
    if local then p.(localAddr := Some(a))
    else
      var p1 := p.(wideAddr := Some(a));
      match p.state
      case CONNECTED => p1
      case CONNECTING => p1
      case SYNCHRONIZING => AfterUpdate(p1, CONNECTING, now)
      case _ => AfterUpdate(p1, PREPARING, now)
  }

  function AfterStunResponse(p: Peer, now: Time): Peer {
    if p.state != PREPARING then p
    else AfterUpdate(p, if p.wideAddr == None then SYNCHRONIZING else CONNECTING, now)
  }

  /** The timeouts; the tick counter is a uint32_t. */
  function AfterTick(p: Peer, stunEnabled: bool, now: Time): Peer {
    var p1 :=
      match p.state
      case PREPARING => if stunEnabled && ActiveWithin(p, ACTIVE_WINDOW, now) then p else AfterUpdate(p, FAILED, now)
      case SYNCHRONIZING => if ActiveWithin(p, ACTIVE_WINDOW, now) then p else AfterUpdate(p, FAILED, now)
      case CONNECTING => if ActiveWithin(p, ACTIVE_WINDOW, now) then p else AfterUpdate(p, WAITING, now)
      case CONNECTED => if ActiveWithin(p, CONNECTED_WINDOW, now) then p else AfterUpdate(p, INIT, now)
      case WAITING => if ActiveWithin(p, p.retry * SECOND, now) then p else AfterUpdate(p, INIT, now)
      case _ => p;
    p1.(tickCount := (p.tickCount + 1) % 0x1_0000_0000)
  }

  /** A heartbeat with a local source address is ignored when local peer-to-peer traffic is disabled. */
  predicate Hears(p: Peer, from: SocketAddr, localDisabled: bool) {
    !Resets(p.state) && (IsLocalNetwork(from) ==> !localDisabled)
  }

  function AfterHeartbeat(p: Peer, from: SocketAddr, ack: nat, localDisabled: bool, now: Time): Peer {
    if !Hears(p, from, localDisabled) then p
    else
      var keep := p.realAddr.Some? && !IsLocalNetwork(from) && IsLocalNetwork(p.realAddr.value);
      var p1 := p.(wideAddr := if IsLocalNetwork(from) then p.wideAddr else Some(from),
                   localAddr := if IsLocalNetwork(from) then Some(from) else p.localAddr,
                   realAddr := if keep then p.realAddr else Some(from),
                   ack := if p.ack == 0 then 1 else p.ack);
      if ack != 0 then AfterUpdate(p1, CONNECTED, now) else p1
  }

  // ---- what goes out ----

  /** The addresses that sendHeartbeatMessage writes to. */
  function HeartbeatTargets(p: Peer): seq<SocketAddr> {
    (if p.realAddr.Some? && p.state == CONNECTED then [p.realAddr.value] else [])
    + (if p.wideAddr.Some? && p.state == CONNECTING then [p.wideAddr.value] else [])
    + (if p.localAddr.Some? && (p.state == PREPARING || p.state == SYNCHRONIZING || p.state == CONNECTING)
       then [p.localAddr.value] else [])
  }

  function Heartbeats(p: Peer): seq<Action> {
    var to := HeartbeatTargets(p);
    seq(|to|, i requires 0 <= i < |to| => SendHeartbeat(to[i], p.ack))
  }

  function Delay(p: Peer): seq<Action> { if p.realAddr.Some? then [SendDelay(p.realAddr.value)] else [] }

  function TickActions(p: Peer, stunEnabled: bool, relay: bool, now: Time): seq<Action> {
    match p.state
    case PREPARING => if stunEnabled && ActiveWithin(p, ACTIVE_WINDOW, now) then [NeedStun] else []
    case SYNCHRONIZING => if ActiveWithin(p, ACTIVE_WINDOW, now) then Heartbeats(p) else []
    case CONNECTING => if ActiveWithin(p, ACTIVE_WINDOW, now) then Heartbeats(p) else []
    case CONNECTED =>
      if ActiveWithin(p, CONNECTED_WINDOW, now)
      then Heartbeats(p) + (if relay && p.tickCount % 60 == 0 then Delay(p) else [])
      else if relay then [RouteLost] else []
    case _ => []
  }

  // ---- runs ----

  datatype Event =
    | TryConnect(retryFailed: bool, now: Time)
    | PubInfo(from: SocketAddr, local: bool, now: Time)
    | StunResponse(now: Time)
    | Tick(stunEnabled: bool, now: Time)
    | Heartbeat(from: SocketAddr, ack: nat, localDisabled: bool, now: Time)

  function Step(p: Peer, e: Event): Peer {
    match e
    case TryConnect(retryFailed, now) => AfterTryConnect(p, retryFailed, now)
    case PubInfo(a, local, now) => AfterPubInfo(p, a, local, now)
    case StunResponse(now) => AfterStunResponse(p, now)
    case Tick(stunEnabled, now) => AfterTick(p, stunEnabled, now)
    case Heartbeat(from, ack, localDisabled, now) => AfterHeartbeat(p, from, ack, localDisabled, now)
  }

  ghost predicate IsRun(run: seq<Peer>, events: seq<Event>) {
    && |run| == |events| + 1
    && (exists t: U32 :: run[0] == Fresh(t))
    && forall i :: 0 <= i < |events| ==> run[i + 1] == Step(run[i], events[i])
  }
}
