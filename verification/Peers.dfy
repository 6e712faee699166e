/** Peer: the methods of peer.cc, proved to do what PeerModel says; each returns what it asks the manager to do. */
module Peers {
  import opened Prelude
  import opened PeerModel

  class Peer {
    const addr: U32
    var state: PeerState
    var ack: nat
    var retry: int
    var lastActiveTime: Time
    var wide: Option<SocketAddr>
    var local: Option<SocketAddr>
    var realAddr: Option<SocketAddr>
    var rtt: int
    var tickCount: U32

    function Abs(): PeerModel.Peer
      reads this
    {
      PeerModel.Peer(state, ack, retry, lastActiveTime, wide, local, realAddr, rtt, tickCount)
    }

    constructor (addr: U32, random: U32)
      ensures this.addr == addr && Abs() == Fresh(random)
    {
      this.addr := addr;
      state, ack, retry, lastActiveTime := INIT, 0, RETRY_MIN, 0;
      wide, local, realAddr, rtt, tickCount := None, None, None, RTT_LIMIT, random;
    }

    method TryConnect(retryFailed: bool, now: Time)
      modifies this
      ensures Abs() == AfterTryConnect(old(Abs()), retryFailed, now)
    {
      if state == INIT || (retryFailed && state == FAILED) {
        var _ := UpdateState(PREPARING, now);
      }
    }

    method UpdateState(to: PeerState, now: Time) returns (changed: bool)
      modifies this
      ensures Abs() == AfterUpdate(old(Abs()), to, now) && changed == (old(state) != to)
    {
      lastActiveTime := now;
      if state == to { return false; }
      if to == INIT || to == WAITING || to == FAILED { ResetState(); }
      if state == WAITING && to == INIT {
        retry := if retry * 2 < RETRY_MAX then retry * 2 else RETRY_MAX;
      } else if to == INIT || to == FAILED {
        retry := RETRY_MIN;
      }
      state := to;
      changed := true;
    }

    method ResetState()
      modifies this
      ensures Abs() == AfterReset(old(Abs()))
    {
      wide, local, realAddr := None, None, None;
      ack, rtt := 0, RTT_LIMIT;
    }

    method HandlePubInfo(from: SocketAddr, isLocal: bool, now: Time) returns (actions: seq<Action>)
      modifies this
      ensures Abs() == AfterPubInfo(old(Abs()), from, isLocal, now)
      ensures actions == if isLocal || old(state) in {CONNECTED, SYNCHRONIZING, CONNECTING} then []
                         else [SendPubInfo(true)]
    {
      if isLocal {
        local := Some(from);
        return [];
      }
      wide := Some(from);
      if state == CONNECTED { return []; }
      if state == SYNCHRONIZING {
        var _ := UpdateState(CONNECTING, now);
        return [];
      }
      if state != CONNECTING {
        var _ := UpdateState(PREPARING, now);
        return [SendPubInfo(true)];
      }
      return [];
    }

    method HandleStunResponse(now: Time) returns (actions: seq<Action>)
      modifies this
      ensures Abs() == AfterStunResponse(old(Abs()), now)
      ensures actions == if old(state) == PREPARING then [SendPubInfo(false)] else []
    {
      if state != PREPARING { return []; }
      if wide == None {
        var _ := UpdateState(SYNCHRONIZING, now);
      } else {
        var _ := UpdateState(CONNECTING, now);
      }
      actions := [SendPubInfo(false)];
    }

    method Tick(stunEnabled: bool, relay: bool, now: Time) returns (actions: seq<Action>)
      modifies this
      ensures Abs() == AfterTick(old(Abs()), stunEnabled, now)
      ensures actions == TickActions(old(Abs()), stunEnabled, relay, now)
    {
      actions := [];
      match state {
        case INIT =>
        case PREPARING =>
          if stunEnabled && now - lastActiveTime < ACTIVE_WINDOW {
            actions := [NeedStun];
          } else {
            var _ := UpdateState(FAILED, now);
          }
        case SYNCHRONIZING =>
          if now - lastActiveTime < ACTIVE_WINDOW {
            actions := SendHeartbeatMessage();
          } else {
            var _ := UpdateState(FAILED, now);
          }
        case CONNECTING =>
          if now - lastActiveTime < ACTIVE_WINDOW {
            actions := SendHeartbeatMessage();
          } else {
            var _ := UpdateState(WAITING, now);
          }
        case CONNECTED =>
          if now - lastActiveTime < CONNECTED_WINDOW {
            actions := SendHeartbeatMessage();
            if relay && tickCount % 60 == 0 {
              var delay := SendDelayMessage();
              actions := actions + delay;
            }
          } else {
            var _ := UpdateState(INIT, now);
            if relay { actions := [RouteLost]; }
          }
        case WAITING =>
          if !(now - lastActiveTime < retry * SECOND) {
            var _ := UpdateState(INIT, now);
          }
        case FAILED =>
      }
      tickCount := (tickCount + 1) % 0x1_0000_0000;
    }

    method HandleHeartbeatMessage(from: SocketAddr, heartbeatAck: nat, localDisabled: bool, now: Time)
      returns (actions: seq<Action>)
      modifies this
      ensures Abs() == AfterHeartbeat(old(Abs()), from, heartbeatAck, localDisabled, now)
      ensures actions == if Abs().state == CONNECTED && old(state) != CONNECTED then Delay(Abs()) else []
    {
      actions := [];
      if state == INIT || state == WAITING || state == FAILED { return; }
      if !IsLocalNetwork(from) {
        wide := Some(from);
      } else if !localDisabled {
        local := Some(from);
      } else {
        return;
      }
      if realAddr.None? || IsLocalNetwork(from) || !IsLocalNetwork(realAddr.value) {
        realAddr := Some(from);
      }
      if ack == 0 { ack := 1; }
      if heartbeatAck != 0 {
        var changed := UpdateState(CONNECTED, now);
        if changed { actions := SendDelayMessage(); }
      }
    }

    method SendHeartbeatMessage() returns (actions: seq<Action>)
      ensures actions == Heartbeats(Abs())
    {
      actions := [];
      if realAddr.Some? && state == CONNECTED {
        actions := actions + [SendHeartbeat(realAddr.value, ack)];
      }
      if wide.Some? && state == CONNECTING {
        actions := actions + [SendHeartbeat(wide.value, ack)];
      }
      if local.Some? && (state == PREPARING || state == SYNCHRONIZING || state == CONNECTING) {
        actions := actions + [SendHeartbeat(local.value, ack)];
      }
    }

    method SendDelayMessage() returns (actions: seq<Action>)
      ensures actions == Delay(Abs())
    {
      actions := if realAddr.Some? then [SendDelay(realAddr.value)] else [];
    }
  }
}
