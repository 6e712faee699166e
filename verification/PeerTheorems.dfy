/** What holds of a peer's state machine in every run. */
module PeerTheorems {
  import opened Prelude
  import opened PeerModel

  // ---- invariants ----

  ghost predicate Inv(p: Peer) {
    && p.ack <= 1
    && (Resets(p.state) ==> p.wideAddr.None? && p.realAddr.None? && p.ack == 0)
    && (p.state == CONNECTED ==> p.realAddr.Some? && p.ack == 1)
    && (p.realAddr.Some? <==> p.ack == 1)
    && RETRY_MIN <= p.retry <= RETRY_MAX
  }

  lemma StepInv(p: Peer, e: Event)
    requires Inv(p)
    ensures Inv(Step(p, e))
  {}

  /**
   * In INIT, WAITING and FAILED the peer has no wide and no real address and acknowledges nothing; in
   * CONNECTED it has a real address and acknowledges; elsewhere it acknowledges exactly when it has a real
   * address; and its back-off stays within its bounds.
   */
  lemma {:induction false} AddressesMatchState(run: seq<Peer>, events: seq<Event>, i: nat)
    requires IsRun(run, events) && i < |run|
    ensures Inv(run[i])
  {
    if i > 0 {
      AddressesMatchState(run, events, i - 1);
      StepInv(run[i - 1], events[i - 1]);
    }
  }

  /** The complete transition diagram. */
  predicate Edge(from: PeerState, to: PeerState) {
    match from
    case INIT => to == PREPARING
    case PREPARING => to == SYNCHRONIZING || to == CONNECTING || to == CONNECTED || to == FAILED
    case SYNCHRONIZING => to == CONNECTING || to == CONNECTED || to == FAILED
    case CONNECTING => to == CONNECTED || to == WAITING
    case CONNECTED => to == INIT
    case WAITING => to == INIT || to == PREPARING
    case FAILED => to == PREPARING
  }

  lemma TransitionsFollowDiagram(p: Peer, e: Event)
    ensures Step(p, e).state == p.state || Edge(p.state, Step(p, e).state)
  {}

  const LATE: Time := (RETRY_MAX + 1) * SECOND

  lemma Extend(run: seq<Peer>, events: seq<Event>, e: Event) returns (run': seq<Peer>, events': seq<Event>)
    requires IsRun(run, events)
    ensures IsRun(run', events') && events' == events + [e] && run' == run + [Step(run[|events|], e)]
  {
    run', events' := run + [Step(run[|events|], e)], events + [e];
    assert run'[0] == run[0];
  }

  function StepsTo(s: PeerState): nat {
    match s
    case INIT => 0
    case PREPARING => 1
    case WAITING => 4
    case CONNECTING => 3
    case _ => 2
  }

  /** A run that ends in the state, with nothing active after LATE. */
  lemma {:induction false} RunTo(s: PeerState) returns (run: seq<Peer>, events: seq<Event>)
    ensures IsRun(run, events)
    ensures var p := run[|events|]; p.state == s && 0 <= p.lastActive <= LATE && p.retry <= RETRY_MAX
    ensures s != WAITING && s != FAILED ==> run[|events|].lastActive == 0
    ensures s == INIT || s == PREPARING ==> run[|events|].wideAddr == None
    decreases StepsTo(s)
  {
    var a := SocketAddr(0, 0);
    if s == INIT {
      run, events := [Fresh(0)], [];
      assert run[0] == Fresh(0);
    } else {
      var before :=
        if s == PREPARING then INIT else if s == CONNECTING then SYNCHRONIZING
        else if s == WAITING then CONNECTING else PREPARING;
      var e :=
        if s == PREPARING then TryConnect(false, 0) else if s == SYNCHRONIZING then StunResponse(0)
        else if s == CONNECTING then PubInfo(a, false, 0) else if s == CONNECTED then Heartbeat(a, 1, false, 0)
        else Tick(true, LATE);
      run, events := RunTo(before);
      run, events := Extend(run, events, e);
    }
  }

  /** Every edge of the diagram is the last step of some run. */
  lemma {:induction false} DiagramIsTight(from: PeerState, to: PeerState) returns (run: seq<Peer>, events: seq<Event>)
    requires Edge(from, to)
    ensures IsRun(run, events) && |events| > 0
    ensures run[|events| - 1].state == from && run[|events|].state == to
  {
    var a := SocketAddr(0, 0);
    var e :=
      if to == PREPARING then PubInfo(a, false, 0)
      else if to == SYNCHRONIZING then StunResponse(0)
      else if to == CONNECTED then Heartbeat(a, 1, false, 0)
      else if to == CONNECTING && from == SYNCHRONIZING then PubInfo(a, false, 0)
      else if to == CONNECTING then StunResponse(0)
      else Tick(true, 3 * LATE);
    run, events := RunTo(from);
    if to == CONNECTING && from == PREPARING {
      run, events := Extend(run, events, PubInfo(a, false, 0));
    }
    run, events := Extend(run, events, e);
  }

  /** The only exit from CONNECTED is a tick at least 3 s after the last acknowledged heartbeat. */
  lemma ConnectedExitsOnTimeout(p: Peer, e: Event)
    requires p.state == CONNECTED
    ensures Step(p, e).state != CONNECTED <==> e.Tick? && e.now - p.lastActive >= 3 * SECOND
    ensures Step(p, e).state != CONNECTED ==> Step(p, e).state == INIT
  {}

  /** The other time limits. WAITING is left for INIT exactly by a tick `retry` seconds or more after it was entered. */
  lemma TimeoutsExactly(p: Peer, e: Event)
    ensures p.state == WAITING ==> (Step(p, e).state == INIT <==> e.Tick? && e.now - p.lastActive >= p.retry * SECOND)
    ensures p.state == CONNECTING ==> (Step(p, e).state == WAITING <==> e.Tick? && e.now - p.lastActive >= 10 * SECOND)
    ensures p.state == SYNCHRONIZING ==>
              (Step(p, e).state == FAILED <==> e.Tick? && e.now - p.lastActive >= 10 * SECOND)
    ensures p.state == PREPARING ==>
              (Step(p, e).state == FAILED <==> e.Tick? && (!e.stunEnabled || e.now - p.lastActive >= 10 * SECOND))
  {}

  /** In WAITING nothing counts as activity but entering it, which a tick does. */
  lemma {:induction false} WaitingSince(run: seq<Peer>, events: seq<Event>, i: nat, j: nat)
    requires IsRun(run, events) && 0 < i <= j < |run| && run[i - 1].state != WAITING
    requires forall m :: i <= m <= j ==> run[m].state == WAITING
    ensures events[i - 1].Tick? && run[j].lastActive == events[i - 1].now
  {
    if i < j {
      WaitingSince(run, events, i, j - 1);
      assert run[j] == Step(run[j - 1], events[j - 1]);
    } else {
      assert run[i] == Step(run[i - 1], events[i - 1]);
    }
  }

  /** The back-off is waited: from entering WAITING to going back to INIT at least min(30 * 2^k, 3600) seconds pass. */
  lemma {:induction false} BackoffWaited(run: seq<Peer>, events: seq<Event>, i: nat, j: nat)
    requires IsRun(run, events) && 0 < i <= j < |events| && run[i - 1].state != WAITING
    requires forall m :: i <= m <= j ==> run[m].state == WAITING
    requires run[j + 1].state == INIT
    ensures events[i - 1].Tick? && events[j].Tick?
    ensures events[j].now - events[i - 1].now >= Min(30 * Pow2(Backoffs(run, j)), 3600) * SECOND
  {
    WaitingSince(run, events, i, j);
    RetryIsExponential(run, events, j);
    assert run[j + 1] == Step(run[j], events[j]);
    TimeoutsExactly(run[j], events[j]);
  }

  // ---- what brings a connection about ----

  /** A STUN response takes PREPARING on, to CONNECTING exactly if its wide address is known, and no other state. */
  lemma StunResponseExactly(p: Peer, now: Time)
    ensures AfterStunResponse(p, now).state ==
            if p.state == PREPARING then (if p.wideAddr.Some? then CONNECTING else SYNCHRONIZING) else p.state
    ensures p.state != PREPARING ==> AfterStunResponse(p, now) == p
  {}

  /** Where heartbeats go: to the real address once connected, else to the local and in CONNECTING to the wide one. */
  lemma HeartbeatsReach(p: Peer, a: SocketAddr)
    ensures a in HeartbeatTargets(p) <==>
            || (p.state == CONNECTED && p.realAddr == Some(a))
            || (p.state == CONNECTING && p.wideAddr == Some(a))
            || (p.state in {PREPARING, SYNCHRONIZING, CONNECTING} && p.localAddr == Some(a))
  {}

  /** A tick sends heartbeats exactly in the states that know somebody to reach, within the state's time limit. */
  lemma TickSends(p: Peer, stunEnabled: bool, relay: bool, now: Time, x: Action)
    ensures var acts := TickActions(p, stunEnabled, relay, now);
            match x
            case SendHeartbeat(a, ack) =>
              x in acts <==>
              && ack == p.ack && a in HeartbeatTargets(p)
              && (|| (p.state in {SYNCHRONIZING, CONNECTING} && now - p.lastActive < 10 * SECOND)
                  || (p.state == CONNECTED && now - p.lastActive < 3 * SECOND))
            case SendDelay(a) =>
              x in acts <==> && relay && p.state == CONNECTED && now - p.lastActive < 3 * SECOND
                             && p.tickCount % 60 == 0 && p.realAddr == Some(a)
            case NeedStun => x in acts <==> p.state == PREPARING && stunEnabled && now - p.lastActive < 10 * SECOND
            case RouteLost => x in acts <==> relay && p.state == CONNECTED && now - p.lastActive >= 3 * SECOND
            case SendPubInfo(_) => x !in acts
  {
    var to := HeartbeatTargets(p);
    if x.SendHeartbeat? && x.ack == p.ack && x.to in to {
      var i :| 0 <= i < |to| && to[i] == x.to;
      assert Heartbeats(p)[i] == x;
    }
  }

  // ---- the real address prefers the local network ----

  ghost predicate OnLan(p: Peer) { p.realAddr.Some? && IsLocalNetwork(p.realAddr.value) }

  lemma StepKeepsLan(p: Peer, e: Event)
    requires OnLan(p)
    ensures OnLan(Step(p, e)) || (Step(p, e).state != p.state && Resets(Step(p, e).state))
  {}

  /** Once the real address is on the local network it stays there until a transition that resets the peer. */
  lemma {:induction false} LanAddressSticks(run: seq<Peer>, events: seq<Event>, i: nat, j: nat)
    requires IsRun(run, events) && i <= j < |run| && OnLan(run[i])
    requires forall m :: i < m <= j ==> run[m].state == run[m - 1].state || !Resets(run[m].state)
    ensures OnLan(run[j])
  {
    if i < j {
      LanAddressSticks(run, events, i, j - 1);
      StepKeepsLan(run[j - 1], events[j - 1]);
    }
  }

  // ---- back-off ----

  /** WAITING-to-INIT transitions in the first `i` steps, counted from the last one that resets the back-off. */
  function Backoffs(run: seq<Peer>, i: nat): nat
    requires i < |run|
  {
    if i == 0 || run[i].state == run[i - 1].state then (if i == 0 then 0 else Backoffs(run, i - 1))
    else if run[i - 1].state == WAITING && run[i].state == INIT then Backoffs(run, i - 1) + 1
    else if run[i].state == INIT || run[i].state == FAILED then 0
    else Backoffs(run, i - 1)
  }

  lemma StepRetry(p: Peer, e: Event)
    ensures Step(p, e).retry == if Step(p, e).state == p.state then p.retry
                                else NextRetry(p.state, Step(p, e).state, p.retry)
  {}

  /** The wait after k failed rounds is min(30 * 2^k, 3600) seconds. */
  lemma {:induction false} RetryIsExponential(run: seq<Peer>, events: seq<Event>, i: nat)
    requires IsRun(run, events) && i < |run|
    ensures run[i].retry == Min(30 * Pow2(Backoffs(run, i)), 3600)
  {
    if i > 0 {
      RetryIsExponential(run, events, i - 1);
      StepRetry(run[i - 1], events[i - 1]);
    }
  }

  // ---- quiescence ----

  /** A run of ticks alone, at least a second apart, the first not before the peer's last activity. */
  ghost predicate TicksOnly(run: seq<Peer>, ticks: seq<Event>) {
    && |run| == |ticks| + 1
    && (forall i :: 0 <= i < |ticks| ==> ticks[i].Tick? && run[i + 1] == Step(run[i], ticks[i]))
    && (|ticks| > 0 ==> ticks[0].now >= run[0].lastActive)
    && (forall i :: 0 < i < |ticks| ==> ticks[i].now >= ticks[i - 1].now + SECOND)
  }

  predicate AtRest(p: Peer) { p.state == INIT || p.state == FAILED }

  /** Whole seconds, rounded up, until `due`; none if it has passed. */
  function SecondsUntil(due: Time, now: Time): nat { if due <= now then 0 else (due - now + SECOND - 1) / SECOND }

  /** The ticks still needed if the next one comes at `next` or later. */
  function TicksToRest(p: Peer, next: Time): nat
    requires p.retry >= 0
  {
    match p.state
    case INIT => 0
    case FAILED => 0
    case PREPARING => SecondsUntil(p.lastActive + ACTIVE_WINDOW, next) + 1
    case SYNCHRONIZING => SecondsUntil(p.lastActive + ACTIVE_WINDOW, next) + 1
    case CONNECTED => SecondsUntil(p.lastActive + CONNECTED_WINDOW, next) + 1
    case WAITING => SecondsUntil(p.lastActive + p.retry * SECOND, next) + 1
    case CONNECTING => SecondsUntil(p.lastActive + ACTIVE_WINDOW, next) + 1 + p.retry
  }

  lemma SecondsPass(due: Time, now: Time, next: Time)
    requires next >= now + SECOND
    ensures now < due ==> SecondsUntil(due, next) + 1 <= SecondsUntil(due, now)
    ensures SecondsUntil(due, next) <= SecondsUntil(due, now)
  {}

  /** Each tick before rest uses up at least one. */
  lemma TickMakesProgress(p: Peer, stunEnabled: bool, now: Time)
    requires !AtRest(p) && p.retry >= 1
    ensures var p' := AfterTick(p, stunEnabled, now);
            p'.retry >= 1 && (AtRest(p') || TicksToRest(p', now + SECOND) + 1 <= TicksToRest(p, now))
  {
    SecondsPass(p.lastActive + ACTIVE_WINDOW, now, now + SECOND);
    SecondsPass(p.lastActive + CONNECTED_WINDOW, now, now + SECOND);
    SecondsPass(p.lastActive + p.retry * SECOND, now, now + SECOND);
    assert SecondsUntil(now + p.retry * SECOND, now + SECOND) == p.retry - 1;
  }

  lemma TicksToRestAntitone(p: Peer, now: Time, later: Time)
    requires p.retry >= 0 && now <= later
    ensures TicksToRest(p, later) <= TicksToRest(p, now)
  {}

  lemma AtRestStays(p: Peer, stunEnabled: bool, now: Time)
    requires AtRest(p)
    ensures AfterTick(p, stunEnabled, now).state == p.state && AfterTick(p, stunEnabled, now).retry == p.retry
  {}

  lemma {:induction false} TicksCountDown(run: seq<Peer>, ticks: seq<Event>, i: nat)
    requires TicksOnly(run, ticks) && 0 < i < |run| && run[0].retry >= 1
    ensures run[i].retry >= 1
    ensures AtRest(run[i]) || TicksToRest(run[i], ticks[i - 1].now + SECOND) + i <= TicksToRest(run[0], ticks[0].now)
    ensures AtRest(run[i - 1]) ==> AtRest(run[i])
  {
    hide AfterTick, TicksToRest;
    var p, t := run[i - 1], ticks[i - 1];
    if i > 1 {
      TicksCountDown(run, ticks, i - 1);
      TicksToRestAntitone(p, ticks[i - 2].now + SECOND, t.now);
    }
    if AtRest(p) {
      AtRestStays(p, t.stunEnabled, t.now);
    } else {
      TickMakesProgress(p, t.stunEnabled, t.now);
    }
  }

  /** Left alone, any peer in any state is in INIT or FAILED after 11 + retry ticks, and stays there. */
  lemma Quiescence(run: seq<Peer>, ticks: seq<Event>, i: nat)
    requires TicksOnly(run, ticks) && Inv(run[0]) && i < |run|
    requires i >= 11 + run[0].retry
    ensures AtRest(run[i])
    ensures i > 11 + run[0].retry ==> run[i].state == run[i - 1].state
    ensures 11 + run[0].retry <= 3611
  {
    TicksCountDown(run, ticks, i);
    if i > 11 + run[0].retry {
      TicksCountDown(run, ticks, i - 1);
      AtRestStays(run[i - 1], ticks[i - 1].stunEnabled, ticks[i - 1].now);
    }
  }
}
