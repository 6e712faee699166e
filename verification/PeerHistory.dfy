/** What a peer knows, in terms of what has happened to it: its addresses, its activity time and its counters. */
module PeerHistory {
  import opened Prelude
  import opened PeerModel
  import opened PeerTheorems

  /** 10/8, 172.16/12, 192.168/16, 169.254/16 and 239.255/16. */
  lemma LocalRanges(a: SocketAddr)
    ensures var o1, o2 := a.ip / 0x100_0000, a.ip / 0x1_0000 % 0x100;
            IsLocalNetwork(a) <==> || o1 == 10 || (o1 == 172 && 16 <= o2 < 32) || (o1 == 192 && o2 == 168)
                                   || (o1 == 169 && o2 == 254) || (o1 == 239 && o2 == 255)
  {
    assert a.ip / 0x1_0000 == a.ip / 0x100_0000 * 0x100 + a.ip / 0x1_0000 % 0x100;
  }

  // ---- single steps ----

  /** A transition to INIT, WAITING or FAILED forgets everything. */
  lemma ResetsForget(p: Peer, e: Event)
    requires Step(p, e).state != p.state && Step(p, e).state in {INIT, WAITING, FAILED}
    ensures var q := Step(p, e);
            q.wideAddr == None && q.localAddr == None && q.realAddr == None && q.ack == 0 && q.rtt == 0x7FFF_FFFF
  {}

  /** A request to connect starts from INIT, and from FAILED if it is to try again. */
  lemma RequestsStart(p: Peer, retryFailed: bool, now: Time)
    ensures var q := AfterTryConnect(p, retryFailed, now);
            && (q.state != p.state <==> p.state == INIT || (p.state == FAILED && retryFailed))
            && (q.state == p.state ==> q == p) && (q.state != p.state ==> q.state == PREPARING)
  {}

  /** An address published by the server brings any peer that is not yet further on to PREPARING or CONNECTING. */
  lemma AnnouncementsAdvance(p: Peer, a: SocketAddr, now: Time)
    ensures var q := AfterPubInfo(p, a, false, now);
            && (q.state == CONNECTING <==> p.state in {SYNCHRONIZING, CONNECTING})
            && (q.state == PREPARING <==> p.state in {INIT, PREPARING, WAITING, FAILED})
            && (q.state == CONNECTED <==> p.state == CONNECTED)
    ensures AfterPubInfo(p, a, true, now) == p.(localAddr := Some(a))
  {}

  /** A heartbeat connects exactly if it acknowledges and is not to be ignored. */
  lemma HeartbeatsConnect(p: Peer, from: SocketAddr, ack: nat, localDisabled: bool, now: Time)
    ensures var q := AfterHeartbeat(p, from, ack, localDisabled, now);
            var ignored := p.state in {INIT, WAITING, FAILED} || (IsLocalNetwork(from) && localDisabled);
            && (ignored ==> q == p)
            && (!ignored ==> q.state == (if ack > 0 then CONNECTED else p.state) && q.ack > 0 && q.realAddr.Some?)
  {}

  // ---- histories ----

  /** Step i ends in a reset. */
  predicate ResetAt(run: seq<Peer>, i: nat)
    requires i + 1 < |run|
  {
    run[i + 1].state != run[i].state && run[i + 1].state in {INIT, WAITING, FAILED}
  }

  /** A heartbeat that the peer processes. */
  predicate HeardBy(p: Peer, e: Event) {
    && e.Heartbeat? && p.state !in {INIT, WAITING, FAILED}
    && !(IsLocalNetwork(e.from) && e.localDisabled)
  }

  predicate HeardAt(run: seq<Peer>, events: seq<Event>, i: nat)
    requires i < |events| && i < |run|
  {
    HeardBy(run[i], events[i])
  }

  function LastWide(run: seq<Peer>, events: seq<Event>, n: nat): Option<SocketAddr>
    requires n <= |events| && |run| == |events| + 1
  {
    if n == 0 || ResetAt(run, n - 1) then None
    else if events[n - 1].PubInfo? && !events[n - 1].local then Some(events[n - 1].from)
    else if HeardAt(run, events, n - 1) && !IsLocalNetwork(events[n - 1].from) then Some(events[n - 1].from)
    else LastWide(run, events, n - 1)
  }

  function LastLocal(run: seq<Peer>, events: seq<Event>, n: nat): Option<SocketAddr>
    requires n <= |events| && |run| == |events| + 1
  {
    if n == 0 || ResetAt(run, n - 1) then None
    else if events[n - 1].PubInfo? && events[n - 1].local then Some(events[n - 1].from)
    else if HeardAt(run, events, n - 1) && IsLocalNetwork(events[n - 1].from) then Some(events[n - 1].from)
    else LastLocal(run, events, n - 1)
  }

  /** The source of the last heartbeat, except that a local one is given up for a local one only. */
  function LastReal(run: seq<Peer>, events: seq<Event>, n: nat): Option<SocketAddr>
    requires n <= |events| && |run| == |events| + 1
  {
    if n == 0 || ResetAt(run, n - 1) then None
    else
      var before := LastReal(run, events, n - 1);
      if HeardAt(run, events, n - 1)
         && !(before.Some? && IsLocalNetwork(before.value) && !IsLocalNetwork(events[n - 1].from))
      then Some(events[n - 1].from) else before
  }

  /** The time of the last transition, acknowledging heartbeat, or address published while preparing. */
  function LastActivity(run: seq<Peer>, events: seq<Event>, n: nat): Time
    requires n <= |events| && |run| == |events| + 1
  {
    if n == 0 then 0
    else if run[n].state != run[n - 1].state || (HeardAt(run, events, n - 1) && events[n - 1].ack > 0)
            || (run[n - 1].state == PREPARING && events[n - 1].PubInfo? && !events[n - 1].local)
    then events[n - 1].now
    else LastActivity(run, events, n - 1)
  }

  function Ticks(events: seq<Event>, n: nat): nat
    requires n <= |events|
  {
    if n == 0 then 0 else Ticks(events, n - 1) + (if events[n - 1].Tick? then 1 else 0)
  }

  lemma StepWide(p: Peer, e: Event)
    ensures var q := Step(p, e);
            q.wideAddr == if q.state != p.state && q.state in {INIT, WAITING, FAILED} then None
                          else if e.PubInfo? && !e.local then Some(e.from)
                          else if HeardBy(p, e) && !IsLocalNetwork(e.from) then Some(e.from) else p.wideAddr
  {
    hide IsLocalNetwork;
  }

  lemma StepLocal(p: Peer, e: Event)
    ensures var q := Step(p, e);
            q.localAddr == if q.state != p.state && q.state in {INIT, WAITING, FAILED} then None
                           else if e.PubInfo? && e.local then Some(e.from)
                           else if HeardBy(p, e) && IsLocalNetwork(e.from) then Some(e.from) else p.localAddr
  {
    hide IsLocalNetwork;
  }

  lemma StepReal(p: Peer, e: Event)
    ensures var q := Step(p, e);
            q.realAddr == if q.state != p.state && q.state in {INIT, WAITING, FAILED} then None
                          else if HeardBy(p, e) && !(p.realAddr.Some? && IsLocalNetwork(p.realAddr.value)
                                                     && !IsLocalNetwork(e.from))
                          then Some(e.from) else p.realAddr
  {
    hide IsLocalNetwork;
  }

  /** In every run a peer's addresses are the ones last learnt since its last reset, each in its own way. */
  lemma {:induction false} AddressesLearnt(run: seq<Peer>, events: seq<Event>, n: nat)
    requires IsRun(run, events) && n < |run|
    ensures run[n].wideAddr == LastWide(run, events, n)
    ensures run[n].localAddr == LastLocal(run, events, n)
    ensures run[n].realAddr == LastReal(run, events, n)
  {
    hide Step, IsLocalNetwork;
    if n > 0 {
      AddressesLearnt(run, events, n - 1);
      StepWide(run[n - 1], events[n - 1]);
      StepLocal(run[n - 1], events[n - 1]);
      StepReal(run[n - 1], events[n - 1]);
    }
  }

  lemma StepActivity(p: Peer, e: Event)
    ensures var q := Step(p, e);
            q.lastActive == if q.state != p.state || (HeardBy(p, e) && e.ack > 0)
                               || (p.state == PREPARING && e.PubInfo? && !e.local)
                            then e.now else p.lastActive
  {
    hide IsLocalNetwork;
  }

  /** And its activity time is that of the last event that counts. */
  lemma {:induction false} ActivityExactly(run: seq<Peer>, events: seq<Event>, n: nat)
    requires IsRun(run, events) && n < |run|
    ensures run[n].lastActive == LastActivity(run, events, n)
  {
    hide Step, HeardBy;
    if n > 0 {
      ActivityExactly(run, events, n - 1);
      StepActivity(run[n - 1], events[n - 1]);
    }
  }

  lemma StepTicks(p: Peer, e: Event)
    ensures Step(p, e).tickCount == (p.tickCount + (if e.Tick? then 1 else 0)) % 0x1_0000_0000
    ensures p.rtt == RTT_LIMIT ==> Step(p, e).rtt == RTT_LIMIT
  {
    hide IsLocalNetwork;
  }

  lemma AddMod(a: nat, k: nat)
    ensures (a % 0x1_0000_0000 + k) % 0x1_0000_0000 == (a + k) % 0x1_0000_0000
  {}

  /** Ticks are counted modulo 2^32, and nothing but the echo of a probe sets the delay. */
  lemma {:induction false} TicksCounted(run: seq<Peer>, events: seq<Event>, n: nat)
    requires IsRun(run, events) && n < |run|
    ensures run[n].tickCount == (run[0].tickCount + Ticks(events, n)) % 0x1_0000_0000
    ensures run[n].rtt == 0x7FFF_FFFF
  {
    hide Step;
    if n > 0 {
      TicksCounted(run, events, n - 1);
      StepTicks(run[n - 1], events[n - 1]);
      AddMod(run[0].tickCount + Ticks(events, n - 1), if events[n - 1].Tick? then 1 else 0);
    }
  }

  /** A peer stays CONNECTED as long as at every tick the last acknowledging heartbeat is less than 3 s old. */
  lemma {:induction false} StaysConnected(run: seq<Peer>, events: seq<Event>, i: nat, n: nat)
    requires IsRun(run, events) && i <= n < |run| && run[i].state == CONNECTED
    requires forall j :: i <= j < n && events[j].Tick? ==> events[j].now - LastActivity(run, events, j) < 3 * SECOND
    ensures run[n].state == CONNECTED
  {
    hide LastActivity, Step;
    if i < n {
      StaysConnected(run, events, i, n - 1);
      ActivityExactly(run, events, n - 1);
      ConnectedExitsOnTimeout(run[n - 1], events[n - 1]);
    }
  }
}
