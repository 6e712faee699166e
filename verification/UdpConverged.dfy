/**
 * UDP in converged mode: NetStack's session table with its own ageing next to UdpMux. No fd belongs to a
 * session here, so nothing tells the mux that a session is gone; the two tables agree because of their
 * time limits and the order of reaping.
 */
module UdpConverged {
  import opened Prelude
  import opened Stun
  import opened UdpModel
  import opened UdpMuxes

  const REAP_PERIOD: Time := 10 * SECOND
  const SESSION_IDLE: Time := 60 * SECOND

  datatype Session = Session(pcb: bool, lastActive: Time)

  type Sessions = map<Source, Session>

  /** `mux` is absent until the first datagram. */
  datatype Net = Net(sessions: Sessions, mux: Option<Mux>, lastReap: Time)

  /** The readings of the steady clock that one loop iteration takes, in the order it takes them. */
  datatype Clock = Clock(session: Time, active: Time, mux: Time, loop: Time, reapSessions: Time, reapMux: Time)

  const LAG: Time := 20 * SECOND

  /** Readings do not decrease, and a datagram passes from its session to the mux within 20 s. */
  ghost predicate Orderly(c: Clock) {
    c.session <= c.active <= c.mux <= c.loop <= c.reapSessions <= c.reapMux && c.mux <= c.active + LAG
  }

  datatype Task =
    | Nothing
    | FromLwip(src: Source, ip: U32, port: U16, data: Bytes, startOk: bool)
    | FromFd(ip: U32, port: U16, data: Bytes)

  // ---- one task ----

  /** onUdpRecv, for the first datagram of a source: creates the mux if need be, then the session. */
  function AfterFirst(n: Net, src: Source, startOk: bool, c: Clock): Net {
    if n.mux.None? && !startOk then n
    else n.(mux := Some(if n.mux.Some? then n.mux.value else Empty()),
            sessions := n.sessions[src := Session(true, c.session)])
  }

  /** onPcbRecv of an existing session. */
  function AfterPcbRecv(n: Net, src: Source, k: nat, info: Option<StunInfo>, c: Clock): Net
    requires src in n.sessions
  {
    n.(sessions := n.sessions[src := n.sessions[src].(lastActive := c.active)],
       mux := if n.mux.Some? then Some(AfterSend(n.mux.value, src, k, info, c.mux)) else None)
  }

  function AfterFromLwip(n: Net, src: Source, k: nat, info: Option<StunInfo>, startOk: bool, c: Clock): Net {
    var n1 := if src in n.sessions then n else AfterFirst(n, src, startOk, c);
    if src in n1.sessions then AfterPcbRecv(n1, src, k, info, c) else n1
  }

  /** Demux by the mux, then injectUdpReply and replyToLwip. */
  function AfterFromFd(n: Net, k: nat, info: Option<StunInfo>, c: Clock): Net {
    if n.mux.None? then n
    else
      var to := Receiver(n.mux.value, k, info);
      n.(mux := Some(AfterDemux(n.mux.value, k, info, c.active)),
         sessions := if to.Some? && Injects(n, to.value)
                     then n.sessions[to.value := n.sessions[to.value].(lastActive := c.mux)] else n.sessions)
  }

  /** The reply reaches lwIP: the source has a session and its pcb lives. */
  predicate Injects(n: Net, s: Source) { s in n.sessions && n.sessions[s].pcb }

  function LiveSessions(sessions: Sessions, now: Time): Sessions {
    map s | s in sessions && now - sessions[s].lastActive <= SESSION_IDLE :: sessions[s]
  }

  function AfterTask(n: Net, t: Task, c: Clock): Net {
    match t
    case Nothing => n
    case FromLwip(src, ip, port, data, startOk) =>
      AfterFromLwip(n, src, EndpointKey(ip, port), StunParse(data), startOk, c)
    case FromFd(ip, port, data) => AfterFromFd(n, EndpointKey(ip, port), StunParse(data), c)
  }

  function AfterLoopReap(n: Net, c: Clock): Net {
    if c.loop - n.lastReap < REAP_PERIOD then n
    else Net(LiveSessions(n.sessions, c.reapSessions),
             if n.mux.Some? then Some(AfterReap(n.mux.value, c.reapMux)) else None,
             c.loop)
  }

  function AfterIteration(n: Net, t: Task, c: Clock): Net { AfterLoopReap(AfterTask(n, t, c), c) }

  // ---- the theorem ----

  /** Everyone the mux may name has a live session, last active at most LAG before what the mux recorded. */
  ghost predicate Covered(n: Net) {
    && (forall s :: s in n.sessions ==> n.sessions[s].pcb)
    && (n.mux.Some? ==>
         var m := n.mux.value;
         && IsInverse(m.endpointOwner, m.ownerEndpoints)
         && (forall k :: k in m.endpointOwner ==>
               m.endpointOwner[k].owner in n.sessions
               && m.endpointOwner[k].lastActive <= n.sessions[m.endpointOwner[k].owner].lastActive + LAG)
         && (forall t :: t in m.stunTxn ==>
               m.stunTxn[t].innerSrc in n.sessions
               && m.stunTxn[t].createdAt <= n.sessions[m.stunTxn[t].innerSrc].lastActive + LAG))
  }

  /** No session claims to have been active after `now`. */
  ghost predicate Before(n: Net, now: Time) { forall s :: s in n.sessions ==> n.sessions[s].lastActive <= now }

  lemma FromLwipCovered(n: Net, src: Source, k: nat, info: Option<StunInfo>, startOk: bool, c: Clock)
    requires Covered(n) && Orderly(c) && Before(n, c.session)
    ensures var n' := AfterFromLwip(n, src, k, info, startOk, c); Covered(n') && Before(n', c.loop)
  {
    var n1 := if src in n.sessions then n else AfterFirst(n, src, startOk, c);
    assert Covered(n1);
    if src in n1.sessions { PcbRecvCovered(n1, src, k, info, c); }
  }

  lemma PcbRecvCovered(n: Net, src: Source, k: nat, info: Option<StunInfo>, c: Clock)
    requires Covered(n) && Orderly(c) && Before(n, c.session) && src in n.sessions
    ensures var n' := AfterPcbRecv(n, src, k, info, c); Covered(n') && Before(n', c.loop)
  {
    hide IsInverse, AfterSend;
    if n.mux.Some? {
      SendInverse(n.mux.value, src, k, info, c.mux);
      SendAddsOwn(n.mux.value, src, k, info, c.mux);
    }
  }

  lemma FromFdCovered(n: Net, k: nat, info: Option<StunInfo>, c: Clock)
    requires Covered(n) && Orderly(c) && Before(n, c.session)
    ensures var n' := AfterFromFd(n, k, info, c); Covered(n') && Before(n', c.loop)
  {}

  lemma LoopReapCovered(n: Net, c: Clock)
    requires Covered(n) && Orderly(c) && Before(n, c.loop)
    ensures Covered(AfterLoopReap(n, c)) && Before(AfterLoopReap(n, c), c.reapMux)
  {
    if n.mux.Some? { InverseIsInverse(FreshOwners(n.mux.value.endpointOwner, c.reapMux)); }
  }

  lemma TaskCovered(n: Net, t: Task, c: Clock)
    requires Covered(n) && Orderly(c) && Before(n, c.session)
    ensures Covered(AfterTask(n, t, c)) && Before(AfterTask(n, t, c), c.loop)
  {
    match t
    case Nothing =>
    case FromLwip(src, ip, port, data, startOk) =>
      FromLwipCovered(n, src, EndpointKey(ip, port), StunParse(data), startOk, c);
    case FromFd(ip, port, data) => FromFdCovered(n, EndpointKey(ip, port), StunParse(data), c);
  }

  lemma IterationCovered(n: Net, t: Task, c: Clock)
    requires Covered(n) && Orderly(c) && Before(n, c.session)
    ensures Covered(AfterIteration(n, t, c)) && Before(AfterIteration(n, t, c), c.reapMux)
  {
    TaskCovered(n, t, c);
    LoopReapCovered(AfterTask(n, t, c), c);
  }

  /** The loop of one stack life: it starts empty, one task per iteration, one clock throughout. */
  ghost predicate IsLoopRun(run: seq<Net>, tasks: seq<Task>, clocks: seq<Clock>, start: Time) {
    && |run| == |tasks| + 1 && |clocks| == |tasks|
    && run[0] == Net(map[], None, start)
    && (forall i :: 0 <= i < |tasks| ==>
          Orderly(clocks[i]) && run[i + 1] == AfterIteration(run[i], tasks[i], clocks[i]))
    && (forall i :: 0 < i < |clocks| ==> clocks[i - 1].reapMux <= clocks[i].session)
  }

  /** The next iteration's clock may follow a run. */
  ghost predicate Follows(clocks: seq<Clock>, c: Clock) {
    Orderly(c) && (clocks != [] ==> clocks[|clocks| - 1].reapMux <= c.session)
  }

  lemma LoopRunExtends(run: seq<Net>, tasks: seq<Task>, clocks: seq<Clock>, start: Time, t: Task, c: Clock)
    requires IsLoopRun(run, tasks, clocks, start) && Follows(clocks, c)
    ensures IsLoopRun(run + [AfterIteration(run[|tasks|], t, c)], tasks + [t], clocks + [c], start)
  {
    hide AfterIteration, Orderly;
  }

  lemma {:induction false} RunCovered(run: seq<Net>, tasks: seq<Task>, clocks: seq<Clock>, start: Time, i: nat)
    requires IsLoopRun(run, tasks, clocks, start) && i < |run|
    ensures Covered(run[i])
    ensures i < |clocks| ==> Before(run[i], clocks[i].session)
    ensures i == |clocks| && i > 0 ==> Before(run[i], clocks[i - 1].reapMux)
  {
    if i > 0 {
      RunCovered(run, tasks, clocks, start, i - 1);
      IterationCovered(run[i - 1], tasks[i - 1], clocks[i - 1]);
    }
  }

  /**
   * At every iteration boundary of every run, each endpoint owner and each source waiting for a STUN
   * response has a live session; so no datagram that the mux attributes to a source is lost on its way in.
   */
  lemma EveryReceiverLives(run: seq<Net>, tasks: seq<Task>, clocks: seq<Clock>, start: Time, i: nat)
    requires IsLoopRun(run, tasks, clocks, start) && i < |run| && run[i].mux.Some?
    ensures forall k :: k in run[i].mux.value.endpointOwner ==> Injects(run[i], run[i].mux.value.endpointOwner[k].owner)
    ensures forall t :: t in run[i].mux.value.stunTxn ==> Injects(run[i], run[i].mux.value.stunTxn[t].innerSrc)
    ensures forall k, info :: Receiver(run[i].mux.value, k, info).Some? ==>
              Injects(run[i], Receiver(run[i].mux.value, k, info).value)
  {
    RunCovered(run, tasks, clocks, start, i);
  }

  // ---- the code ----

  class NetStack {
    var udpSessions: Sessions
    var udpMux: UdpMux?
    var lastReap: Time

    // The run of the loop so far.
    ghost const start: Time
    ghost var tasks: seq<Task>
    ghost var clocks: seq<Clock>
    ghost var run: seq<Net>

    ghost predicate MuxValid()
      reads this, udpMux
    {
      udpMux != null ==> udpMux.Valid()
    }

    ghost predicate Valid()
      reads this, udpMux
    {
      MuxValid() && IsLoopRun(run, tasks, clocks, start) && run[|tasks|] == Abs()
    }

    ghost function Abs(): Net
      reads this, udpMux
    {
      Net(udpSessions, if udpMux == null then None else Some(udpMux.Abs()), lastReap)
    }

    constructor (now: Time)
      ensures Valid() && Abs() == Net(map[], None, now) && clocks == []
    {
      udpSessions, udpMux, lastReap := map[], null, now;
      start, tasks, clocks, run := now, [], [], [Net(map[], None, now)];
    }

    /** The datagram's first stop is onUdpRecv when lwIP has no pcb for its source yet. */
    method HandleFromLwip(src: Source, ip: U32, port: U16, data: Bytes, startOk: bool, c: Clock)
      requires MuxValid()
      modifies `udpSessions, `udpMux, udpMux
      ensures MuxValid() && (udpMux == old(udpMux) || fresh(udpMux))
      ensures Abs() == AfterFromLwip(old(Abs()), src, EndpointKey(ip, port), StunParse(data), startOk, c)
    {
      if src !in udpSessions {
        OnUdpRecv(src, startOk, c);
      }
      if src in udpSessions {
        OnPcbRecv(src, ip, port, data, c);
      }
    }

    method OnUdpRecv(src: Source, startOk: bool, c: Clock)
      requires MuxValid()
      modifies `udpSessions, `udpMux
      ensures MuxValid() && (udpMux == old(udpMux) || fresh(udpMux))
      ensures Abs() == AfterFirst(old(Abs()), src, startOk, c)
    {
      if udpMux == null {
        if !startOk { return; }
        udpMux := new UdpMux();
      }
      udpSessions := udpSessions[src := Session(true, c.session)];
    }

    method OnPcbRecv(src: Source, ip: U32, port: U16, data: Bytes, c: Clock)
      requires MuxValid() && src in udpSessions
      modifies `udpSessions, udpMux
      ensures MuxValid() && Abs() == AfterPcbRecv(old(Abs()), src, EndpointKey(ip, port), StunParse(data), c)
    {
      udpSessions := udpSessions[src := udpSessions[src].(lastActive := c.active)];
      if udpMux == null { return; }
      var _ := udpMux.SendFromSource(src, ip, port, data, c.mux);
    }

    /** A demux task posted by the reactor. */
    method HandleFromFd(ip: U32, port: U16, data: Bytes, c: Clock)
      requires MuxValid()
      modifies `udpSessions, `udpMux, udpMux
      ensures MuxValid() && udpMux == old(udpMux)
      ensures Abs() == AfterFromFd(old(Abs()), EndpointKey(ip, port), StunParse(data), c)
    {
      if udpMux == null { return; }
      var to := udpMux.Demux(ip, port, data, c.active);
      if to.Some? { InjectUdpReply(to.value, c.mux); }
    }

    method InjectUdpReply(innerSrc: Source, now: Time)
      modifies `udpSessions
      ensures udpSessions == if innerSrc in old(udpSessions) && old(udpSessions[innerSrc]).pcb
                             then old(udpSessions)[innerSrc := old(udpSessions[innerSrc]).(lastActive := now)]
                             else old(udpSessions)
    {
      if innerSrc !in udpSessions { return; }
      if !udpSessions[innerSrc].pcb { return; }
      udpSessions := udpSessions[innerSrc := udpSessions[innerSrc].(lastActive := now)];
    }

    method ReapIdleUdpSessions(now: Time)
      modifies `udpSessions
      ensures udpSessions == LiveSessions(old(udpSessions), now)
    {
      var todo := udpSessions.Keys;
      ghost var before := udpSessions;
      while todo != {}
        invariant todo <= udpSessions.Keys <= before.Keys
        invariant forall s :: s in udpSessions ==> udpSessions[s] == before[s]
        invariant forall s :: s in before && s !in todo ==>
                    (s in udpSessions <==> now - before[s].lastActive <= SESSION_IDLE)
        decreases todo
      {
        var s :| s in todo;
        if now - udpSessions[s].lastActive > SESSION_IDLE {
          udpSessions := udpSessions - {s};
        }
        todo := todo - {s};
      }
    }

    method RunTask(t: Task, c: Clock)
      requires MuxValid()
      modifies `udpSessions, `udpMux, udpMux
      ensures MuxValid() && (udpMux == old(udpMux) || fresh(udpMux))
      ensures Abs() == AfterTask(old(Abs()), t, c)
    {
      match t {
        case Nothing =>
        case FromLwip(src, ip, port, data, startOk) => HandleFromLwip(src, ip, port, data, startOk, c);
        case FromFd(ip, port, data) => HandleFromFd(ip, port, data, c);
      }
    }

    /** The end of the loop body. */
    method ReapIfDue(c: Clock)
      requires MuxValid()
      modifies `udpSessions, `lastReap, udpMux
      ensures MuxValid() && Abs() == AfterLoopReap(old(Abs()), c)
    {
      if c.loop - lastReap >= REAP_PERIOD {
        ReapIdleUdpSessions(c.reapSessions);
        if udpMux != null { udpMux.Reap(c.reapMux); }
        lastReap := c.loop;
      }
    }

    /** Appends the iteration just made to the run. */
    ghost method Note(t: Task, c: Clock)
      requires MuxValid() && IsLoopRun(run, tasks, clocks, start) && Follows(clocks, c)
      requires Abs() == AfterIteration(run[|tasks|], t, c)
      modifies `run, `tasks, `clocks
      ensures Valid() && tasks == old(tasks) + [t] && clocks == old(clocks) + [c] && Covered(Abs())
    {
      hide AfterIteration, Covered, Orderly;
      LoopRunExtends(run, tasks, clocks, start, t, c);
      tasks, clocks, run := tasks + [t], clocks + [c], run + [Abs()];
      RunCovered(run, tasks, clocks, start, |tasks|);
    }

    /** One turn of the NetStack loop. Afterwards everyone the mux may name has a live session. */
    method Iteration(t: Task, c: Clock)
      requires Valid() && Follows(clocks, c)
      modifies this, udpMux
      ensures Valid() && (udpMux == old(udpMux) || fresh(udpMux))
      ensures tasks == old(tasks) + [t] && clocks == old(clocks) + [c]
      ensures Abs() == AfterIteration(old(Abs()), t, c) && Covered(Abs())
    {
      hide AfterTask, AfterLoopReap, IsLoopRun, Covered, Orderly;
      RunTask(t, c);
      ReapIfDue(c);
      Note(t, c);
    }
  }
}
