/** Which sources have a session in converged mode, and what reaches the mux, over whole runs of the loop. */
module UdpSessions {
  import opened Prelude
  import opened Stun
  import opened UdpModel
  import opened UdpConverged

  /** The task is a datagram of `s`, and there is a mux or one can be started: then `s` has a session. */
  predicate Opens(n: Net, t: Task, s: Source) { t.FromLwip? && t.src == s && (n.mux.Some? || t.startOk) }

  /** The task is a datagram from outside that the mux attributes to `s`. */
  predicate Replies(n: Net, t: Task, s: Source) {
    t.FromFd? && n.mux.Some? && Receiver(n.mux.value, EndpointKey(t.ip, t.port), StunParse(t.data)) == Some(s)
  }

  /** When the session of `s` was last active before iteration n: with a datagram either way. */
  function LastHeard(run: seq<Net>, tasks: seq<Task>, clocks: seq<Clock>, n: nat, s: Source): Option<Time>
    requires n <= |tasks| && |clocks| == |tasks| && |run| == |tasks| + 1
  {
    if n == 0 then None
    else if Opens(run[n - 1], tasks[n - 1], s) then Some(clocks[n - 1].active)
    else if Replies(run[n - 1], tasks[n - 1], s) then Some(clocks[n - 1].mux)
    else LastHeard(run, tasks, clocks, n - 1, s)
  }

  /** Iteration i reaps, and finds the session of `s` idle for more than 60 s. */
  predicate Expires(run: seq<Net>, tasks: seq<Task>, clocks: seq<Clock>, i: nat, s: Source)
    requires i < |tasks| && |clocks| == |tasks| && |run| == |tasks| + 1
  {
    && clocks[i].loop - run[i].lastReap >= 10 * SECOND
    && var heard := LastHeard(run, tasks, clocks, i + 1, s);
       heard.Some? && clocks[i].reapSessions - heard.value > 60 * SECOND
  }

  /** No session without a mux. */
  predicate MuxFirst(n: Net) { n.sessions != map[] ==> n.mux.Some? }

  /** What one task does to one session. */
  lemma TaskSession(n: Net, t: Task, c: Clock, s: Source)
    requires Covered(n) && MuxFirst(n)
    ensures var n' := AfterTask(n, t, c);
            && MuxFirst(n')
            && (s in n'.sessions <==> s in n.sessions || Opens(n, t, s))
            && (Replies(n, t, s) ==> s in n.sessions)
            && (s in n'.sessions ==>
                  n'.sessions[s].lastActive ==
                  if Opens(n, t, s) then c.active else if Replies(n, t, s) then c.mux else n.sessions[s].lastActive)
  {
    hide AfterSend, AfterDemux, StunParse, IsInverse;
  }

  lemma {:induction false} SessionAges(run: seq<Net>, tasks: seq<Task>, clocks: seq<Clock>, start: Time, n: nat,
                                       s: Source)
    requires IsLoopRun(run, tasks, clocks, start) && n < |run|
    ensures MuxFirst(run[n])
    ensures s in run[n].sessions ==> LastHeard(run, tasks, clocks, n, s) == Some(run[n].sessions[s].lastActive)
  {
    hide AfterTask, Opens, Replies, Covered;
    if n > 0 {
      var m := n - 1;
      SessionAges(run, tasks, clocks, start, m, s);
      RunCovered(run, tasks, clocks, start, m);
      TaskSession(run[m], tasks[m], clocks[m], s);
      assert run[m + 1] == AfterIteration(run[m], tasks[m], clocks[m]);
    }
  }

  lemma {:induction false} OneIteration(run: seq<Net>, tasks: seq<Task>, clocks: seq<Clock>, start: Time, n: nat,
                                        s: Source)
    requires IsLoopRun(run, tasks, clocks, start) && n < |tasks|
    ensures s in run[n + 1].sessions <==>
            (s in run[n].sessions || Opens(run[n], tasks[n], s)) && !Expires(run, tasks, clocks, n, s)
    ensures run[n + 1].lastReap ==
            if clocks[n].loop - run[n].lastReap >= 10 * SECOND then clocks[n].loop else run[n].lastReap
  {
    hide AfterTask, Opens, Replies, Covered;
    SessionAges(run, tasks, clocks, start, n, s);
    RunCovered(run, tasks, clocks, start, n);
    TaskSession(run[n], tasks[n], clocks[n], s);
    TaskKeepsReap(run[n], tasks[n], clocks[n]);
    assert run[n + 1] == AfterIteration(run[n], tasks[n], clocks[n]);
  }

  lemma TaskKeepsReap(n: Net, t: Task, c: Clock)
    ensures AfterTask(n, t, c).lastReap == n.lastReap
  {
    hide AfterSend, AfterDemux, StunParse;
  }

  ghost predicate OpenedAndKept(run: seq<Net>, tasks: seq<Task>, clocks: seq<Clock>, i: nat, n: nat, s: Source)
    requires i < n <= |tasks| && |clocks| == |tasks| && |run| == |tasks| + 1
  {
    Opens(run[i], tasks[i], s) && forall j :: i <= j < n ==> !Expires(run, tasks, clocks, j, s)
  }

  /** A source has a session exactly if a datagram of its opened one and no reap since found it idle for over 60 s. */
  lemma {:induction false} SessionsExactly(run: seq<Net>, tasks: seq<Task>, clocks: seq<Clock>, start: Time, n: nat,
                                           s: Source)
    requires IsLoopRun(run, tasks, clocks, start) && n < |run|
    ensures s in run[n].sessions <==> exists i :: 0 <= i < n && OpenedAndKept(run, tasks, clocks, i, n, s)
  {
    hide Expires, Opens, AfterIteration;
    if n > 0 {
      var m := n - 1;
      SessionsExactly(run, tasks, clocks, start, m, s);
      OneIteration(run, tasks, clocks, start, m, s);
      if s in run[n].sessions {
        if s in run[m].sessions {
          var i :| 0 <= i < m && OpenedAndKept(run, tasks, clocks, i, m, s);
          assert OpenedAndKept(run, tasks, clocks, i, n, s);
        } else {
          assert OpenedAndKept(run, tasks, clocks, m, n, s);
        }
      }
      if i :| 0 <= i < n && OpenedAndKept(run, tasks, clocks, i, n, s) {
        if i < m { assert OpenedAndKept(run, tasks, clocks, i, m, s); }
      }
    }
  }

  // ---- the mux ----

  /** There is a mux after the task `t`. */
  predicate HasMux(n: Net, t: Task) { n.mux.Some? || (t.FromLwip? && t.startOk) }

  /** The call that a task makes to the mux: every datagram, either way. */
  function TaskCalls(t: Task, c: Clock): seq<Event> {
    match t
    case FromLwip(src, ip, port, data, _) => [Send(src, EndpointKey(ip, port), data, c.mux)]
    case FromFd(ip, port, data) => [Recv(EndpointKey(ip, port), data, c.active)]
    case Nothing => []
  }

  /** The calls that one iteration makes, if there is a mux to make them to; it reaps every 10 s. */
  function Calls(n: Net, t: Task, c: Clock): seq<Event> {
    if !HasMux(n, t) then []
    else TaskCalls(t, c) + (if c.loop - n.lastReap >= 10 * SECOND then [Event.Reap(c.reapMux)] else [])
  }

  function AllCalls(run: seq<Net>, tasks: seq<Task>, clocks: seq<Clock>, n: nat): seq<Event>
    requires n <= |tasks| && |clocks| == |tasks| && |run| == |tasks| + 1
  {
    if n == 0 then [] else AllCalls(run, tasks, clocks, n - 1) + Calls(run[n - 1], tasks[n - 1], clocks[n - 1])
  }

  function MuxOf(n: Net): Mux { if n.mux.Some? then n.mux.value else Empty() }

  function StepAll(m: Mux, events: seq<Event>): Mux
    decreases |events|
  {
    if events == [] then m else StepAll(Step(m, events[0]), events[1..])
  }

  lemma TaskMux(n: Net, t: Task, c: Clock)
    requires MuxFirst(n)
    ensures var n' := AfterTask(n, t, c);
            && (n'.mux.Some? <==> HasMux(n, t))
            && MuxOf(n') == if HasMux(n, t) then StepAll(MuxOf(n), TaskCalls(t, c)) else MuxOf(n)
  {
    hide AfterSend, AfterDemux, StunParse;
    if t != Nothing { assert StepAll(MuxOf(n), TaskCalls(t, c)) == Step(MuxOf(n), TaskCalls(t, c)[0]); }
  }

  lemma StepAllMore(m: Mux, first: seq<Event>, e: Event)
    requires |first| <= 1
    ensures StepAll(m, first + [e]) == Step(StepAll(m, first), e)
  {
    hide Step;
    assert [e][1..] == [] && (first == [] ==> first + [e] == [e]);
    if first != [] {
      assert first[1..] == [] && (first + [e])[1..] == [e] && (first + [e])[0] == first[0];
      assert StepAll(Step(m, first[0]), [e]) == Step(Step(m, first[0]), e);
    }
  }

  lemma IterationCalls(n: Net, t: Task, c: Clock)
    requires MuxFirst(n)
    ensures MuxOf(AfterIteration(n, t, c)) == StepAll(MuxOf(n), Calls(n, t, c))
    ensures AfterIteration(n, t, c).mux.Some? <==> HasMux(n, t)
  {
    hide AfterTask, AfterReap, StepAll;
    TaskMux(n, t, c);
    TaskKeepsReap(n, t, c);
    StepAllMore(MuxOf(n), TaskCalls(t, c), Event.Reap(c.reapMux));
    assert TaskCalls(t, c) + [] == TaskCalls(t, c);
    NoCalls(MuxOf(n));
  }

  lemma NoCalls(m: Mux)
    ensures StepAll(m, []) == m
  {
  }

  lemma {:induction false} StepAllRuns(run: seq<Mux>, events: seq<Event>, more: seq<Event>) returns (run': seq<Mux>)
    requires UdpModel.IsRun(run, events)
    ensures UdpModel.IsRun(run', events + more) && run'[|events + more|] == StepAll(run[|events|], more)
    decreases |more|
  {
    hide Step;
    run' := run;
    if more == [] {
      assert events + more == events;
    } else {
      RunExtends(run, events, more[0]);
      run' := StepAllRuns(run + [Step(run[|events|], more[0])], events + [more[0]], more[1..]);
      assert events + [more[0]] + more[1..] == events + more;
    }
  }

  /**
   * The mux of a loop run is in the state that its own calls lead to: each datagram of a source with a session,
   * each one from outside, and a reap every 10 s. It exists once a datagram came when it could be started.
   */
  lemma {:induction false} MuxRuns(run: seq<Net>, tasks: seq<Task>, clocks: seq<Clock>, start: Time, n: nat)
    returns (muxes: seq<Mux>)
    requires IsLoopRun(run, tasks, clocks, start) && n < |run|
    ensures UdpModel.IsRun(muxes, AllCalls(run, tasks, clocks, n)) && muxes[|muxes| - 1] == MuxOf(run[n])
    ensures run[n].mux.Some? <==> exists i :: 0 <= i < n && tasks[i].FromLwip? && tasks[i].startOk
  {
    hide AfterIteration, Step, Calls;
    if n == 0 {
      muxes := [Empty()];
    } else {
      var m := n - 1;
      muxes := MuxRuns(run, tasks, clocks, start, m);
      SessionAges(run, tasks, clocks, start, m, []);
      IterationCalls(run[m], tasks[m], clocks[m]);
      muxes := StepAllRuns(muxes, AllCalls(run, tasks, clocks, m), Calls(run[m], tasks[m], clocks[m]));
    }
  }
}
