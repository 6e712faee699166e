/** How a spliced TCP connection comes to be connected, which interest its flushes leave, and that it closes once. */
module TcpConnecting {
  import opened Prelude
  import opened TcpModel
  import opened TcpInvariant
  import TcpTheorems

  /** The fd connects exactly when it becomes writable with no error pending; any error closes it, sending nothing. */
  lemma ConnectsExactly(s: State, e: Ready)
    requires !s.link.connected && !s.link.closing && s.link.fd >= 0 && FlushAllowed(s.fwd, e.f)
    ensures var s' := AfterFdEvent(s, e);
            && (s'.link.connected <==> e.write && !e.failure && !e.sockError)
            && (e.failure || (e.write && e.sockError) ==>
                  s'.link.closing && s'.link.fd < 0 && s'.link.watch.None? && s'.fwd == s.fwd)
            && (!e.failure && !e.write ==> s' == s)
  {}

  /** Connecting tries the bytes that came before it, and then READ is watched; WRITE only if some of them are left. */
  lemma ConnectingFlushes(s: State, e: Ready)
    requires !s.link.connected && !s.link.closing && s.link.fd >= 0 && s.link.watch.Some? && FlushAllowed(s.fwd, e.f)
    requires e.write && !e.failure && !e.sockError && e.f.end != SendFailed
    ensures var s' := AfterFdEvent(s, e);
            && s'.fwd.sent == s.fwd.sent + s.fwd.buf[..e.f.sent] && s'.fwd.buf == s.fwd.buf[e.f.sent..]
            && s'.link.watch == Some(Interest(true, s'.fwd.buf != []))
  {}

  /** Before it connects nothing is sent; so a connection that fails never sends anything. */
  lemma {:induction false} UnconnectedSendsNothing(wnd: nat, run: seq<State>, events: seq<Event>, i: nat)
    requires IsRun(wnd, run, events) && i < |run| && !run[i].link.connected
    ensures run[i].fwd.sent == []
  {
    hide Step, Enabled;
    if i > 0 {
      StepUnconnected(wnd, run[i - 1], events[i - 1]);
      UnconnectedSendsNothing(wnd, run, events, i - 1);
    }
  }

  lemma FlushKeepsConnected(s: State, r: FlushResult)
    requires FlushAllowed(s.fwd, r)
    ensures AfterFlush(s, r).link.connected == s.link.connected
    ensures !s.link.connected ==> AfterFlush(s, r) == s
  {}

  lemma StackKeepsConnected(s: State, p: PumpResult)
    requires s.link.pcb ==> PumpAllowed(s.bwd, p)
    ensures AfterPump(s, p).link.connected == s.link.connected && AfterPump(s, p).fwd == s.fwd
  {}

  lemma StackTaskKeepsConnected(s: State, p: PumpResult)
    requires s.stack != [] && StackTaskAllowed(s, s.stack[0], p)
    ensures AfterStackTask(PopStack(s), s.stack[0], p).link.connected == s.link.connected
  {
    hide AfterPump;
    var s1, t := PopStack(s), s.stack[0];
    if s.link.pcb && t.WriteToLwip? { StackKeepsConnected(s1.(bwd := Appended(s1.bwd, t.data)), p); }
    if t.FdEof? { StackKeepsConnected(s1.(bwd := s1.bwd.(fdEof := true)), p); }
  }

  lemma StepUnconnected(wnd: nat, s: State, e: Event)
    requires Enabled(wnd, s, e) && !Step(wnd, s, e).link.connected
    ensures !s.link.connected && Step(wnd, s, e).fwd.sent == s.fwd.sent
  {
    hide AfterPump, AfterStackTask, AfterFlush, StackTaskAllowed, PumpAllowed, FlushAllowed, ReadAllowed,
      Writes, Flatten;
    match e
    case Sent(p) => StackKeepsConnected(s, p);
    case StackTask(p) =>
      TcpTheorems.StackTaskKeepsFd(s, p);
      StackTaskKeepsConnected(s, p);
    case FdReady(r) =>
      FlushKeepsConnected(AfterReadPart(s, r), r.f);
      FlushKeepsConnected(s.(link := Mod(s.link.(connected := true), true, false)), r.f);
    case ReactorTask(f) => FlushKeepsConnected(PopReactor(s), f);
    case _ =>
  }

  lemma {:induction false} FailedConnectSendsNothing(wnd: nat, run: seq<State>, events: seq<Event>, i: nat, j: nat)
    requires IsRun(wnd, run, events) && i < j < |run| && !run[i].link.connected && !run[i].link.closing
    requires events[i].FdReady? && (events[i].e.failure || (events[i].e.write && events[i].e.sockError))
    ensures run[j].link.fd < 0 && run[j].fwd.sent == []
  {
    hide AfterFdEvent;
    assert Enabled(wnd, run[i], events[i]) && run[i + 1] == Step(wnd, run[i], events[i]);
    RunInv(wnd, run, events, i);
    ConnectsExactly(run[i], events[i].e);
    UnconnectedSendsNothing(wnd, run, events, i);
    TcpTheorems.ClosedForGood(wnd, run, events, i + 1, j);
  }

  /** After a flush WRITE is watched exactly if bytes are left, or none had been waiting and it was watched anyway. */
  lemma FlushWatchesWrite(s: State, r: FlushResult)
    requires FlushAllowed(s.fwd, r) && s.link.fd >= 0 && s.link.connected && s.link.watch.Some? && r.end != SendFailed
    ensures var s' := AfterFlush(s, r);
            && s'.link.watch.Some? && s'.fwd.wantWrite == (s'.fwd.buf != [])
            && (s'.link.watch.value.write <==> s'.fwd.buf != [] || (!s.fwd.wantWrite && s.link.watch.value.write))
  {}

  // ---- closing ----

  /** The tasks queued that close the fd or take its watcher away. */
  function FdClosings(ts: seq<ReactorTask>): nat {
    if ts == [] then 0
    else FdClosings(ts[..|ts| - 1]) + (if ts[|ts| - 1] in {ShutdownFd, DelWatch} then 1 else 0)
  }

  /** The tasks queued that tell the stack. */
  function StackClosings(ts: seq<StackTask>): nat {
    if ts == [] then 0
    else StackClosings(ts[..|ts| - 1]) + (if ts[|ts| - 1].CloseFromStack? then 1 else 0)
  }

  lemma {:induction false} FdClosingsRest(ts: seq<ReactorTask>)
    requires ts != []
    ensures FdClosings(ts) == (if ts[0] in {ShutdownFd, DelWatch} then 1 else 0) + FdClosings(ts[1..])
  {
    var n := |ts| - 1;
    if n > 0 {
      FdClosingsRest(ts[..n]);
      assert ts[..n][1..] == ts[1..][..n - 1];
    }
  }

  lemma {:induction false} StackClosingsRest(ts: seq<StackTask>)
    requires ts != []
    ensures StackClosings(ts) == (if ts[0].CloseFromStack? then 1 else 0) + StackClosings(ts[1..])
  {
    var n := |ts| - 1;
    if n > 0 {
      StackClosingsRest(ts[..n]);
      assert ts[..n][1..] == ts[1..][..n - 1];
    }
  }

  lemma FdClosingsPost(ts: seq<ReactorTask>, t: ReactorTask)
    ensures FdClosings(ts + [t]) == FdClosings(ts) + (if t in {ShutdownFd, DelWatch} then 1 else 0)
  {
    assert (ts + [t])[..|ts|] == ts;
  }

  lemma StackClosingsPost(ts: seq<StackTask>, t: StackTask)
    ensures StackClosings(ts + [t]) == StackClosings(ts) + (if t.CloseFromStack? then 1 else 0)
  {
    assert (ts + [t])[..|ts|] == ts;
  }

  lemma {:induction false} StackClosingsWrites(ts: seq<StackTask>, chunks: seq<Bytes>)
    ensures StackClosings(ts + Writes(chunks)) == StackClosings(ts)
  {
    var n := |chunks|;
    if n == 0 {
      assert ts + Writes(chunks) == ts;
    } else {
      StackClosingsWrites(ts, chunks[..n - 1]);
      StackClosingsPost(ts + Writes(chunks[..n - 1]), WriteToLwip(chunks[n - 1]));
      assert ts + Writes(chunks) == ts + Writes(chunks[..n - 1]) + [WriteToLwip(chunks[n - 1])];
    }
  }

  /** Each closing is queued at most once, and none before the session is closing. */
  ghost predicate Once(s: State) {
    && FdClosings(s.reactor) <= (if s.link.closing then 1 else 0)
    && StackClosings(s.stack) <= (if s.link.closing then 1 else 0)
  }

  /** From `s` to `s'` nothing that closes is queued or taken, and the session is closing as before. */
  ghost predicate Quiet(s: State, s': State) {
    && s'.link.closing == s.link.closing
    && FdClosings(s'.reactor) == FdClosings(s.reactor) && StackClosings(s'.stack) == StackClosings(s.stack)
  }

  lemma CloseOnce(s: State, onReactor: bool)
    requires Once(s)
    ensures Once(AfterCloseFromReactor(s, onReactor))
  {
    FdClosingsPost(s.reactor, DelWatch);
    StackClosingsPost(s.stack, CloseFromStack);
  }

  lemma PumpQuiet(s: State, p: PumpResult)
    requires s.link.pcb ==> PumpAllowed(s.bwd, p)
    ensures Quiet(s, AfterPump(s, p))
  {
    hide FdClosings, StackClosings, PumpAllowed;
    FdClosingsPost(s.reactor, ResumeRead(s.link.fd));
    FdClosingsPost(s.reactor, CloseFromReactor);
    FdClosingsPost(s.reactor + [ResumeRead(s.link.fd)], CloseFromReactor);
  }

  lemma FlushOnce(s: State, r: FlushResult)
    requires Once(s) && FlushAllowed(s.fwd, r)
    ensures Once(AfterFlush(s, r))
  {
    hide FdClosings, StackClosings, AfterCloseFromReactor;
    StackClosingsPost(s.stack, AckRecved);
    if r.end.SendFailed? {
      var lost := s.fwd.(buf := s.fwd.buf[r.sent..], sent := s.fwd.sent + s.fwd.buf[..r.sent]);
      CloseOnce(s.(fwd := lost), true);
    }
  }

  lemma ReadOnce(s: State, r: ReadResult)
    requires Once(s)
    ensures Once(AfterRead(s, r))
  {
    hide FdClosings, StackClosings, AfterCloseFromReactor, Flatten, Writes;
    var ts := s.stack + Writes(r.chunks);
    StackClosingsWrites(s.stack, r.chunks);
    StackClosingsPost(ts, FdEof);
    CloseOnce(s.(bwd := ReadIn(s.bwd, Flatten(r.chunks)), stack := ts), true);
  }

  lemma StackTaskOnce(s: State, p: PumpResult)
    requires Once(s) && s.stack != [] && StackTaskAllowed(s, s.stack[0], p)
    ensures Once(AfterStackTask(PopStack(s), s.stack[0], p))
  {
    hide FdClosings, StackClosings, AfterPump;
    var s1, t := PopStack(s), s.stack[0];
    StackClosingsRest(s.stack);
    match t
    case WriteToLwip(data) => if s.link.pcb { PumpQuiet(s1.(bwd := Appended(s1.bwd, data)), p); }
    case FdEof =>
      var s2 := AfterPump(s1.(bwd := s1.bwd.(fdEof := true)), p);
      PumpQuiet(s1.(bwd := s1.bwd.(fdEof := true)), p);
      FdClosingsPost(s2.reactor, CloseFromReactor);
    case AckRecved =>
    case CloseFromStack => FdClosingsPost(s1.reactor, CloseFromReactor);
  }

  lemma ReactorTaskOnce(s: State, f: FlushResult)
    requires Once(s) && s.reactor != [] && FlushAllowed(s.fwd, f)
    ensures Once(AfterReactorTask(PopReactor(s), s.reactor[0], f))
  {
    hide FdClosings, StackClosings, AfterFlush, AfterCloseFromReactor, FlushAllowed;
    FdClosingsRest(s.reactor);
    FlushOnce(PopReactor(s), f);
    CloseOnce(PopReactor(s), true);
  }

  lemma StepOnce(wnd: nat, s: State, e: Event)
    requires Once(s) && Enabled(wnd, s, e)
    ensures Once(Step(wnd, s, e))
  {
    hide FdClosings, StackClosings, AfterPump, AfterStackTask, AfterReactorTask, AfterFlush, AfterRead,
      AfterCloseFromReactor, StackTaskAllowed, PumpAllowed, FlushAllowed, ReadAllowed;
    match e
    case Recv(data) => FdClosingsPost(s.reactor, FlushForward);
    case RecvClosed => FdClosingsPost(s.reactor, CloseFromReactor);
    case Sent(p) => PumpQuiet(s, p);
    case Err => CloseOnce(s.(link := LwipGone(s.link)), false);
    case StackTask(p) => StackTaskOnce(s, p);
    case Shutdown => FdClosingsPost(s.reactor, ShutdownFd);
    case FdReady(r) =>
      CloseOnce(s, true);
      FlushOnce(s.(link := Mod(s.link.(connected := true), true, false)), r.f);
      if s.link.connected {
        if r.read || r.failure { ReadOnce(s, r.r); }
        FlushAllowedAfterRead(s, r);
        FlushOnce(AfterReadPart(s, r), r.f);
      }
    case ReactorTask(f) => ReactorTaskOnce(s, f);
  }

  lemma FlushAllowedAfterRead(s: State, r: Ready)
    requires FlushAllowed(s.fwd, r.f)
    ensures FlushAllowed(AfterReadPart(s, r).fwd, r.f)
  {}

  /** In every run at most one task is queued to take the fd away and one to tell the stack, and none before closing. */
  lemma {:induction false} ClosingQueuedOnce(wnd: nat, run: seq<State>, events: seq<Event>, i: nat)
    requires IsRun(wnd, run, events) && i < |run|
    ensures Once(run[i])
  {
    hide Step, Enabled;
    if i > 0 {
      ClosingQueuedOnce(wnd, run, events, i - 1);
      StepOnce(wnd, run[i - 1], events[i - 1]);
    }
  }
}
