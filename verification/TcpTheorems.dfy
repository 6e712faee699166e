/** What holds of a spliced TCP connection in every run, whatever lwIP, the kernel and the scheduler do. */
module TcpTheorems {
  import opened Prelude
  import opened TcpModel
  import opened TcpInvariant

  /** No event of the run makes a pump fail after lwIP has already accepted part of the buffer. */
  predicate PumpSound(p: PumpResult) { p.fatal ==> p.accepted == 0 }

  predicate EventSound(s: State, e: Event) {
    match e
    case Sent(p) => PumpSound(p)
    case StackTask(p) => s.link.pcb && s.stack != [] && (s.stack[0].WriteToLwip? || s.stack[0].FdEof?) ==> PumpSound(p)
    case _ => true
  }

  lemma PumpDuplicates(s: State, p: PumpResult)
    requires s.link.pcb ==> PumpAllowed(s.bwd, p)
    ensures AfterPump(s, p).bwd.duplicated == s.bwd.duplicated + (if s.link.pcb && p.fatal then p.accepted else 0)
  {}

  lemma StackTaskDuplicates(s: State, t: StackTask, p: PumpResult)
    requires StackTaskAllowed(s, t, p)
    ensures AfterStackTask(s, t, p).bwd.duplicated == s.bwd.duplicated
              + (if s.link.pcb && (t.WriteToLwip? || t.FdEof?) && p.fatal then p.accepted else 0)
  {
    match t
    case WriteToLwip(data) => if s.link.pcb { PumpDuplicates(s.(bwd := Appended(s.bwd, data)), p); }
    case FdEof => PumpDuplicates(s.(bwd := s.bwd.(fdEof := true)), p);
    case _ =>
  }

  lemma FlushKeepsBackward(s: State, r: FlushResult)
    requires FlushAllowed(s.fwd, r)
    ensures AfterFlush(s, r).bwd == s.bwd
  {}

  lemma StepDuplicates(wnd: nat, s: State, e: Event)
    requires Enabled(wnd, s, e)
    ensures Step(wnd, s, e).bwd.duplicated >= s.bwd.duplicated
    ensures Step(wnd, s, e).bwd.duplicated == s.bwd.duplicated <==> EventSound(s, e)
  {
    match e
    case Sent(p) => PumpDuplicates(s, p);
    case StackTask(p) => StackTaskDuplicates(PopStack(s), s.stack[0], p);
    case FdReady(r) =>
      if s.link.connected {
        FlushKeepsBackward(AfterReadPart(s, r), r.f);
      } else {
        FlushKeepsBackward(s.(link := Mod(s.link.(connected := true), true, false)), r.f);
      }
    case ReactorTask(f) => FlushKeepsBackward(PopReactor(s), f);
    case _ =>
  }

  lemma {:induction false} RunDuplicates(wnd: nat, run: seq<State>, events: seq<Event>, i: nat)
    requires IsRun(wnd, run, events) && i < |run|
    ensures run[i].bwd.duplicated == 0 <==> forall j :: 0 <= j < i ==> EventSound(run[j], events[j])
  {
    if i > 0 {
      RunDuplicates(wnd, run, events, i - 1);
      StepDuplicates(wnd, run[i - 1], events[i - 1]);
    }
  }

  /**
   * Conservation from the fd to lwIP. While the lwIP side is open the backlog counter is the number of
   * bytes buffered or queued, and the bytes read are the bytes lwIP accepted, then the buffer, then the
   * queued data in order - exactly when no pump failed half-way.
   */
  lemma BackwardConservation(wnd: nat, run: seq<State>, events: seq<Event>, i: nat)
    requires IsRun(wnd, run, events) && i < |run|
    ensures var s := run[i]; s.link.pcb ==>
              && s.bwd.count == |s.bwd.buf| + |Queued(s.stack)|
              && (s.bwd.read == s.bwd.written + s.bwd.buf + Queued(s.stack)
                  <==> forall j :: 0 <= j < i ==> EventSound(run[j], events[j]))
  {
    RunInv(wnd, run, events, i);
    RunDuplicates(wnd, run, events, i);
    var s := run[i];
    if s.link.pcb && s.bwd.read == s.bwd.written + s.bwd.buf + Queued(s.stack) {
      assert |s.bwd.read| == |s.bwd.written| + |s.bwd.buf| + |Queued(s.stack)|;
    }
  }

  // ---- two concrete runs, both through the same two first steps ----

  const NO_FLUSH := FlushResult(0, Drained)
  const CONNECT := FdReady(Ready(false, true, false, false, ReadResult([], WouldBlock), NO_FLUSH))
  const WATCHED := Started(0).(link := Started(0).link.(watch := Some(Interest(false, true))), reactor := [])
  const OPEN := WATCHED.(link := WATCHED.link.(connected := true, watch := Some(Interest(true, false))))

  lemma OpeningSteps()
    ensures Enabled(1, Started(0), ReactorTask(NO_FLUSH)) && Step(1, Started(0), ReactorTask(NO_FLUSH)) == WATCHED
    ensures Enabled(1, WATCHED, CONNECT) && Step(1, WATCHED, CONNECT) == OPEN
  {}

  /** A pump that fails after lwIP took a byte delivers that byte twice. */
  lemma HalfFailedPumpDuplicates() returns (run: seq<State>, events: seq<Event>)
    ensures IsRun(1, run, events) && |run| == 6
    ensures run[5].link.pcb && run[5].bwd.read == [1, 2] && run[5].bwd.written == [1, 1, 2]
  {
    hide Step, Enabled;
    var read := Ready(true, false, false, false, ReadResult([[1, 2]], WouldBlock), NO_FLUSH);
    events := [ReactorTask(NO_FLUSH), CONNECT, FdReady(read), StackTask(PumpResult(1, true)),
               Sent(PumpResult(2, false))];
    var s3 := OPEN.(bwd := OPEN.bwd.(count := 2, read := [1, 2]), stack := [WriteToLwip([1, 2])]);
    var s4 := OPEN.(bwd := OPEN.bwd.(buf := [1, 2], count := 2, read := [1, 2], written := [1], duplicated := 1));
    var s5 := OPEN.(bwd := OPEN.bwd.(read := [1, 2], written := [1, 1, 2], duplicated := 1));
    OpeningSteps();
    ReadTwoBytes(OPEN, read, s3);
    WriteFails(s3, s4);
    PumpAgain(s4, s5);
    run := [Started(0), WATCHED, OPEN, s3, s4, s5];
  }

  lemma WriteFails(s: State, s': State)
    requires s.stack == [WriteToLwip([1, 2])] && s.link.pcb
    requires s.bwd.buf == [] && s.bwd.written == [] && s.bwd.duplicated == 0
    requires s' == s.(bwd := s.bwd.(buf := [1, 2], written := [1], duplicated := 1), stack := [])
    ensures Enabled(1, s, StackTask(PumpResult(1, true))) && Step(1, s, StackTask(PumpResult(1, true))) == s'
  {
    assert [] + [1, 2] == [1, 2];
  }

  lemma PumpAgain(s: State, s': State)
    requires s.link.pcb && s.bwd.buf == [1, 2] && s.bwd.written == [1] && s.bwd.count == 2
    requires !s.bwd.readPaused && !s.bwd.fdEof
    requires s' == s.(bwd := s.bwd.(buf := [], count := 0, written := [1, 1, 2]))
    ensures Enabled(1, s, Sent(PumpResult(2, false))) && Step(1, s, Sent(PumpResult(2, false))) == s'
  {
    assert [1] + [1, 2][..2] == [1, 1, 2];
  }

  lemma ReadTwoBytes(s: State, read: Ready, s': State)
    requires s.link == Link(true, true, 0, true, false, Some(Interest(true, false)))
    requires s.stack == [] && s.bwd.count == 0 && s.fwd.buf == []
    requires read == Ready(true, false, false, false, ReadResult([[1, 2]], WouldBlock), FlushResult(0, Drained))
    requires s' == s.(bwd := s.bwd.(count := 2, read := s.bwd.read + [1, 2]), stack := [WriteToLwip([1, 2])])
    ensures Enabled(1, s, FdReady(read)) && Step(1, s, FdReady(read)) == s'
  {
    var chunks: seq<Bytes> := read.r.chunks;
    assert chunks[..0] == [] && chunks[1..] == [];
    assert Flatten(chunks) == [1, 2];
    assert Writes(chunks) == [WriteToLwip([1, 2])];
  }

  /** The backlog is bounded under every interleaving, and no pump subtracts more than is there. */
  lemma BackwardBounded(wnd: nat, run: seq<State>, events: seq<Event>, i: nat)
    requires IsRun(wnd, run, events) && i < |run|
    ensures 0 <= run[i].bwd.count < 256 * 1024 + 65536
    ensures run[i].link.pcb ==> |run[i].bwd.buf| + |Queued(run[i].stack)| < 256 * 1024 + 65536
  {
    RunInv(wnd, run, events, i);
  }

  predicate AskedToClose(s: State, e: Event)
    requires e.StackTask? ==> s.stack != []
  {
    e.RecvClosed? || e.Err? || e.Shutdown? || (e.StackTask? && s.stack[0].CloseFromStack?)
  }

  lemma FlushKeepsPcb(s: State, r: FlushResult)
    requires FlushAllowed(s.fwd, r)
    ensures AfterFlush(s, r).link.pcb == s.link.pcb
  {}

  lemma PumpCloses(s: State, p: PumpResult)
    requires s.link.pcb && PumpAllowed(s.bwd, p)
    ensures !AfterPump(s, p).link.pcb ==> AfterPump(s, p).bwd.drainClosed && PumpSound(p)
    ensures AfterPump(s, p).link.pcb && s.bwd.fdEof ==> AfterPump(s, p).bwd.buf != []
  {}

  lemma FdEventKeepsPcb(s: State, r: Ready)
    requires FlushAllowed(s.fwd, r.f)
    ensures AfterFdEvent(s, r).link.pcb == s.link.pcb
  {
    hide AfterFlush, FlushAllowed, Writes, Flatten;
    FlushKeepsPcb(AfterReadPart(s, r), r.f);
    FlushKeepsPcb(s.(link := Mod(s.link.(connected := true), true, false)), r.f);
  }

  lemma ReactorTaskKeepsPcb(s: State, t: ReactorTask, f: FlushResult)
    requires FlushAllowed(s.fwd, f)
    ensures AfterReactorTask(s, t, f).link.pcb == s.link.pcb
  {
    FlushKeepsPcb(s, f);
  }

  lemma StepCloses(wnd: nat, s: State, e: Event)
    requires Enabled(wnd, s, e) && s.link.pcb && !Step(wnd, s, e).link.pcb && !AskedToClose(s, e)
    ensures Step(wnd, s, e).bwd.drainClosed && EventSound(s, e)
  {
    hide AfterPump, AfterFdEvent, AfterReactorTask, ReadAllowed, FlushAllowed, Queued;
    match e
    case Sent(p) => PumpCloses(s, p);
    case StackTask(p) =>
      var s1 := PopStack(s);
      if s.stack[0].WriteToLwip? {
        PumpCloses(s1.(bwd := Appended(s1.bwd, s.stack[0].data)), p);
      } else if s.stack[0].FdEof? {
        PumpCloses(s1.(bwd := s1.bwd.(fdEof := true)), p);
      }
    case FdReady(r) => FdEventKeepsPcb(s, r);
    case ReactorTask(f) => ReactorTaskKeepsPcb(PopReactor(s), s.reactor[0], f);
    case _ =>
  }

  /**
   * No lost tail. Whenever a step of a run closes the lwIP side without the other side or the stack asking
   * for it, and not because the session was closing already, the fd has reached its end, and lwIP has accepted
   * the bytes ever read from it, all of them, once and in order - exactly when no pump failed half-way.
   */
  lemma LwipClosesDrained(wnd: nat, run: seq<State>, events: seq<Event>, i: nat)
    requires IsRun(wnd, run, events) && i < |events|
    requires run[i].link.pcb && !run[i + 1].link.pcb && !AskedToClose(run[i], events[i])
    ensures run[i + 1].bwd.eofRead
    ensures run[i + 1].bwd.written == run[i + 1].bwd.read <==> forall j :: 0 <= j < i ==> EventSound(run[j], events[j])
  {
    StepCloses(wnd, run[i], events[i]);
    RunDuplicates(wnd, run, events, i + 1);
    RunInv(wnd, run, events, i + 1);
  }

  /**
   * Conservation from lwIP to the fd: the bytes received are the bytes sent, then the buffer; until the
   * session closes, what has not been acknowledged is buffered or pending, and pending bytes have an
   * acknowledgement queued. So both buffers fit in one receive window.
   */
  lemma ForwardConservation(wnd: nat, run: seq<State>, events: seq<Event>, i: nat)
    requires IsRun(wnd, run, events) && i < |run|
    ensures var s := run[i];
            && s.fwd.received == s.fwd.sent + s.fwd.buf
            && |s.fwd.buf| + s.fwd.pending <= |s.fwd.received| - s.fwd.acked <= wnd
            && (!s.link.closing ==> |s.fwd.received| - s.fwd.acked == |s.fwd.buf| + s.fwd.pending)
            && (s.link.pcb && s.fwd.pending > 0 ==> AckRecved in s.stack)
  {
    RunInv(wnd, run, events, i);
  }

  /**
   * No stuck pause. A connected, open session that has not seen end of file watches READ, or is paused
   * over the low-water mark, or has its resumption queued; running that task watches READ.
   */
  lemma NoStuckPause(wnd: nat, run: seq<State>, events: seq<Event>, i: nat, f: FlushResult)
    requires IsRun(wnd, run, events) && i < |run|
    requires run[i].link.connected && !run[i].link.closing && !run[i].bwd.eofRead
    ensures var s := run[i];
            && s.link.watch.Some?
            && (|| s.link.watch.value.read
                || (s.bwd.readPaused && s.bwd.count > 64 * 1024)
                || ResumeRead(s.link.fd) in s.reactor)
    ensures var s := run[i]; s.reactor != [] && s.reactor[0] == ResumeRead(s.link.fd) && FlushAllowed(s.fwd, f) ==>
              var s' := AfterReactorTask(PopReactor(s), s.reactor[0], f);
              s'.link.watch.Some? && s'.link.watch.value.read
  {
    RunInv(wnd, run, events, i);
  }

  /** Reading pauses exactly when what has been read and not accepted by lwIP comes to 256 KiB or more. */
  lemma PausesExactly(s: State, r: ReadResult)
    requires ReadAllowed(s, r) && !s.bwd.readPaused
    ensures var s' := AfterRead(s, r);
            && (s'.bwd.readPaused <==> s'.bwd.count >= 256 * 1024)
            && (s'.bwd.readPaused && s.link.watch.Some? ==> s'.link.watch == Some(Interest(false, false)))
            && s'.bwd.read == s.bwd.read + Flatten(r.chunks) && s'.bwd.count == s.bwd.count + |Flatten(r.chunks)|
  {
    hide Flatten;
  }

  /** And a pump that does not fail resumes it exactly when at most 64 KiB are left: it queues that, once. */
  lemma ResumesExactly(s: State, p: PumpResult)
    requires s.link.pcb && PumpAllowed(s.bwd, p) && !p.fatal
    ensures var s' := AfterPump(s, p);
            && (s'.bwd.readPaused <==> s.bwd.readPaused && s'.bwd.count > 64 * 1024)
            && s'.reactor == s.reactor
                             + (if s.bwd.readPaused && !s'.bwd.readPaused then [ResumeRead(s.link.fd)] else [])
                             + (if s.bwd.fdEof && s'.bwd.buf == [] then [CloseFromReactor] else [])
  {}

  /**
   * No half-dead session: a session leaves the table with its pcb; once lwIP is gone the fd is closed or
   * a task that closes it is queued, and once the session is closing lwIP is gone or told to go.
   */
  lemma BothSidesClose(wnd: nat, run: seq<State>, events: seq<Event>, i: nat)
    requires IsRun(wnd, run, events) && i < |run|
    ensures var s := run[i];
            && (s.link.inTable <==> s.link.pcb)
            && (!s.link.pcb ==> s.link.fd < 0 || CloseFromReactor in s.reactor || ShutdownFd in s.reactor)
            && (s.link.closing ==> s.link.fd < 0 || ShutdownFd in s.reactor)
            && (s.link.fd < 0 ==> !s.link.pcb || CloseFromStack in s.stack)
  {
    RunInv(wnd, run, events, i);
  }

  // ---- progress of the forward direction ----

  /** Buffered forward bytes will be tried again: WRITE is watched, or a flush is queued. */
  ghost predicate ForwardLive(s: State) {
    s.link.connected && !s.link.closing && s.fwd.buf != [] ==>
      (s.link.watch.Some? && s.link.watch.value.write) || FlushForward in s.reactor
  }

  /** The ways a step leaves bytes behind with nobody to send them. */
  predicate Strands(s: State, e: Event) {
    && s.link.connected && !s.link.closing && s.fwd.buf != []
    && match e
       case FdReady(r) =>
         && FlushForward !in s.reactor && (r.read || r.failure)
         && (|| (r.r.end == Paused && !r.write)                             // mod(NONE)
             || (r.r.end == Eof && (r.write ==> r.f.end == Blocked)))       // del
       case ReactorTask(f) =>
         && s.reactor != [] && FlushForward !in s.reactor[1..]
         && (|| (s.reactor[0].ResumeRead? && s.reactor[0].capturedFd >= 0)  // mod(READ)
             || (s.reactor[0].FlushForward? && f.end == Blocked && s.link.watch.None?))
       case _ => false
  }

  lemma FlushForwardLive(s: State, r: FlushResult)
    requires FlushAllowed(s.fwd, r) && FlushForward !in s.reactor
    requires s.link.fd >= 0 && s.link.connected && !s.link.closing
    ensures ForwardLive(AfterFlush(s, r)) <==> !(r.end == Blocked && s.link.watch.None?)
  {}

  lemma QueuedFlushForwardLive(s: State, r: FlushResult)
    requires FlushAllowed(s.fwd, r) && FlushForward in s.reactor
    ensures ForwardLive(AfterFlush(s, r))
  {}

  lemma ReactorTaskForwardLive(s: State, f: FlushResult)
    requires WatchOk(s) && ForwardLive(s) && s.reactor != [] && FlushAllowed(s.fwd, f)
    ensures ForwardLive(AfterReactorTask(PopReactor(s), s.reactor[0], f)) <==> !Strands(s, ReactorTask(f))
  {
    if s.reactor[0].FlushForward? && s.link.connected && !s.link.closing {
      if FlushForward in s.reactor[1..] {
        QueuedFlushForwardLive(PopReactor(s), f);
      } else {
        FlushForwardLive(PopReactor(s), f);
      }
    }
  }

  lemma ClosingForwardLive(s: State, r: FlushResult)
    requires FlushAllowed(s.fwd, r) && s.link.closing
    ensures ForwardLive(AfterFlush(s, r))
  {}

  /** The WRITE branch of onFdEvent. */
  lemma WriteForwardLive(s: State, r: FlushResult)
    requires FlushAllowed(s.fwd, r) && s.link.connected && (!s.link.closing ==> s.link.fd >= 0)
    ensures ForwardLive(AfterFlush(s, r)) <==>
            !(!s.link.closing && FlushForward !in s.reactor && r.end == Blocked && s.link.watch.None?)
  {
    if s.link.closing {
      ClosingForwardLive(s, r);
    } else if FlushForward in s.reactor {
      QueuedFlushForwardLive(s, r);
    } else {
      FlushForwardLive(s, r);
    }
  }

  /** The READ branch of onFdEvent. */
  lemma ReadForwardLive(s: State, r: ReadResult)
    requires ForwardLive(s) && s.link.connected
    ensures ForwardLive(AfterRead(s, r)) <==>
            !(!s.link.closing && FlushForward !in s.reactor && s.fwd.buf != [] && (r.end == Paused || r.end == Eof))
  {}

  lemma ReadKeeps(s: State, r: ReadResult)
    requires WatchOk(s) && s.link.connected && s.link.watch.Some?
    ensures var s' := AfterRead(s, r);
            && s'.fwd == s.fwd && s'.reactor == s.reactor && s'.link.connected
            && (s'.link.closing <==> s.link.closing || r.end == RecvFailed)
            && (!s'.link.closing ==> s'.link.fd >= 0)
            && (!s'.link.closing ==> (s'.link.watch.None? <==> r.end == Eof))
  {}

  lemma FdReadyForwardLive(s: State, e: Ready)
    requires WatchOk(s) && ForwardLive(s) && s.link.watch.Some? && FlushAllowed(s.fwd, e.f)
    ensures ForwardLive(AfterFdEvent(s, e)) <==> !Strands(s, FdReady(e))
  {
    if !s.link.connected {
      WriteForwardLive(s.(link := Mod(s.link.(connected := true), true, false)), e.f);
    } else {
      if e.read || e.failure {
        ReadForwardLive(s, e.r);
        ReadKeeps(s, e.r);
      }
      if e.write { WriteForwardLive(AfterReadPart(s, e), e.f); }
    }
  }

  /** The forward direction keeps somebody in charge of its bytes exactly when the step is none of those. */
  lemma ForwardLiveExactly(wnd: nat, s: State, e: Event)
    requires Inv(wnd, s) && ForwardLive(s) && Enabled(wnd, s, e)
    ensures ForwardLive(Step(wnd, s, e)) <==> !Strands(s, e)
  {
    hide Pumped, ReadAllowed, Writes, AckPosted, Queued, Flatten, DataOk, ForwardOk, ReadingOk, TeardownOk;
    match e
    case FdReady(r) => FdReadyForwardLive(s, r);
    case ReactorTask(f) => ReactorTaskForwardLive(s, f);
    case _ =>
  }

  /** So over a run somebody is in charge of the forward bytes in every state exactly when no step strands them. */
  lemma {:induction false} ForwardLiveThroughout(wnd: nat, run: seq<State>, events: seq<Event>, n: nat)
    requires IsRun(wnd, run, events) && n < |run|
    ensures (forall i :: 0 <= i <= n ==> ForwardLive(run[i])) <==>
            (forall i :: 0 <= i < n ==> !Strands(run[i], events[i]))
  {
    hide ForwardLive, Strands, Step, Enabled, Inv;
    if n == 0 {
      StartedForwardLive(wnd, run, events);
    } else {
      var m := n - 1;
      ForwardLiveThroughout(wnd, run, events, m);
      RunInv(wnd, run, events, m);
      assert Enabled(wnd, run[m], events[m]) && run[m + 1] == Step(wnd, run[m], events[m]);
      if ForwardLive(run[m]) { ForwardLiveExactly(wnd, run[m], events[m]); }
    }
  }

  lemma StartedForwardLive(wnd: nat, run: seq<State>, events: seq<Event>)
    requires IsRun(wnd, run, events)
    ensures ForwardLive(run[0])
  {}

  // ---- the end of the forward direction ----

  /** Nothing is sent to a closed fd. */
  lemma FlushClosed(s: State, r: FlushResult)
    requires FlushAllowed(s.fwd, r) && s.link.fd < 0
    ensures AfterFlush(s, r) == s
  {}

  lemma PumpKeepsFd(s: State, p: PumpResult)
    requires s.link.pcb ==> PumpAllowed(s.bwd, p)
    ensures AfterPump(s, p).link.fd == s.link.fd && AfterPump(s, p).fwd == s.fwd
  {}

  lemma StackTaskKeepsFd(s: State, p: PumpResult)
    requires s.stack != [] && StackTaskAllowed(s, s.stack[0], p)
    ensures var s' := AfterStackTask(PopStack(s), s.stack[0], p);
            s'.link.fd == s.link.fd && s'.fwd.buf == s.fwd.buf && s'.fwd.sent == s.fwd.sent
  {
    hide AfterPump;
    var s1, t := PopStack(s), s.stack[0];
    if s.link.pcb && t.WriteToLwip? { PumpKeepsFd(s1.(bwd := Appended(s1.bwd, t.data)), p); }
    if t.FdEof? { PumpKeepsFd(s1.(bwd := s1.bwd.(fdEof := true)), p); }
  }

  lemma StepClosed(wnd: nat, s: State, e: Event)
    requires Enabled(wnd, s, e) && s.link.fd < 0
    ensures Step(wnd, s, e).link.fd < 0 && Step(wnd, s, e).fwd.sent == s.fwd.sent
  {
    hide AfterFlush, AfterPump, AfterStackTask, StackTaskAllowed, PumpAllowed, FlushAllowed, ReadAllowed,
      Writes, Flatten;
    match e
    case Sent(p) => PumpKeepsFd(s, p);
    case StackTask(p) => StackTaskKeepsFd(s, p);
    case FdReady(r) =>
      if s.link.connected {
        if r.write { FlushClosed(AfterReadPart(s, r), r.f); }
      } else {
        FlushClosed(s.(link := Mod(s.link.(connected := true), true, false)), r.f);
      }
    case ReactorTask(f) => FlushClosed(PopReactor(s), f);
    case _ =>
  }

  lemma {:induction false} ClosedForGood(wnd: nat, run: seq<State>, events: seq<Event>, i: nat, j: nat)
    requires IsRun(wnd, run, events) && i <= j < |run| && run[i].link.fd < 0
    ensures run[j].link.fd < 0 && run[j].fwd.sent == run[i].fwd.sent
  {
    hide Step, Enabled;
    if i < j {
      ClosedForGood(wnd, run, events, i, j - 1);
      StepClosed(wnd, run[j - 1], events[j - 1]);
    }
  }

  /** Closing the fd empties no buffer. */
  lemma FlushCloses(s: State, r: FlushResult)
    requires FlushAllowed(s.fwd, r)
    ensures s.link.fd >= 0 && AfterFlush(s, r).link.fd < 0 ==> s.fwd.buf != [] && AfterFlush(s, r).fwd.buf != []
  {}

  lemma StepClosesFd(wnd: nat, s: State, e: Event)
    requires Enabled(wnd, s, e) && s.link.fd >= 0 && Step(wnd, s, e).link.fd < 0
    ensures Step(wnd, s, e).fwd.buf == [] <==> s.fwd.buf == []
  {
    hide AfterFlush, AfterPump, AfterStackTask, StackTaskAllowed, PumpAllowed, FlushAllowed, ReadAllowed,
      Writes, Flatten;
    match e
    case Sent(p) => PumpKeepsFd(s, p);
    case StackTask(p) => StackTaskKeepsFd(s, p);
    case FdReady(r) =>
      if s.link.connected {
        var s1 := AfterReadPart(s, r);
        if r.write {
          FlushCloses(s1, r.f);
          if s1.link.fd < 0 { FlushClosed(s1, r.f); }
        }
      } else {
        FlushCloses(s.(link := Mod(s.link.(connected := true), true, false)), r.f);
      }
    case ReactorTask(f) => FlushCloses(PopReactor(s), f);
    case _ =>
  }

  /**
   * When a step closes the fd, nothing is sent any more; and what lwIP had delivered by then has all been sent
   * exactly if forwardBuf was empty before that step.
   */
  lemma ForwardTailExactly(wnd: nat, run: seq<State>, events: seq<Event>, i: nat, j: nat)
    requires IsRun(wnd, run, events) && i + 1 <= j < |run|
    requires run[i].link.fd >= 0 && run[i + 1].link.fd < 0
    ensures run[j].fwd.sent == run[i + 1].fwd.sent
    ensures run[j].fwd.sent == run[i + 1].fwd.received <==> run[i].fwd.buf == []
  {
    hide Step, Enabled;
    ClosedForGood(wnd, run, events, i + 1, j);
    StepClosesFd(wnd, run[i], events[i]);
    ForwardConservation(wnd, run, events, i + 1);
    var s := run[i + 1];
    assert s.fwd.sent == s.fwd.received ==> |s.fwd.buf| == 0;
  }

  // ---- two runs that lose a forward byte, both through the same four steps ----

  const BLOCKED := FlushResult(0, FlushEnd.Blocked)
  const RECEIVED := OPEN.(fwd := OPEN.fwd.(buf := [7], received := [7]), reactor := [FlushForward])
  const STUCK := RECEIVED.(fwd := RECEIVED.fwd.(wantWrite := true), link := Mod(OPEN.link, true, true), reactor := [])

  lemma StuckSteps()
    ensures Enabled(1, OPEN, Recv([7])) && Step(1, OPEN, Recv([7])) == RECEIVED
    ensures Enabled(1, RECEIVED, ReactorTask(BLOCKED)) && Step(1, RECEIVED, ReactorTask(BLOCKED)) == STUCK
  {
    ReceiveByte(OPEN, RECEIVED);
    BlockedFlush(RECEIVED, STUCK);
  }

  /**
   * The landing fd cannot take the byte it was given, then reports end of file. Its watcher is removed and the
   * byte stays in forwardBuf, although the session is open on both sides; and when the lwIP side has closed on
   * account of the end of file, the fd is closed with the byte unsent.
   */
  lemma EofStrandsForwardBytes() returns (run: seq<State>, events: seq<Event>)
    ensures IsRun(1, run, events) && |run| == 8
    ensures ForwardLive(run[4]) && !ForwardLive(run[5])
    ensures run[5].link.pcb && !run[5].link.closing && run[5].fwd.buf == [7] && run[5].reactor == []
    ensures run[7].link.fd == -1 && run[7].fwd.received == [7] && run[7].fwd.sent == []
  {
    hide Step, Enabled;
    var eof := Ready(true, false, false, false, ReadResult([], Eof), BLOCKED);
    events := [ReactorTask(NO_FLUSH), CONNECT, Recv([7]), ReactorTask(BLOCKED), FdReady(eof),
               StackTask(PumpResult(0, false)), ReactorTask(BLOCKED)];
    var s5 := STUCK.(link := STUCK.link.(watch := None), bwd := STUCK.bwd.(eofRead := true), stack := [FdEof]);
    var s6 := s5.(link := s5.link.(pcb := false, inTable := false), bwd := s5.bwd.(fdEof := true, drainClosed := true),
                  stack := [], reactor := [CloseFromReactor, CloseFromReactor]);
    var s7 := s6.(link := s6.link.(fd := -1, closing := true), reactor := [CloseFromReactor]);
    OpeningSteps();
    StuckSteps();
    ReadEof(STUCK, eof, s5);
    EofTask(s5, s6);
    CloseTask(s6, s7);
    run := [Started(0), WATCHED, OPEN, RECEIVED, STUCK, s5, s6, s7];
  }

  /** The other side closes while the landing fd cannot take the byte it was given: the fd is closed without it. */
  lemma CloseDropsForwardBytes() returns (run: seq<State>, events: seq<Event>)
    ensures IsRun(1, run, events) && |run| == 7 && events[4] == RecvClosed
    ensures run[4].link.pcb && run[4].link.fd >= 0 && ForwardLive(run[4])
    ensures run[6].link.fd == -1 && run[6].fwd.received == [7] && run[6].fwd.sent == []
  {
    hide Step, Enabled;
    events := [ReactorTask(NO_FLUSH), CONNECT, Recv([7]), ReactorTask(BLOCKED), RecvClosed, ReactorTask(BLOCKED)];
    var s5 := STUCK.(link := STUCK.link.(pcb := false, inTable := false), reactor := [CloseFromReactor]);
    var s6 := s5.(link := s5.link.(fd := -1, closing := true, watch := None), reactor := []);
    OpeningSteps();
    StuckSteps();
    PeerCloses(STUCK, s5);
    CloseTask(s5, s6);
    run := [Started(0), WATCHED, OPEN, RECEIVED, STUCK, s5, s6];
  }

  lemma PeerCloses(s: State, s': State)
    requires s.link.pcb && s.reactor == []
    requires s' == s.(link := s.link.(pcb := false, inTable := false), reactor := [CloseFromReactor])
    ensures Enabled(1, s, RecvClosed) && Step(1, s, RecvClosed) == s'
  {}

  lemma EofTask(s: State, s': State)
    requires s.stack == [FdEof] && s.link.pcb && s.bwd.buf == [] && !s.bwd.readPaused && s.reactor == []
    requires s' == s.(link := s.link.(pcb := false, inTable := false),
                      bwd := s.bwd.(fdEof := true, drainClosed := true),
                      stack := [], reactor := [CloseFromReactor, CloseFromReactor])
    ensures Enabled(1, s, StackTask(PumpResult(0, false))) && Step(1, s, StackTask(PumpResult(0, false))) == s'
  {
    assert s.bwd.written + s.bwd.buf[..0] == s.bwd.written;
  }

  lemma CloseTask(s: State, s': State)
    requires s.reactor != [] && s.reactor[0] == CloseFromReactor && !s.link.closing && !s.link.pcb && s.link.fd >= 0
    requires s.fwd.buf == [7]
    requires s' == s.(link := s.link.(fd := -1, closing := true, watch := None), reactor := s.reactor[1..])
    ensures Enabled(1, s, ReactorTask(BLOCKED)) && Step(1, s, ReactorTask(BLOCKED)) == s'
  {}

  // ---- two runs in which a pause and a resumption strand a forward byte ----

  const PUMPED := PumpResult(READ_CHUNK, false)

  function Writings(c: Bytes): seq<StackTask> { [WriteToLwip(c), WriteToLwip(c), WriteToLwip(c), WriteToLwip(c)] }

  /** The fd reports READ, and four full chunks take the backlog to the high-water mark. */
  function FullRead(c: Bytes, f: FlushResult): Ready {
    Ready(true, false, false, false, ReadResult([c, c, c, c], Paused), f)
  }

  function Repeated(c: Bytes, n: nat): Bytes { if n == 0 then [] else Repeated(c, n - 1) + c }

  /** The session when all it ever read are four chunks, `n` of them still on their way to lwIP. */
  function Backlog(s: State, c: Bytes, n: nat, paused: bool): State
    requires n <= 4
  {
    s.(bwd := s.bwd.(buf := [], count := n * READ_CHUNK, readPaused := paused, read := c + c + c + c,
                     written := Repeated(c, 4 - n)),
       stack := Writings(c)[..n])
  }

  lemma FourChunks(c: Bytes)
    ensures Flatten([c]) == c && Flatten([c, c]) == c + c
    ensures Flatten([c, c, c]) == c + c + c
    ensures Flatten([c, c, c, c]) == c + c + c + c
  {
    FlattenSnoc([], c);
    FlattenSnoc([c], c);
    FlattenSnoc([c, c], c);
    FlattenSnoc([c, c, c], c);
    assert [] + [c] == [c] && [c] + [c] == [c, c];
    assert [c, c] + [c] == [c, c, c];
    assert [c, c, c] + [c] == [c, c, c, c];
  }

  lemma FullReadAllowed(s: State, c: Bytes)
    requires |c| == READ_CHUNK && s.link.fd >= 0 && s.bwd.count == 0
    ensures ReadAllowed(s, ReadResult([c, c, c, c], Paused))
  {
    FourChunks(c);
    var chunks: seq<Bytes> := [c, c, c, c];
    assert Flatten<Byte>([]) == [];
    assert chunks[..0] == [] && chunks[..1] == [c] && chunks[..2] == [c, c] && chunks[..3] == [c, c, c];
    hide Flatten;
  }

  lemma PauseStep(s: State, c: Bytes, f: FlushResult)
    requires |c| == READ_CHUNK
    requires s.link.connected && s.link.fd >= 0 && s.link.watch.Some? && s.link.watch.value.read
    requires s.bwd == Backward([], 0, false, false, [], [], 0, false, false) && s.stack == [] && FlushAllowed(s.fwd, f)
    ensures Enabled(1, s, FdReady(FullRead(c, f)))
    ensures Step(1, s, FdReady(FullRead(c, f))) == Backlog(s.(link := Mod(s.link, false, false)), c, 4, true)
  {
    FullReadAllowed(s, c);
    FourChunks(c);
    hide Flatten, ReadAllowed;
    assert Writes([c, c, c, c]) == Writings(c) && Writings(c)[..4] == Writings(c);
    assert [] + (c + c + c + c) == c + c + c + c;
    assert [] + Writings(c) == Writings(c);
  }

  /** lwIP takes one chunk; at the low-water mark the resumption is queued. */
  lemma DrainStep(s: State, c: Bytes, n: nat)
    requires |c| == READ_CHUNK && 0 < n <= 4 && s.link.pcb && !s.bwd.fdEof
    ensures var b, t := Backlog(s, c, n, n > 1), Backlog(s, c, n - 1, n > 2);
            && Enabled(1, b, StackTask(PUMPED))
            && Step(1, b, StackTask(PUMPED)) == if n == 2 then t.(reactor := t.reactor + [ResumeRead(s.link.fd)]) else t
  {
    assert Writings(c)[..n][0] == WriteToLwip(c) && Writings(c)[..n][1..] == Writings(c)[..n - 1];
    assert [] + c == c && c[..READ_CHUNK] == c && c[READ_CHUNK..] == [];
  }

  lemma ResumeTask(s: State, s': State)
    requires s.reactor != [] && s.reactor[0] == ResumeRead(0) && !s.link.closing && s.fwd.buf == [7]
    requires s' == s.(link := Mod(s.link, true, false), reactor := s.reactor[1..])
    ensures Enabled(1, s, ReactorTask(BLOCKED)) && Step(1, s, ReactorTask(BLOCKED)) == s'
  {}

  /** Open on both sides, reading, with nothing on its way to lwIP and nothing queued; but a forward byte waits. */
  predicate Stalled(s: State) {
    && s.link == Link(true, true, 0, true, false, Some(Interest(true, false)))
    && !s.bwd.readPaused && !s.bwd.eofRead && s.bwd.count == 0
    && s.stack == [] && s.reactor == [] && s.fwd.buf == [7]
  }

  /**
   * A pause drops WRITE. While the landing fd cannot take the byte it was given, it delivers four chunks, and the
   * pause for them strands the byte; lwIP takes them all, reading resumes, and the session is left stalled.
   */
  lemma PauseStrands(c: Bytes) returns (run: seq<State>, events: seq<Event>)
    requires |c| == READ_CHUNK
    ensures IsRun(1, run, events) && |run| == 11
    ensures ForwardLive(run[4]) && Strands(run[4], events[4]) && !ForwardLive(run[5]) && Stalled(run[10])
  {
    hide Step, Enabled, Backlog;
    events := [ReactorTask(NO_FLUSH), CONNECT, Recv([7]), ReactorTask(BLOCKED), FdReady(FullRead(c, BLOCKED)),
               StackTask(PUMPED), StackTask(PUMPED), StackTask(PUMPED), StackTask(PUMPED), ReactorTask(BLOCKED)];
    var p := STUCK.(link := Mod(STUCK.link, false, false));
    var q := p.(reactor := [ResumeRead(0)]);
    var last := Backlog(q, c, 0, false);
    OpeningSteps();
    StuckSteps();
    PauseStep(STUCK, c, BLOCKED);
    DrainStep(p, c, 4);
    DrainStep(p, c, 3);
    DrainStep(p, c, 2);
    DrainStep(q, c, 1);
    BacklogIs(p, c, 4, true);
    BacklogIs(p, c, 1, false);
    BacklogIs(q, c, 1, false);
    BacklogIs(q, c, 0, false);
    var end := last.(link := Mod(last.link, true, false), reactor := []);
    ResumeTask(last, end);
    run := [Started(0), WATCHED, OPEN, RECEIVED, STUCK, Backlog(p, c, 4, true), Backlog(p, c, 3, true),
            Backlog(p, c, 2, true), Backlog(q, c, 1, false), last, end];
  }

  lemma BacklogIs(s: State, c: Bytes, n: nat, paused: bool)
    requires n <= 4
    ensures var b := Backlog(s, c, n, paused);
            && b.link == s.link && b.fwd == s.fwd && b.reactor == s.reactor
            && b.bwd.count == n * READ_CHUNK && b.bwd.readPaused == paused && b.bwd.eofRead == s.bwd.eofRead
            && (n == 0 ==> b.stack == [])
    ensures forall ts :: Backlog(s, c, n, paused).(reactor := ts) == Backlog(s.(reactor := ts), c, n, paused)
  {}

  /**
   * A resumption drops WRITE too. The byte comes during a pause and the landing fd cannot take it, so WRITE is
   * watched again; then the resumption that was queued in the meantime watches READ alone.
   */
  lemma ResumeStrands(c: Bytes) returns (run: seq<State>, events: seq<Event>)
    requires |c| == READ_CHUNK
    ensures IsRun(1, run, events) && |run| == 11
    ensures ForwardLive(run[9]) && Strands(run[9], events[9]) && !ForwardLive(run[10]) && Stalled(run[10])
  {
    hide Step, Enabled, Backlog;
    events := [ReactorTask(NO_FLUSH), CONNECT, FdReady(FullRead(c, NO_FLUSH)), Recv([7]), StackTask(PUMPED),
               StackTask(PUMPED), StackTask(PUMPED), StackTask(PUMPED), ReactorTask(BLOCKED), ReactorTask(BLOCKED)];
    var p := OPEN.(link := Mod(OPEN.link, false, false));
    var q := p.(fwd := p.fwd.(buf := [7], received := [7]), reactor := [FlushForward]);
    var r := q.(reactor := [FlushForward, ResumeRead(0)]);
    var last := Backlog(r, c, 0, false);
    OpeningSteps();
    PauseStep(OPEN, c, NO_FLUSH);
    BacklogIs(p, c, 4, true);
    BacklogIs(q, c, 4, true);
    SameBacklog(p, q, c, 4, true);
    ReceiveByte(Backlog(p, c, 4, true), Backlog(q, c, 4, true));
    DrainStep(q, c, 4);
    DrainStep(q, c, 3);
    DrainStep(q, c, 2);
    BacklogIs(q, c, 1, false);
    DrainStep(r, c, 1);
    BacklogIs(r, c, 0, false);
    var flushed := last.(fwd := last.fwd.(wantWrite := true), link := Mod(last.link, true, true),
                         reactor := [ResumeRead(0)]);
    BlockedFlush(last, flushed);
    var end := flushed.(link := Mod(flushed.link, true, false), reactor := []);
    ResumeTask(flushed, end);
    run := [Started(0), WATCHED, OPEN, Backlog(p, c, 4, true), Backlog(q, c, 4, true), Backlog(q, c, 3, true),
            Backlog(q, c, 2, true), Backlog(r, c, 1, false), last, flushed, end];
  }

  lemma SameBacklog(s: State, t: State, c: Bytes, n: nat, paused: bool)
    requires n <= 4 && t == s.(fwd := t.fwd, reactor := t.reactor)
    ensures Backlog(t, c, n, paused) == Backlog(s, c, n, paused).(fwd := t.fwd, reactor := t.reactor)
  {}

  lemma ReceiveByte(s: State, s': State)
    requires s.link.pcb && s.fwd.buf == [] && s.fwd.received == [] && s.fwd.acked == 0 && s.reactor == []
    requires s' == s.(fwd := s.fwd.(buf := [7], received := [7]), reactor := [FlushForward])
    ensures Enabled(1, s, Recv([7])) && Step(1, s, Recv([7])) == s'
  {}

  lemma BlockedFlush(s: State, s': State)
    requires s.reactor != [] && s.reactor[0] == FlushForward
    requires s.link.connected && s.link.fd >= 0 && s.link.watch.Some? && s.fwd.buf == [7]
    requires s' == s.(link := Mod(s.link, true, true), fwd := s.fwd.(wantWrite := true), reactor := s.reactor[1..])
    ensures Enabled(1, s, ReactorTask(FlushResult(0, Blocked)))
    ensures Step(1, s, ReactorTask(FlushResult(0, Blocked))) == s'
  {
    assert s.fwd.buf[0..] == s.fwd.buf && s.fwd.sent + s.fwd.buf[..0] == s.fwd.sent;
  }

  lemma ReadEof(s: State, eof: Ready, s': State)
    requires s.link.connected && s.link.watch == Some(Interest(true, true)) && s.link.fd >= 0 && s.bwd.count == 0
    requires s.stack == [] && s.fwd.buf == [7]
    requires eof == Ready(true, false, false, false, ReadResult([], Eof), FlushResult(0, Blocked))
    requires s' == s.(link := s.link.(watch := None), bwd := s.bwd.(eofRead := true), stack := [FdEof])
    ensures Enabled(1, s, FdReady(eof)) && Step(1, s, FdReady(eof)) == s'
  {
    assert Writes([]) == [] && s.bwd.read + [] == s.bwd.read;
  }
}
