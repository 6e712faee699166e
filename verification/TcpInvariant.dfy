/** What every step of a spliced TCP connection keeps. */
module TcpInvariant {
  import opened Prelude
  import opened TcpModel

  // ---- the FIFO queue of data ----

  lemma {:induction false} QueuedConcat(a: seq<StackTask>, b: seq<StackTask>)
    ensures Queued(a + b) == Queued(a) + Queued(b)
  {
    if a == [] {
      assert a + b == b;
    } else {
      QueuedConcat(a[1..], b);
      assert (a + b)[1..] == a[1..] + b;
    }
  }

  lemma {:induction false} QueuedWrites(chunks: seq<Bytes>)
    ensures Queued(Writes(chunks)) == Flatten(chunks)
  {
    if chunks != [] {
      QueuedWrites(chunks[1..]);
      assert Writes(chunks)[1..] == Writes(chunks[1..]);
    }
  }

  lemma QueuedPost(ts: seq<StackTask>, t: StackTask)
    ensures Queued(ts + [t]) == Queued(ts) + (if t.WriteToLwip? then t.data else [])
  {
    QueuedConcat(ts, [t]);
    assert Queued([t]) == (if t.WriteToLwip? then t.data else []) + Queued([]);
  }

  /** A read loop that may start below the mark ends below the mark plus one read. */
  lemma ReadBound(s: State, r: ReadResult)
    requires ReadAllowed(s, r) && s.bwd.count < HIGH_WATER + READ_CHUNK
    ensures s.bwd.count + |Flatten(r.chunks)| < HIGH_WATER + READ_CHUNK
  {
    var n := |r.chunks|;
    if n > 0 {
      FlattenSnoc(r.chunks[..n - 1], r.chunks[n - 1]);
      assert r.chunks == r.chunks[..n - 1] + [r.chunks[n - 1]];
    } else {
      assert r.chunks == [];
    }
  }

  // ---- the invariant ----

  /** The byte account towards lwIP, given the data still queued. */
  ghost predicate Account(b: Backward, queued: Bytes) {
    && b.count == |b.buf| + |queued|
    && |b.written| + b.count == |b.read| + b.duplicated
    && (b.duplicated == 0 ==> b.read == b.written + b.buf + queued)
  }

  ghost predicate BackwardOk(s: State) {
    && 0 <= s.bwd.count < HIGH_WATER + READ_CHUNK
    && (s.link.pcb ==> Account(s.bwd, Queued(s.stack)))
    && (s.bwd.drainClosed ==>
         && !s.link.pcb && s.bwd.eofRead && |s.bwd.written| == |s.bwd.read| + s.bwd.duplicated
         && (s.bwd.duplicated == 0 ==> s.bwd.written == s.bwd.read))
  }

  /** No data and no second end of file behind an end-of-file task. */
  ghost predicate EofLast(ts: seq<StackTask>) {
    ts != [] ==> if ts[0].FdEof? then NoData(ts[1..]) else EofLast(ts[1..])
  }

  ghost predicate NoData(ts: seq<StackTask>) {
    ts != [] ==> !ts[0].WriteToLwip? && !ts[0].FdEof? && NoData(ts[1..])
  }

  ghost predicate EofOk(s: State) {
    && EofLast(s.stack)
    && (!s.bwd.eofRead ==> !s.bwd.fdEof && FdEof !in s.stack)
    && (s.bwd.fdEof ==> NoData(s.stack))
    && (s.bwd.eofRead ==> s.link.watch.None? && s.link.connected)
  }

  /** The byte account towards the landing fd. */
  ghost predicate ForwardOk(wnd: nat, s: State) {
    && s.fwd.received == s.fwd.sent + s.fwd.buf
    && s.fwd.acked + s.fwd.pending + |s.fwd.buf| <= |s.fwd.received|
    && (!s.link.closing ==> s.fwd.acked + s.fwd.pending + |s.fwd.buf| == |s.fwd.received|)
    && |s.fwd.received| - s.fwd.acked <= wnd
    && (s.link.pcb && s.fwd.pending > 0 ==> AckRecved in s.stack)
  }

  /** The fd, its watcher, and what is queued to create or remove it. */
  ghost predicate WatchOk(s: State) {
    && s.link.fd >= -1
    && (!s.link.closing ==> s.link.fd >= 0)
    && (forall i :: 0 < i < |s.reactor| ==> !s.reactor[i].AddWatch?)
    && (s.reactor != [] && s.reactor[0].AddWatch? ==> !s.link.connected && s.link.watch.None?)
    && (!s.link.closing ==> DelWatch !in s.reactor && ShutdownFd !in s.reactor)
    && (!s.link.closing && !s.bwd.eofRead ==> s.link.watch.Some? || (s.reactor != [] && s.reactor[0].AddWatch?))
  }

  /** Reading is on, or legitimately off, or about to be switched on again. */
  ghost predicate ReadingOk(s: State) {
    s.link.connected && !s.link.closing && !s.bwd.eofRead ==>
      && s.link.watch.Some?
      && (|| s.link.watch.value.read || (s.bwd.readPaused && s.bwd.count > LOW_WATER)
          || ResumeRead(s.link.fd) in s.reactor)
  }

  ghost predicate Unwatched(s: State) {
    s.link.watch.None? && (s.reactor != [] ==> !s.reactor[0].AddWatch?)
  }

  /** Once one side is gone the other is closed, or a task that closes it is queued. */
  ghost predicate TeardownOk(s: State) {
    && (s.link.inTable <==> s.link.pcb)
    && (!s.link.pcb ==> s.link.fd == -1 || CloseFromReactor in s.reactor || ShutdownFd in s.reactor)
    && (s.link.closing ==> s.link.fd == -1 || ShutdownFd in s.reactor)
    && (s.link.fd == -1 ==> Unwatched(s) || DelWatch in s.reactor)
    && (s.link.closing ==> !s.link.pcb || CloseFromStack in s.stack)
  }

  ghost predicate DataOk(s: State) { BackwardOk(s) && EofOk(s) }

  ghost predicate ControlOk(s: State) { WatchOk(s) && ReadingOk(s) && TeardownOk(s) }

  ghost predicate Inv(wnd: nat, s: State) { DataOk(s) && ForwardOk(wnd, s) && ControlOk(s) }

  // ---- lemmas about the queue ----

  lemma {:induction false} NoDataMeans(ts: seq<StackTask>)
    requires NoData(ts)
    ensures Queued(ts) == [] && EofLast(ts)
  {
    if ts != [] { NoDataMeans(ts[1..]); }
  }

  lemma {:induction false} NoDataPost(ts: seq<StackTask>, t: StackTask)
    requires NoData(ts) && !t.WriteToLwip? && !t.FdEof?
    ensures NoData(ts + [t])
  {
    if ts != [] {
      NoDataPost(ts[1..], t);
      assert (ts + [t])[1..] == ts[1..] + [t];
    }
  }

  /** Posting keeps the end of file last, if it posts no data or nothing but data came before. */
  lemma {:induction false} EofLastPost(ts: seq<StackTask>, t: StackTask)
    requires EofLast(ts) && ((!t.WriteToLwip? && !t.FdEof?) || FdEof !in ts)
    ensures EofLast(ts + [t])
  {
    if ts != [] {
      assert (ts + [t])[1..] == ts[1..] + [t];
      if ts[0].FdEof? {
        NoDataPost(ts[1..], t);
      } else {
        EofLastPost(ts[1..], t);
      }
    }
  }

  lemma {:induction false} EofLastWrites(ts: seq<StackTask>, chunks: seq<Bytes>)
    requires EofLast(ts) && FdEof !in ts
    ensures EofLast(ts + Writes(chunks)) && FdEof !in ts + Writes(chunks)
  {
    if chunks == [] {
      assert ts + Writes(chunks) == ts;
    } else {
      var n := |chunks| - 1;
      EofLastWrites(ts, chunks[..n]);
      EofLastPost(ts + Writes(chunks[..n]), WriteToLwip(chunks[n]));
      assert ts + Writes(chunks) == ts + Writes(chunks[..n]) + [WriteToLwip(chunks[n])];
    }
  }

  /** A task that carries no data may be posted without touching either account. */
  lemma PostData(s: State, t: StackTask)
    requires DataOk(s) && !t.WriteToLwip? && !t.FdEof?
    ensures DataOk(s.(stack := s.stack + [t]))
  {
    QueuedPost(s.stack, t);
    EofLastPost(s.stack, t);
    if s.bwd.fdEof { NoDataPost(s.stack, t); }
  }

  // ---- every step keeps it ----

  lemma StartedInv(wnd: nat, fd: nat)
    ensures Inv(wnd, Started(fd))
  {}

  lemma CloseFromStackInv(wnd: nat, s: State)
    requires Inv(wnd, s)
    ensures Inv(wnd, AfterCloseFromStack(s))
  {}

  lemma CloseFromReactorData(s: State, onReactor: bool)
    requires DataOk(s)
    ensures DataOk(AfterCloseFromReactor(s, onReactor))
  {
    PostData(s, CloseFromStack);
  }

  /** On the reactor thread AddWatch has always run already: it is the first task of all. */
  lemma CloseFromReactorControl(s: State, onReactor: bool)
    requires WatchOk(s) && (s.link.inTable <==> s.link.pcb)
    requires s.link.closing ==> TeardownOk(s)
    requires onReactor && s.reactor != [] ==> !s.reactor[0].AddWatch?
    ensures ControlOk(AfterCloseFromReactor(s, onReactor))
  {}

  lemma PumpedAccount(b: Backward, queued: Bytes, p: PumpResult)
    requires Account(b, queued) && PumpAllowed(b, p)
    ensures Account(Pumped(b, p), queued)
  {
    var done, rest := b.buf[..p.accepted], b.buf[p.accepted..];
    assert b.buf == done + rest;
    assert b.written + b.buf + queued == (b.written + done) + rest + queued;
  }

  lemma PumpData(s: State, p: PumpResult)
    requires DataOk(s) && (s.link.pcb ==> PumpAllowed(s.bwd, p))
    ensures DataOk(AfterPump(s, p))
  {
    if s.link.pcb {
      PumpedAccount(s.bwd, Queued(s.stack), p);
      if s.bwd.fdEof { NoDataMeans(s.stack); }
    }
  }

  lemma PumpControl(s: State, p: PumpResult)
    requires ControlOk(s) && (s.link.pcb ==> PumpAllowed(s.bwd, p))
    ensures ControlOk(AfterPump(s, p))
  {
    if s.link.pcb && !p.fatal {
      var s1 := s.(bwd := Pumped(s.bwd, p));
      assert ControlOk(AfterUpdateReadInterest(s1));
    }
  }

  lemma PumpInv(wnd: nat, s: State, p: PumpResult)
    requires Inv(wnd, s) && (s.link.pcb ==> PumpAllowed(s.bwd, p))
    ensures Inv(wnd, AfterPump(s, p))
  {
    PumpData(s, p);
    PumpControl(s, p);
  }

  lemma WriteToLwipInv(wnd: nat, s: State, p: PumpResult)
    requires Inv(wnd, s) && s.stack != [] && s.stack[0].WriteToLwip? && StackTaskAllowed(s, s.stack[0], p)
    ensures Inv(wnd, AfterStackTask(PopStack(s), s.stack[0], p))
  {
    if s.link.pcb {
      var b := Appended(s.bwd, s.stack[0].data);
      assert s.bwd.written + s.bwd.buf + Queued(s.stack) == b.written + b.buf + Queued(s.stack[1..]);
      PumpInv(wnd, PopStack(s).(bwd := b), p);
    }
  }

  lemma FdEofInv(wnd: nat, s: State, p: PumpResult)
    requires Inv(wnd, s) && s.stack != [] && s.stack[0].FdEof? && StackTaskAllowed(s, s.stack[0], p)
    ensures Inv(wnd, AfterStackTask(PopStack(s), s.stack[0], p))
  {
    NoDataMeans(s.stack[1..]);
    var s1 := PopStack(s).(bwd := s.bwd.(fdEof := true));
    PumpInv(wnd, s1, p);
    CloseFromStackInv(wnd, AfterPump(s1, p));
  }

  lemma CloseFromStackTaskInv(wnd: nat, s: State)
    requires Inv(wnd, s) && s.stack != [] && s.stack[0].CloseFromStack?
    ensures Inv(wnd, AfterCloseFromStack(PopStack(s)))
  {}

  lemma AckRecvedInv(wnd: nat, s: State)
    requires Inv(wnd, s) && s.stack != [] && s.stack[0].AckRecved?
    ensures Inv(wnd, AfterAckRecved(PopStack(s)))
  {}

  lemma StackTaskInv(wnd: nat, s: State, p: PumpResult)
    requires Inv(wnd, s) && s.stack != [] && StackTaskAllowed(s, s.stack[0], p)
    ensures Inv(wnd, AfterStackTask(PopStack(s), s.stack[0], p))
  {
    match s.stack[0]
    case WriteToLwip(_) => WriteToLwipInv(wnd, s, p);
    case FdEof => FdEofInv(wnd, s, p);
    case AckRecved => AckRecvedInv(wnd, s);
    case CloseFromStack => CloseFromStackTaskInv(wnd, s);
  }

  lemma RecvInv(wnd: nat, s: State, data: Bytes)
    requires Inv(wnd, s) && Enabled(wnd, s, Recv(data))
    ensures Inv(wnd, AfterRecv(s, data))
  {}

  lemma ErrInv(wnd: nat, s: State)
    requires Inv(wnd, s) && s.link.pcb
    ensures Inv(wnd, AfterErr(s))
  {
    var s1 := s.(link := LwipGone(s.link));
    CloseFromReactorData(s1, false);
    CloseFromReactorControl(s1, false);
  }

  lemma ShutdownInv(wnd: nat, s: State)
    requires Inv(wnd, s)
    ensures Inv(wnd, AfterShutdown(s))
  {}

  lemma FlushData(s: State, r: FlushResult)
    requires DataOk(s) && FlushAllowed(s.fwd, r)
    ensures DataOk(AfterFlush(s, r))
  {
    PostData(s, AckRecved);
    PostData(s, CloseFromStack);
  }

  lemma FlushForwardOk(wnd: nat, s: State, r: FlushResult)
    requires ForwardOk(wnd, s) && FlushAllowed(s.fwd, r)
    ensures ForwardOk(wnd, AfterFlush(s, r))
  {
    assert s.fwd.buf == s.fwd.buf[..r.sent] + s.fwd.buf[r.sent..];
  }

  lemma FlushControl(s: State, r: FlushResult)
    requires ControlOk(s) && FlushAllowed(s.fwd, r) && (s.reactor != [] ==> !s.reactor[0].AddWatch?)
    ensures ControlOk(AfterFlush(s, r))
  {}

  lemma FlushInv(wnd: nat, s: State, r: FlushResult)
    requires Inv(wnd, s) && FlushAllowed(s.fwd, r) && (s.reactor != [] ==> !s.reactor[0].AddWatch?)
    ensures Inv(wnd, AfterFlush(s, r))
  {
    FlushData(s, r);
    FlushForwardOk(wnd, s, r);
    FlushControl(s, r);
  }

  lemma ReadData(s: State, r: ReadResult)
    requires DataOk(s) && ReadAllowed(s, r) && s.link.connected && s.link.watch.Some?
    ensures DataOk(AfterRead(s, r))
  {
    hide Flatten, Writes, Queued, EofLast, NoData, ReadAllowed;
    ReadBound(s, r);
    QueuedWrites(r.chunks);
    QueuedConcat(s.stack, Writes(r.chunks));
    EofLastWrites(s.stack, r.chunks);
    var b, ts := ReadIn(s.bwd, Flatten(r.chunks)), s.stack + Writes(r.chunks);
    assert s.bwd.written + s.bwd.buf + Queued(s.stack) + Flatten(r.chunks) == b.written + b.buf + Queued(ts);
    QueuedPost(ts, FdEof);
    EofLastPost(ts, FdEof);
    PostData(s.(bwd := b, stack := ts), CloseFromStack);
  }

  lemma ReadForward(wnd: nat, s: State, r: ReadResult)
    requires ForwardOk(wnd, s)
    ensures ForwardOk(wnd, AfterRead(s, r))
  {}

  lemma ReadControl(s: State, r: ReadResult)
    requires ControlOk(s) && ReadAllowed(s, r) && s.link.connected && s.link.watch.Some?
    ensures ControlOk(AfterRead(s, r))
  {}

  lemma ReadInv(wnd: nat, s: State, r: ReadResult)
    requires Inv(wnd, s) && ReadAllowed(s, r) && s.link.connected && s.link.watch.Some?
    ensures Inv(wnd, AfterRead(s, r))
  {
    ReadData(s, r);
    ReadForward(wnd, s, r);
    ReadControl(s, r);
  }

  lemma FdReadyInv(wnd: nat, s: State, e: Ready)
    requires Inv(wnd, s) && Enabled(wnd, s, FdReady(e))
    ensures Inv(wnd, AfterFdEvent(s, e))
  {
    if !s.link.connected {
      CloseFromReactorData(s, true);
      CloseFromReactorControl(s, true);
      if !e.failure && e.write && !e.sockError {
        FlushInv(wnd, s.(link := Mod(s.link.(connected := true), true, false)), e.f);
      }
    } else {
      if e.read || e.failure { ReadInv(wnd, s, e.r); }
      if e.write { FlushInv(wnd, AfterReadPart(s, e), e.f); }
    }
  }

  /** The four tasks that only touch the watcher or close the fd during teardown. */
  predicate WatchTask(t: ReactorTask) { t.AddWatch? || t.DelWatch? || t.ResumeRead? || t.ShutdownFd? }

  lemma WatchTaskControl(s: State, f: FlushResult)
    requires ControlOk(s) && s.reactor != [] && FlushAllowed(s.fwd, f) && WatchTask(s.reactor[0])
    ensures ControlOk(AfterReactorTask(PopReactor(s), s.reactor[0], f))
  {}

  lemma WatchTaskInv(wnd: nat, s: State, f: FlushResult)
    requires Inv(wnd, s) && s.reactor != [] && FlushAllowed(s.fwd, f) && WatchTask(s.reactor[0])
    ensures Inv(wnd, AfterReactorTask(PopReactor(s), s.reactor[0], f))
  {
    WatchTaskControl(s, f);
    var s' := AfterReactorTask(PopReactor(s), s.reactor[0], f);
    assert s'.fwd == s.fwd && s'.bwd == s.bwd && s'.stack == s.stack;
  }

  lemma ReactorTaskInv(wnd: nat, s: State, f: FlushResult)
    requires Inv(wnd, s) && s.reactor != [] && FlushAllowed(s.fwd, f)
    ensures Inv(wnd, AfterReactorTask(PopReactor(s), s.reactor[0], f))
  {
    var s1 := PopReactor(s);
    match s.reactor[0]
    case FlushForward => FlushInv(wnd, s1, f);
    case CloseFromReactor =>
      CloseFromReactorData(s1, true);
      CloseFromReactorControl(s1, true);
    case _ => WatchTaskInv(wnd, s, f);
  }

  lemma StepInv(wnd: nat, s: State, e: Event)
    requires Inv(wnd, s) && Enabled(wnd, s, e)
    ensures Inv(wnd, Step(wnd, s, e))
  {
    match e
    case Recv(data) => RecvInv(wnd, s, data);
    case RecvClosed => CloseFromStackInv(wnd, s);
    case Sent(p) => PumpInv(wnd, s, p);
    case Err => ErrInv(wnd, s);
    case StackTask(p) => StackTaskInv(wnd, s, p);
    case Shutdown => ShutdownInv(wnd, s);
    case FdReady(r) => FdReadyInv(wnd, s, r);
    case ReactorTask(f) => ReactorTaskInv(wnd, s, f);
  }

  lemma {:induction false} RunInv(wnd: nat, run: seq<State>, events: seq<Event>, i: nat)
    requires IsRun(wnd, run, events) && i < |run|
    ensures Inv(wnd, run[i])
  {
    if i > 0 {
      RunInv(wnd, run, events, i - 1);
      StepInv(wnd, run[i - 1], events[i - 1]);
    } else {
      var fd: nat :| run[0] == Started(fd);
      StartedInv(wnd, fd);
    }
  }
}
