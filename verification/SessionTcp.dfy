/**
 * SessionTcp: the handlers of session_tcp.cc, each proved to do what TcpModel says. The loops of pumpToLwip,
 * flushForwardLocked and onFdReadable are methods of their own. lwIP and the kernel have arbitrary answers.
 */
module SessionTcps {
  import opened Prelude
  import opened TcpModel
  import opened TcpTheorems

  datatype LwipError = ERR_OK | ERR_MEM | ERR_OTHER

  /** What lwIP, the poll loop and the two queues do to a session; the answers of lwIP and the kernel come later. */
  datatype Call =
    | Deliver(data: Bytes)
    | PeerClosed
    | SpaceFreed
    | Abort
    | Teardown
    | PollFd(ev: Ready, kernel: Bytes)
    | RunStack
    | RunReactor

  class SessionTcp {
    // The fields of the C++ class, grouped by what they belong to, each with its history.
    var link: Link
    var fwd: Forward
    var bwd: Backward

    // This session's share of NetStack::stackTasks and Reactor::tasks.
    var stackTasks: seq<StackTask>
    var reactorTasks: seq<ReactorTask>

    // lwIP's receive window, and the run of the session so far.
    ghost const wnd: nat
    ghost var events: seq<Event>
    ghost var run: seq<State>

    ghost function Abs(): State
      reads this
    {
      State(link, fwd, bwd, stackTasks, reactorTasks)
    }

    ghost predicate Valid()
      reads this
    {
      IsRun(wnd, run, events) && run[|events|] == Abs()
    }

    /** The constructor, then start() with the fd that the dial returned. */
    constructor (dialed: int, ghost wnd: nat)
      requires dialed >= 0
      ensures Valid() && Abs() == Started(dialed) && events == [] && this.wnd == wnd
    {
      this.wnd, events, run := wnd, [], [Started(dialed)];
      link := Link(true, true, dialed, false, false, None);
      fwd := Forward([], false, 0, [], [], 0);
      bwd := Backward([], 0, false, false, [], [], 0, false, false);
      stackTasks, reactorTasks := [], [AddWatch];
    }

    // ---- lwIP and the kernel: any answer they may give ----

    static method TcpSndbuf() returns (space: nat)
      ensures space <= 0xFFFF
    {
      space :| space <= 0xFFFF;
    }

    /** tcp_write takes no more than the send buffer has room for. */
    static method TcpWrite(space: nat, chunk: Bytes) returns (e: LwipError, taken: Bytes)
      requires 0 < |chunk| <= space <= 0xFFFF
      ensures taken == if e == ERR_OK then chunk else []
    {
      e := *;
      taken := if e == ERR_OK then chunk else [];
    }

    static method TcpRecved(len: nat) returns (window: nat)
      requires len <= 0xFFFF
      ensures window == len
    {
      window := len;
    }

    /** send(): a count, or -1 with EWOULDBLOCK or another error. */
    static method NetSend(data: Bytes) returns (n: int, wouldBlock: bool, taken: Bytes)
      ensures -1 <= n <= |data|
      ensures taken == if n > 0 then data[..n] else []
    {
      n, wouldBlock :| -1 <= n <= |data|;
      taken := if n > 0 then data[..n] else [];
    }

    /** recv(): some of the bytes the kernel holds, 0 at end of file, -1 with an error; a closed fd errs. */
    static method NetRecv(fd: int, kernel: Bytes) returns (n: int, wouldBlock: bool, data: Bytes)
      ensures -1 <= n <= READ_CHUNK && n <= |kernel|
      ensures fd < 0 ==> n == -1 && !wouldBlock
      ensures data == if n > 0 then kernel[..n] else []
    {
      if fd < 0 {
        n, wouldBlock := -1, false;
      } else {
        n, wouldBlock :| -1 <= n <= READ_CHUNK && n <= |kernel|;
      }
      data := if n > 0 then kernel[..n] else [];
    }

    // ---- NetStack thread ----

    method OnRecv(data: Bytes)
      modifies `link, `fwd, `bwd, `stackTasks, `reactorTasks
      ensures Abs() == AfterRecv(old(Abs()), data)
    {
      fwd := fwd.(buf := fwd.buf + data, received := fwd.received + data);
      reactorTasks := reactorTasks + [FlushForward];
    }

    method OnRecvClosed()
      modifies `link, `fwd, `bwd, `stackTasks, `reactorTasks
      ensures Abs() == AfterCloseFromStack(old(Abs()))
    {
      CloseFromStack();
    }

    method OnSent() returns (p: PumpResult)
      requires link.pcb
      modifies `link, `fwd, `bwd, `stackTasks, `reactorTasks
      ensures PumpAllowed(old(bwd), p) && Abs() == AfterPump(old(Abs()), p)
    {
      p := PumpToLwip();
    }

    method OnErr()
      requires link.pcb
      modifies `link, `fwd, `bwd, `stackTasks, `reactorTasks
      ensures Abs() == AfterErr(old(Abs()))
    {
      var deadPcb := link.pcb;
      link := link.(pcb := false);
      if deadPcb { link := link.(inTable := false); }
      CloseFromReactor(false);
    }

    method WriteToLwip(data: Bytes) returns (p: PumpResult)
      modifies `link, `fwd, `bwd, `stackTasks, `reactorTasks
      ensures old(link.pcb) ==> PumpAllowed(Appended(old(bwd), data), p)
      ensures Abs() == AfterWriteToLwip(old(Abs()), data, p)
    {
      if !link.pcb { return PumpResult(0, false); }
      bwd := bwd.(buf := bwd.buf + data);
      p := PumpToLwip();
    }

    /** The loop of pumpToLwip: hands lwIP a prefix of the buffer, in pieces that fit its send buffer. */
    method FillSendBuffer() returns (offset: nat, fatal: bool, taken: Bytes)
      ensures PumpAllowed(bwd, PumpResult(offset, fatal)) && taken == bwd.buf[..offset]
    {
      offset, fatal, taken := 0, false, [];
      while offset < |bwd.buf|
        invariant offset <= |bwd.buf| && !fatal && taken == bwd.buf[..offset]
        decreases |bwd.buf| - offset
      {
        var space := TcpSndbuf();
        if space == 0 { break; }
        var chunk := if space < |bwd.buf| - offset then space else |bwd.buf| - offset;
        var e, more := TcpWrite(space, bwd.buf[offset..offset + chunk]);
        if e == ERR_MEM { break; }
        if e != ERR_OK {
          fatal := true;
          return;
        }
        taken := taken + more;
        offset := offset + chunk;
      }
    }

    method PumpToLwip() returns (p: PumpResult)
      modifies `link, `fwd, `bwd, `stackTasks, `reactorTasks
      ensures old(link.pcb) ==> PumpAllowed(old(bwd), p)
      ensures Abs() == AfterPump(old(Abs()), p)
    {
      hide AfterCloseFromStack, AfterUpdateReadInterest;
      p := PumpResult(0, false);
      if !link.pcb { return; }
      var offset, fatal, taken := FillSendBuffer();
      p := PumpResult(offset, fatal);
      bwd := bwd.(written := bwd.written + taken);
      if fatal {
        bwd := bwd.(duplicated := bwd.duplicated + offset);
        return;
      }
      if offset > 0 {
        bwd := bwd.(buf := bwd.buf[offset..], count := bwd.count - offset);
      }
      UpdateReadInterest();
      if bwd.fdEof && |bwd.buf| == 0 {
        bwd := bwd.(drainClosed := true);
        CloseFromStack();
      }
    }

    method OnFdEofFromStack() returns (p: PumpResult)
      modifies `link, `fwd, `bwd, `stackTasks, `reactorTasks
      ensures old(link.pcb) ==> PumpAllowed(old(bwd), p)
      ensures Abs() == AfterFdEof(old(Abs()), p)
    {
      bwd := bwd.(fdEof := true);
      p := PumpToLwip();
      if |bwd.buf| == 0 { CloseFromStack(); }
    }

    /** The exchanged total is acknowledged in chunks that fit in lwIP's u16_t. */
    method AckRecvedToLwip()
      modifies `fwd
      ensures Abs() == AfterAckRecved(old(Abs()))
    {
      if !link.pcb { return; }
      var remaining: int := fwd.pending;
      fwd := fwd.(pending := 0);
      if remaining == 0 { return; }
      var total := 0;
      while remaining > 0
        invariant fwd == old(fwd).(pending := 0)
        invariant remaining >= 0 && total >= 0 && total + remaining == old(fwd.pending)
      {
        var chunk := if remaining < 0xFFFF then remaining else 0xFFFF;
        var window := TcpRecved(chunk);
        total := total + window;
        remaining := remaining - chunk;
      }
      fwd := fwd.(acked := fwd.acked + total);
    }

    method UpdateReadInterest()
      modifies `link, `fwd, `bwd, `stackTasks, `reactorTasks
      ensures Abs() == AfterUpdateReadInterest(old(Abs()))
    {
      if bwd.readPaused && bwd.count <= LOW_WATER {
        bwd := bwd.(readPaused := false);
        reactorTasks := reactorTasks + [ResumeRead(link.fd)];
      }
    }

    method CloseFromStack()
      modifies `link, `fwd, `bwd, `stackTasks, `reactorTasks
      ensures Abs() == AfterCloseFromStack(old(Abs()))
    {
      var closedPcb := link.pcb;
      link := link.(pcb := false);
      reactorTasks := reactorTasks + [ReactorTask.CloseFromReactor];
      if closedPcb { link := link.(inTable := false); }
    }

    method ShutdownFromStack()
      modifies `link, `fwd, `bwd, `stackTasks, `reactorTasks
      ensures Abs() == AfterShutdown(old(Abs()))
    {
      link := link.(pcb := false);
      if !link.closing {
        link := link.(closing := true);
        reactorTasks := reactorTasks + [ShutdownFd];
      }
      link := link.(inTable := false);
    }

    // ---- Reactor thread ----

    method OnFdEvent(ev: Ready, kernel: Bytes) returns (e: Ready)
      modifies `link, `fwd, `bwd, `stackTasks, `reactorTasks
      ensures e.(r := ev.r, f := ev.f) == ev && FlushAllowed(old(fwd), e.f)
      ensures old(link.connected) && (e.read || e.failure) ==> ReadAllowed(old(Abs()), e.r)
      ensures Abs() == AfterFdEvent(old(Abs()), e)
    {
      e := ev.(f := FlushResult(|fwd.buf|, Drained));
      if !link.connected {
        if ev.failure {
          CloseFromReactor(true);
          return;
        }
        if ev.write {
          var f := OnConnected(ev.sockError);
          e := e.(f := f);
        }
        return;
      }
      if ev.read || ev.failure {
        var r := OnFdReadable(kernel);
        e := e.(r := r);
      }
      if ev.write {
        var f := FlushForwardLocked();
        e := e.(f := f);
      }
    }

    method OnConnected(sockError: bool) returns (f: FlushResult)
      modifies `link, `fwd, `bwd, `stackTasks, `reactorTasks
      ensures FlushAllowed(old(fwd), f)
      ensures Abs() == AfterConnected(old(Abs()), sockError, f)
    {
      if sockError {
        CloseFromReactor(true);
        return FlushResult(|fwd.buf|, Drained);
      }
      link := link.(connected := true);
      link := Mod(link, true, false);
      f := FlushForwardLocked();
    }

    /** The loop of flushForwardLocked: sends a prefix of the buffer until it is empty or the fd refuses. */
    method SendLoop() returns (accepted: nat, end: FlushEnd, taken: Bytes)
      modifies `fwd
      ensures FlushAllowed(old(fwd), FlushResult(accepted, end)) && taken == old(fwd.buf)[..accepted]
      ensures fwd == old(fwd).(buf := old(fwd.buf)[accepted..])
    {
      accepted, end, taken := 0, Drained, [];
      ghost var before := fwd.buf;
      while |fwd.buf| > 0
        invariant accepted <= |before| && taken == before[..accepted]
        invariant fwd == old(fwd).(buf := before[accepted..])
        decreases |fwd.buf|
      {
        var n, wouldBlock, more := NetSend(fwd.buf);
        if n > 0 {
          taken := taken + more;
          fwd := fwd.(buf := fwd.buf[n..]);
          accepted := accepted + n;
          continue;
        }
        end := if n < 0 && wouldBlock then Blocked else SendFailed;
        return;
      }
    }

    method FlushForwardLocked() returns (f: FlushResult)
      modifies `link, `fwd, `bwd, `stackTasks, `reactorTasks
      ensures FlushAllowed(old(fwd), f)
      ensures Abs() == AfterFlush(old(Abs()), f)
    {
      if link.fd < 0 || !link.connected { return FlushResult(|fwd.buf|, Drained); }
      var accepted, end, taken := SendLoop();
      f := FlushResult(accepted, end);
      fwd := fwd.(sent := fwd.sent + taken);
      if end == SendFailed {
        CloseFromReactor(true);
        return;
      }
      if end == Blocked {
        fwd := fwd.(wantWrite := true);
        link := Mod(link, true, true);
      }
      if |fwd.buf| == 0 && fwd.wantWrite {
        fwd := fwd.(wantWrite := false);
        link := Mod(link, true, false);
      }
      if accepted > 0 {
        fwd := fwd.(pending := fwd.pending + accepted);
        stackTasks := stackTasks + [AckRecved];
      }
    }

    static lemma OneMoreChunk(chunks: seq<Bytes>, data: Bytes, count: int)
      requires forall i :: 0 <= i < |chunks| ==> count + |Flatten(chunks[..i])| < HIGH_WATER
      requires count + |Flatten(chunks)| < HIGH_WATER
      ensures Flatten(chunks + [data]) == Flatten(chunks) + data
      ensures Writes(chunks + [data]) == Writes(chunks) + [StackTask.WriteToLwip(data)]
      ensures forall i :: 0 <= i < |chunks + [data]| ==> count + |Flatten((chunks + [data])[..i])| < HIGH_WATER
    {
      hide Flatten;
      FlattenSnoc(chunks, data);
      assert forall i :: 0 <= i <= |chunks| ==> (chunks + [data])[..i] == chunks[..i];
      assert chunks[..|chunks|] == chunks;
    }

    /** The loop of onFdReadable: reads and posts until the high-water mark, end of file or an error. */
    method ReadLoop(kernel: Bytes) returns (end: ReadEnd, chunks: seq<Bytes>)
      modifies `bwd, `stackTasks
      ensures ReadAllowed(old(Abs()), ReadResult(chunks, end))
      ensures bwd == ReadIn(old(bwd), Flatten(chunks))
      ensures stackTasks == old(stackTasks) + Writes(chunks)
    {
      hide Writes;
      var at := 0;
      chunks := [];
      while bwd.count < HIGH_WATER
        invariant at <= |kernel|
        invariant bwd == ReadIn(old(bwd), Flatten(chunks))
        invariant stackTasks == old(stackTasks) + Writes(chunks)
        invariant forall i :: 0 <= i < |chunks| ==> 0 < |chunks[i]| <= READ_CHUNK
        invariant forall i :: 0 <= i < |chunks| ==> old(bwd.count) + |Flatten(chunks[..i])| < HIGH_WATER
        invariant link.fd < 0 ==> chunks == []
        decreases |kernel| - at
      {
        var n, wouldBlock, data := NetRecv(link.fd, kernel[at..]);
        if n <= 0 {
          end := if n == 0 then Eof else if wouldBlock then WouldBlock else RecvFailed;
          return;
        }
        bwd := bwd.(count := bwd.count + n, read := bwd.read + data);
        stackTasks := stackTasks + [StackTask.WriteToLwip(data)];
        OneMoreChunk(chunks, data, old(bwd.count));
        chunks := chunks + [data];
        at := at + n;
      }
      end := Paused;
    }

    method OnFdReadable(kernel: Bytes) returns (r: ReadResult)
      modifies `link, `fwd, `bwd, `stackTasks, `reactorTasks
      ensures ReadAllowed(old(Abs()), r)
      ensures Abs() == AfterRead(old(Abs()), r)
    {
      var end, chunks := ReadLoop(kernel);
      r := ReadResult(chunks, end);
      match end
      case Paused =>
        bwd := bwd.(readPaused := true);
        link := Mod(link, false, false);
      case Eof =>
        stackTasks := stackTasks + [FdEof];
        link := link.(watch := None);
        bwd := bwd.(eofRead := true);
      case WouldBlock =>
      case RecvFailed => CloseFromReactor(true);
    }

    method CloseFromReactor(onReactor: bool)
      modifies `link, `fwd, `bwd, `stackTasks, `reactorTasks
      ensures Abs() == AfterCloseFromReactor(old(Abs()), onReactor)
    {
      if link.closing { return; }
      link := link.(closing := true);
      if link.fd >= 0 {
        if onReactor {
          link := link.(watch := None);
        } else {
          reactorTasks := reactorTasks + [DelWatch];
        }
        link := link.(fd := -1);
      }
      if link.pcb { stackTasks := stackTasks + [StackTask.CloseFromStack]; }
    }

    // ---- one turn of each thread's queue ----

    method RunStackTask() returns (p: PumpResult)
      requires stackTasks != []
      modifies `link, `fwd, `bwd, `stackTasks, `reactorTasks
      ensures StackTaskAllowed(old(Abs()), old(stackTasks[0]), p)
      ensures Abs() == AfterStackTask(PopStack(old(Abs())), old(stackTasks[0]), p)
    {
      var t := stackTasks[0];
      stackTasks := stackTasks[1..];
      p := PumpResult(0, false);
      match t
      case WriteToLwip(data) => p := WriteToLwip(data);
      case FdEof => p := OnFdEofFromStack();
      case AckRecved => AckRecvedToLwip();
      case CloseFromStack => CloseFromStack();
    }

    method RunReactorTask() returns (f: FlushResult)
      requires reactorTasks != []
      modifies `link, `fwd, `bwd, `stackTasks, `reactorTasks
      ensures FlushAllowed(old(fwd), f)
      ensures Abs() == AfterReactorTask(PopReactor(old(Abs())), old(reactorTasks[0]), f)
    {
      var t := reactorTasks[0];
      reactorTasks := reactorTasks[1..];
      f := FlushResult(|fwd.buf|, Drained);
      match t
      case AddWatch => link := link.(watch := Some(Interest(false, true)));
      case DelWatch => link := link.(watch := None);
      case FlushForward => f := FlushForwardLocked();
      case ResumeRead(captured) =>
        if captured >= 0 && !link.closing { link := Mod(link, true, false); }
      case CloseFromReactor => CloseFromReactor(true);
      case ShutdownFd =>
        if link.fd >= 0 { link := link.(fd := -1, watch := None); }
    }

    // ---- runs ----

    /** lwIP calls back while the pcb lives and delivers inside the window; the fd reports what is watched. */
    ghost predicate MayHappen(c: Call)
      reads this
    {
      match c
      case Deliver(data) => link.pcb && 0 < |data| <= 0xFFFF && |fwd.received| + |data| - fwd.acked <= wnd
      case PeerClosed => link.pcb
      case SpaceFreed => link.pcb
      case Abort => link.pcb
      case Teardown => true
      case PollFd(ev, _) =>
        && link.watch.Some?
        && (ev.read ==> link.watch.value.read)
        && (ev.write ==> link.watch.value.write)
      case RunStack => stackTasks != []
      case RunReactor => reactorTasks != []
    }

    /** Appends the step just made to the run. */
    ghost method Note(e: Event)
      requires IsRun(wnd, run, events) && Enabled(wnd, run[|events|], e) && Abs() == Step(wnd, run[|events|], e)
      modifies `events, `run
      ensures Valid() && events == old(events) + [e]
    {
      hide Step, Enabled;
      RunExtends(wnd, run, events, e);
      events, run := events + [e], run + [Abs()];
    }

    static predicate SamePoll(a: Ready, b: Ready) {
      a.read == b.read && a.write == b.write && a.failure == b.failure && a.sockError == b.sockError
    }

    /** Any call that may happen is one step of the run, the event being what the call says. */
    method Handle(c: Call)
      requires Valid() && MayHappen(c)
      modifies this
      ensures Valid() && |events| == |old(events)| + 1 && old(events) <= events
      ensures c.Deliver? ==> events[|old(events)|] == Recv(c.data)
      ensures c.PeerClosed? ==> events[|old(events)|] == RecvClosed
      ensures c.SpaceFreed? ==> events[|old(events)|].Sent?
      ensures c.Abort? ==> events[|old(events)|] == Err
      ensures c.Teardown? ==> events[|old(events)|] == Shutdown
      ensures c.PollFd? ==> events[|old(events)|].FdReady? && SamePoll(c.ev, events[|old(events)|].e)
      ensures c.RunStack? ==> events[|old(events)|].StackTask?
      ensures c.RunReactor? ==> events[|old(events)|].ReactorTask?
    {
      hide IsRun, AfterPump, AfterErr, AfterShutdown, AfterFdEvent, AfterStackTask, AfterReactorTask, ReadAllowed,
        FlushAllowed, PumpAllowed, StackTaskAllowed;
      match c
      case Deliver(data) =>
        OnRecv(data);
        Note(Recv(data));
      case PeerClosed =>
        OnRecvClosed();
        Note(RecvClosed);
      case SpaceFreed =>
        var p := OnSent();
        Note(Sent(p));
      case Abort =>
        OnErr();
        Note(Err);
      case Teardown =>
        ShutdownFromStack();
        Note(Shutdown);
      case PollFd(ev, kernel) =>
        var e := OnFdEvent(ev, kernel);
        Note(FdReady(e));
      case RunStack =>
        var p := RunStackTask();
        Note(Event.StackTask(p));
      case RunReactor =>
        var f := RunReactorTask();
        Note(Event.ReactorTask(f));
    }

    /** So what holds of runs holds of the session between any two calls; for one, its backlog is bounded. */
    lemma BacklogBounded()
      requires Valid()
      ensures 0 <= bwd.count < HIGH_WATER + READ_CHUNK
      ensures link.pcb ==> bwd.count == |bwd.buf| + |Queued(stackTasks)|
      ensures |fwd.buf| + fwd.pending <= wnd
    {
      hide IsRun;
      assert |run| == |events| + 1 by { RunLength(); }
      BackwardBounded(wnd, run, events, |events|);
      BackwardConservation(wnd, run, events, |events|);
      ForwardConservation(wnd, run, events, |events|);
    }

    lemma RunLength()
      requires Valid()
      ensures |run| == |events| + 1
    {
    }
  }
}
