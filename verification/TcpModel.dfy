/**
 * One TCP connection terminated by lwIP and spliced onto a kernel socket: the state that the
 * NetStack thread and the Reactor thread share, and what each handler or queued task does to it.
 * The two task queues are the projections of NetStack::stackTasks and Reactor::tasks onto this
 * session; both are first-in first-out.
 *
 * A step is one fd handler or one queued task. What lwIP and the kernel decide (how many bytes they
 * take, which chunks they deliver, how a call fails) is part of the step's event.
 */
module TcpModel {
  import opened Prelude

  const HIGH_WATER: nat := 256 * 1024
  const LOW_WATER: nat := 64 * 1024
  const READ_CHUNK: nat := 65536

  datatype StackTask = WriteToLwip(data: Bytes) | FdEof | AckRecved | CloseFromStack

  datatype ReactorTask =
    | AddWatch
    | DelWatch
    | FlushForward
    | ResumeRead(capturedFd: int)
    | CloseFromReactor
    | ShutdownFd

  /** The interest set registered for the fd. */
  datatype Interest = Interest(read: bool, write: bool)

  /** The connection itself: its two ends and the watcher of the fd. */
  datatype Link = Link(
    pcb: bool,             // pcb != nullptr
    inTable: bool,         // the session is in NetStack::sessions
    fd: int,
    connected: bool,
    closing: bool,
    watch: Option<Interest>)

  /** Direction lwIP -> fd. `received`, `sent` and `acked` are history: nothing in the program reads them. */
  datatype Forward = Forward(
    buf: Bytes,            // forwardBuf
    wantWrite: bool,
    pending: nat,          // pendingRecved
    received: Bytes,       // bytes delivered by onRecv
    sent: Bytes,           // bytes sent to the landing fd
    acked: nat)            // total passed to tcp_recved

  /** Direction fd -> lwIP. The last five fields are history. */
  datatype Backward = Backward(
    buf: Bytes,            // backwardBuf
    count: int,            // backwardBytes
    readPaused: bool,
    fdEof: bool,
    read: Bytes,           // bytes read from the landing fd
    written: Bytes,        // bytes accepted by tcp_write
    duplicated: nat,       // bytes accepted by a pump that then left them in backwardBuf
    eofRead: bool,         // the landing fd has reported end of file
    drainClosed: bool)     // the lwIP side was closed because fdEof met an empty backwardBuf

  datatype State = State(link: Link, fwd: Forward, bwd: Backward, stack: seq<StackTask>, reactor: seq<ReactorTask>)

  /** The session as SessionTcp::start leaves it. */
  function Started(fd: int): State {
    State(Link(true, true, fd, false, false, None), Forward([], false, 0, [], [], 0),
          Backward([], 0, false, false, [], [], 0, false, false), [], [AddWatch])
  }

  // ---- what lwIP and the kernel answer during one step ----

  /** A pump: lwIP accepts `accepted` bytes, then refuses for lack of space, runs out of data, or fails. */
  datatype PumpResult = PumpResult(accepted: nat, fatal: bool)

  predicate PumpAllowed(b: Backward, p: PumpResult) {
    p.accepted <= |b.buf| && (p.fatal ==> p.accepted < |b.buf|)
  }

  datatype FlushEnd = Drained | Blocked | SendFailed
  datatype FlushResult = FlushResult(sent: nat, end: FlushEnd)

  predicate FlushAllowed(f: Forward, r: FlushResult) {
    r.sent <= |f.buf| && (r.end == Drained <==> r.sent == |f.buf|)
  }

  datatype ReadEnd = Paused | Eof | WouldBlock | RecvFailed
  datatype ReadResult = ReadResult(chunks: seq<Bytes>, end: ReadEnd)

  /** The read loop tests the high-water mark before every read, and stops reading exactly there. */
  ghost predicate ReadAllowed(s: State, r: ReadResult) {
    && (s.link.fd < 0 ==> r.chunks == [] && r.end in {Paused, RecvFailed})
    && (forall i :: 0 <= i < |r.chunks| ==> 0 < |r.chunks[i]| <= READ_CHUNK)
    && (forall i :: 0 <= i < |r.chunks| ==> s.bwd.count + |Flatten(r.chunks[..i])| < HIGH_WATER)
    && (r.end == Paused <==> s.bwd.count + |Flatten(r.chunks)| >= HIGH_WATER)
  }

  // ---- queues and interest ----

  /** Reactor::mod on the reactor thread: replaces the interest of a registered fd, else does nothing. */
  function Modified(watch: Option<Interest>, read: bool, write: bool): Option<Interest> {
    if watch.Some? then Some(Interest(read, write)) else None
  }

  function Mod(l: Link, read: bool, write: bool): Link { l.(watch := Modified(l.watch, read, write)) }

  function Writes(chunks: seq<Bytes>): (ts: seq<StackTask>)
    ensures |ts| == |chunks|
    ensures forall i :: 0 <= i < |chunks| ==> ts[i] == WriteToLwip(chunks[i])
  {
    seq(|chunks|, i requires 0 <= i < |chunks| => WriteToLwip(chunks[i]))
  }

  /** The data still on its way to lwIP in a task queue, in order. */
  function Queued(ts: seq<StackTask>): Bytes {
    if ts == [] then [] else (if ts[0].WriteToLwip? then ts[0].data else []) + Queued(ts[1..])
  }

  // ---- NetStack thread ----

  function LwipGone(l: Link): Link { l.(pcb := false, inTable := l.inTable && !l.pcb) }

  function AfterCloseFromStack(s: State): State {
    s.(link := LwipGone(s.link), reactor := s.reactor + [CloseFromReactor])
  }

  function AfterUpdateReadInterest(s: State): State {
    if s.bwd.readPaused && s.bwd.count <= LOW_WATER
    then s.(bwd := s.bwd.(readPaused := false), reactor := s.reactor + [ResumeRead(s.link.fd)])
    else s
  }

  /** What a pump does to the byte account: a fatal error keeps even the accepted bytes in the buffer. */
  function Pumped(b: Backward, p: PumpResult): Backward
    requires PumpAllowed(b, p)
  {
    var written := b.written + b.buf[..p.accepted];
    if p.fatal then b.(written := written, duplicated := b.duplicated + p.accepted)
    else b.(written := written, buf := b.buf[p.accepted..], count := b.count - p.accepted)
  }

  function AfterPump(s: State, p: PumpResult): State
    requires s.link.pcb ==> PumpAllowed(s.bwd, p)
  {
    if !s.link.pcb then s
    else
      var s1 := s.(bwd := Pumped(s.bwd, p));
      if p.fatal then s1
      else
        var s2 := AfterUpdateReadInterest(s1);
        if s2.bwd.fdEof && s2.bwd.buf == []
        then AfterCloseFromStack(s2.(bwd := s2.bwd.(drainClosed := true)))
        else s2
  }

  function Appended(b: Backward, data: Bytes): Backward { b.(buf := b.buf + data) }

  function AfterWriteToLwip(s: State, data: Bytes, p: PumpResult): State
    requires s.link.pcb ==> PumpAllowed(Appended(s.bwd, data), p)
  {
    if !s.link.pcb then s else AfterPump(s.(bwd := Appended(s.bwd, data)), p)
  }

  function AfterFdEof(s: State, p: PumpResult): State
    requires s.link.pcb ==> PumpAllowed(s.bwd, p)
  {
    var s1 := AfterPump(s.(bwd := s.bwd.(fdEof := true)), p);
    if s1.bwd.buf == [] then AfterCloseFromStack(s1) else s1
  }

  function AfterAckRecved(s: State): State {
    if !s.link.pcb then s
    else s.(fwd := s.fwd.(pending := 0, acked := s.fwd.acked + s.fwd.pending))
  }

  function AfterRecv(s: State, data: Bytes): State {
    s.(fwd := s.fwd.(buf := s.fwd.buf + data, received := s.fwd.received + data),
       reactor := s.reactor + [FlushForward])
  }

  function AfterErr(s: State): State { AfterCloseFromReactor(s.(link := LwipGone(s.link)), false) }

  /** Stack teardown: shutdownFromStack on the session, then the session table is cleared. */
  function AfterShutdown(s: State): State {
    var l := s.link.(pcb := false, inTable := false, closing := true);
    if s.link.closing then s.(link := l) else s.(link := l, reactor := s.reactor + [ShutdownFd])
  }

  // ---- Reactor thread ----

  /** closeFromReactor; off the reactor thread its del(fd) is itself queued. */
  function AfterCloseFromReactor(s: State, onReactor: bool): State {
    if s.link.closing then s
    else
      var l := s.link.(closing := true);
      s.(link := if l.fd < 0 then l else if onReactor then l.(fd := -1, watch := None) else l.(fd := -1),
         stack := if l.pcb then s.stack + [CloseFromStack] else s.stack,
         reactor := if l.fd >= 0 && !onReactor then s.reactor + [DelWatch] else s.reactor)
  }

  /** The forward account after `n` bytes went out without a fatal error. */
  function Flushed(f: Forward, n: nat, wantWrite: bool): Forward
    requires n <= |f.buf|
  {
    f.(buf := f.buf[n..], sent := f.sent + f.buf[..n], pending := f.pending + n, wantWrite := wantWrite)
  }

  function AckPosted(ts: seq<StackTask>, n: nat): seq<StackTask> { if n > 0 then ts + [AckRecved] else ts }

  function AfterFlush(s: State, r: FlushResult): State
    requires FlushAllowed(s.fwd, r)
  {
    if s.link.fd < 0 || !s.link.connected then s
    else
      match r.end
      case SendFailed =>
        var lost := s.fwd.(buf := s.fwd.buf[r.sent..], sent := s.fwd.sent + s.fwd.buf[..r.sent]);
        AfterCloseFromReactor(s.(fwd := lost), true)
      case Blocked =>
        s.(fwd := Flushed(s.fwd, r.sent, true), link := Mod(s.link, true, true), stack := AckPosted(s.stack, r.sent))
      case Drained =>
        s.(fwd := Flushed(s.fwd, r.sent, false),
           link := if s.fwd.wantWrite then Mod(s.link, true, false) else s.link,
           stack := AckPosted(s.stack, r.sent))
  }

  function ReadIn(b: Backward, all: Bytes): Backward { b.(count := b.count + |all|, read := b.read + all) }

  function AfterRead(s: State, r: ReadResult): State {
    var b := ReadIn(s.bwd, Flatten(r.chunks));
    var ts := s.stack + Writes(r.chunks);
    match r.end
    case Paused => s.(bwd := b.(readPaused := true), stack := ts, link := Mod(s.link, false, false))
    case Eof => s.(bwd := b.(eofRead := true), stack := ts + [FdEof], link := s.link.(watch := None))
    case WouldBlock => s.(bwd := b, stack := ts)
    case RecvFailed => AfterCloseFromReactor(s.(bwd := b, stack := ts), true)
  }

  function AfterConnected(s: State, sockError: bool, r: FlushResult): State
    requires FlushAllowed(s.fwd, r)
  {
    if sockError then AfterCloseFromReactor(s, true)
    else AfterFlush(s.(link := Mod(s.link.(connected := true), true, false)), r)
  }

  /** The bits of a poll result, and what the kernel answers to the calls that the handler makes. */
  datatype Ready = Ready(read: bool, write: bool, failure: bool, sockError: bool, r: ReadResult, f: FlushResult)

  /** The state in which onFdEvent reaches its WRITE branch. */
  function AfterReadPart(s: State, e: Ready): State {
    if e.read || e.failure then AfterRead(s, e.r) else s
  }

  function AfterFdEvent(s: State, e: Ready): State
    requires FlushAllowed(s.fwd, e.f)
  {
    if !s.link.connected then
      if e.failure then AfterCloseFromReactor(s, true)
      else if e.write then AfterConnected(s, e.sockError, e.f)
      else s
    else
      var s1 := AfterReadPart(s, e);
      if e.write then AfterFlush(s1, e.f) else s1
  }

  // ---- tasks ----

  predicate StackTaskAllowed(s: State, t: StackTask, p: PumpResult) {
    s.link.pcb ==>
      match t
      case WriteToLwip(data) => PumpAllowed(Appended(s.bwd, data), p)
      case FdEof => PumpAllowed(s.bwd, p)
      case _ => true
  }

  function AfterStackTask(s: State, t: StackTask, p: PumpResult): State
    requires StackTaskAllowed(s, t, p)
  {
    match t
    case WriteToLwip(data) => AfterWriteToLwip(s, data, p)
    case FdEof => AfterFdEof(s, p)
    case AckRecved => AfterAckRecved(s)
    case CloseFromStack => AfterCloseFromStack(s)
  }

  function AfterReactorTask(s: State, t: ReactorTask, f: FlushResult): State
    requires FlushAllowed(s.fwd, f)
  {
    match t
    case AddWatch => s.(link := s.link.(watch := Some(Interest(false, true))))
    case DelWatch => s.(link := s.link.(watch := None))
    case FlushForward => AfterFlush(s, f)
    case ResumeRead(fd) => if fd >= 0 && !s.link.closing then s.(link := Mod(s.link, true, false)) else s
    case CloseFromReactor => AfterCloseFromReactor(s, true)
    case ShutdownFd => if s.link.fd >= 0 then s.(link := s.link.(fd := -1, watch := None)) else s
  }

  // ---- runs ----

  datatype Event =
    | Recv(data: Bytes)
    | RecvClosed
    | Sent(p: PumpResult)
    | Err
    | StackTask(p: PumpResult)
    | Shutdown
    | FdReady(e: Ready)
    | ReactorTask(f: FlushResult)

  function PopStack(s: State): State
    requires s.stack != []
  {
    s.(stack := s.stack[1..])
  }

  function PopReactor(s: State): State
    requires s.reactor != []
  {
    s.(reactor := s.reactor[1..])
  }

  /** lwIP calls back only while the pcb lives and delivers only inside the receive window `wnd`. */
  ghost predicate Enabled(wnd: nat, s: State, e: Event) {
    match e
    case Recv(data) => s.link.pcb && 0 < |data| <= 0xFFFF && |s.fwd.received| + |data| - s.fwd.acked <= wnd
    case RecvClosed => s.link.pcb
    case Sent(p) => s.link.pcb && PumpAllowed(s.bwd, p)
    case Err => s.link.pcb
    case StackTask(p) => s.stack != [] && StackTaskAllowed(s, s.stack[0], p)
    case Shutdown => true
    case FdReady(r) =>
      && s.link.watch.Some?
      && (r.read ==> s.link.watch.value.read)
      && (r.write ==> s.link.watch.value.write)
      && (s.link.connected && (r.read || r.failure) ==> ReadAllowed(s, r.r))
      && FlushAllowed(s.fwd, r.f)
    case ReactorTask(f) => s.reactor != [] && FlushAllowed(s.fwd, f)
  }

  ghost function Step(wnd: nat, s: State, e: Event): State
    requires Enabled(wnd, s, e)
  {
    match e
    case Recv(data) => AfterRecv(s, data)
    case RecvClosed => AfterCloseFromStack(s)
    case Sent(p) => AfterPump(s, p)
    case Err => AfterErr(s)
    case StackTask(p) => AfterStackTask(PopStack(s), s.stack[0], p)
    case Shutdown => AfterShutdown(s)
    case FdReady(r) => AfterFdEvent(s, r)
    case ReactorTask(f) => AfterReactorTask(PopReactor(s), s.reactor[0], f)
  }

  /** `run` lists the states of a run driven by `events`. */
  ghost predicate IsRun(wnd: nat, run: seq<State>, events: seq<Event>) {
    && |run| == |events| + 1
    && (exists fd: nat :: run[0] == Started(fd))
    && forall i :: 0 <= i < |events| ==>
         Enabled(wnd, run[i], events[i]) && run[i + 1] == Step(wnd, run[i], events[i])
  }

  lemma RunExtends(wnd: nat, run: seq<State>, events: seq<Event>, e: Event)
    requires IsRun(wnd, run, events) && Enabled(wnd, run[|events|], e)
    ensures IsRun(wnd, run + [Step(wnd, run[|events|], e)], events + [e])
  {
    hide Step, Enabled;
    assert (run + [Step(wnd, run[|events|], e)])[0] == run[0];
  }
}
