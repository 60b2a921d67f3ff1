/**
 The terminal socket client of public/pty-socket-client.ts as a state machine:
 attaching, the output barrier, the prefill buffer and what its callbacks do.
 The functions are the handlers of the source, one each; `PtySocketClient`
 runs them in place on fields.
 */
module PtyProtocol {
  import opened Common
  import opened OrderedResize
  import opened PtyResize

  const ORDERED_RESIZE_BARRIER_MAX_BYTES: nat := 1_048_576
  const ATTACH_DIMENSION_MAX_ATTEMPTS: nat := 20

  datatype Phase = Connecting | Open | Closing

  /** `ws`: null, or a socket object with its readyState. */
  datatype Socket = NoSocket | Socket(id: nat, phase: Phase)

  datatype PrefillMode = Full | Viewport | NoPrefill

  /** `timer` is the socket whose prefill deadline is armed. */
  datatype Prefill = Prefill(mode: PrefillMode, awaiting: bool, sawViewport: bool, chunks: seq<seq<Byte>>, timer: Option<nat>)

  datatype Handshake = Handshake(
    hasAttached: bool, attempt: nat, retry: bool, awaitingAck: bool, ackReceived: bool, ackTimer: bool)

  datatype Link = Link(
    ws: Socket,
    nextSocket: nat,
    rz: Resize,
    deferred: seq<Frame>,
    deferredBytes: nat,
    prefill: Prefill,
    attach: Handshake)

  /** What a callback may do before it returns. */
  datatype Action =
    | AskResize(dims: Dims, force: bool, immediate: bool)
    | Disconnect                              // close() or reconnect()

  /** The actions taken by the callback that is the client's n-th effect. */
  type Callbacks = map<nat, seq<Action>>

  function InitialLink(mode: PrefillMode): Link {
    Link(NoSocket, 0, INITIAL, [], 0, Prefill(mode, false, false, [], None), Handshake(false, 0, false, false, false, false))
  }

  predicate IsOpen(s: Link) {
    s.ws.Socket? && s.ws.phase.Open?
  }

  predicate SameSocket(a: Socket, b: Socket) {
    (a.NoSocket? && b.NoSocket?) || (a.Socket? && b.Socket? && a.id == b.id)
  }

  function EmitOn(s: Link, e: Effect): Link {
    s.(rz := Emit(s.rz, e))
  }

  /** ws.close(): no frame arrives any more, the close event is still to come. */
  function CloseSocket(s: Link): Link {
    if s.ws.Socket? then s.(ws := s.ws.(phase := Closing)) else s
  }

  function ResizeRequest(s: Link, dims: Dims, force: bool, immediate: bool): Link {
    s.(rz := Queue(s.rz, IsOpen(s), dims, force, immediate).0)
  }

  // ----- lifecycle

  function CancelLifecycle(s: Link): Link {
    s.(rz := Cancel(s.rz), deferred := [], deferredBytes := 0)
  }

  function ClearAttachRetry(s: Link): Link {
    s.(attach := s.attach.(attempt := 0, retry := false))
  }

  function DropPrefill(p: Prefill): Prefill {
    p.(awaiting := false, chunks := [], sawViewport := false, timer := None)
  }

  function ResetAttach(s: Link): Link {
    CancelLifecycle(s.(prefill := DropPrefill(s.prefill),
                       attach := s.attach.(attempt := 0, retry := false, awaitingAck := false, ackTimer := false)))
  }

  /** close() and reconnect(): drop the lifecycle and the socket. */
  function Retire(s: Link): Link {
    ResetAttach(s).(ws := NoSocket)
  }

  // ----- callbacks

  function Act(s: Link, a: Action): Link {
    match a
    case AskResize(d, f, i) => ResizeRequest(s, d, f, i)
    case Disconnect => Retire(s)
  }

  function Acts(s: Link, actions: seq<Action>): Link
    decreases |actions|
  {
    if actions == [] then s else Acts(Act(s, actions[0]), actions[1..])
  }

  /** Runs what the callback behind the newest effect does. */
  function Callback(s: Link, cb: Callbacks): Link {
    if s.rz.emitted in cb.Keys then Acts(s, cb[s.rz.emitted]) else s
  }

  function Notify(s: Link, e: Effect, cb: Callbacks): Link {
    Callback(EmitOn(s, e), cb)
  }

  function DeliverAll(s: Link, chunks: seq<seq<Byte>>, cb: Callbacks): Link
    decreases |chunks|
  {
    if chunks == [] then s else DeliverAll(Notify(s, Delivered(chunks[0]), cb), chunks[1..], cb)
  }

  // ----- output

  function FrameSize(f: Frame): nat {
    match f
    case Binary(d) => |d|
    case Control(_, n) => n
  }

  function Defer(s: Link, f: Frame): Link {
    if s.deferredBytes + FrameSize(f) > ORDERED_RESIZE_BARRIER_MAX_BYTES then CloseSocket(s)
    else s.(deferred := s.deferred + [f], deferredBytes := s.deferredBytes + FrameSize(f))
  }

  /** A frame is buffered until prefill_done, unless a hidden full prefill streams. */
  predicate Buffers(p: Prefill) {
    p.awaiting && !(p.mode.Full? && !p.sawViewport)
  }

  function PassBinary(s: Link, data: seq<Byte>, cb: Callbacks): Link {
    var s1 := EmitOn(s, Passed(Binary(data)));
    if Buffers(s.prefill) then s1.(prefill := s.prefill.(chunks := s.prefill.chunks + [data]))
    else Notify(s1, Delivered(data), cb)
  }

  function HandleBinary(s: Link, data: seq<Byte>, cb: Callbacks): Link {
    if s.rz.barrier then Defer(s, Binary(data)) else PassBinary(s, data, cb)
  }

  function PassViewport(s: Link, cb: Callbacks): Link {
    var s1 := DeliverAll(s.(prefill := s.prefill.(chunks := [])), s.prefill.chunks, cb);
    s1.(prefill := s1.prefill.(awaiting := true, sawViewport := true))
  }

  function PassPrefillDone(s: Link, cb: Callbacks): Link {
    var s1 := s.(prefill := s.prefill.(awaiting := false, timer := None, chunks := []));
    var s2 := if s.prefill.sawViewport && s.prefill.chunks != [] then Notify(s1, PrefillReplaced, cb) else s1;
    var s3 := DeliverAll(s2.(prefill := s2.prefill.(sawViewport := false)), s.prefill.chunks, cb);
    Notify(s3, PrefillCompleted, cb)
  }

  function PassControl(s: Link, kind: ControlKind, size: nat, cb: Callbacks): Link {
    var s1 := EmitOn(s, Passed(Control(kind, size)));
    match kind
    case PrefillViewport => PassViewport(s1, cb)
    case PrefillDone => PassPrefillDone(s1, cb)
    case PtyReady => Notify(s1, Ready, cb)
  }

  function HandleControl(s: Link, kind: ControlKind, size: nat, cb: Callbacks): Link {
    if s.rz.barrier then Defer(s, Control(kind, size)) else PassControl(s, kind, size, cb)
  }

  function Replay(s: Link, f: Frame, cb: Callbacks): Link {
    match f
    case Binary(d) => HandleBinary(s, d, cb)
    case Control(k, n) => PassControl(s, k, n, cb)
  }

  /** Replays held frames until they are used up or the lifecycle they belong to ends. */
  function Drain(s: Link, frames: seq<Frame>, ws: Socket, generation: nat, cb: Callbacks): Link
    decreases |frames|
  {
    if frames == [] || !SameSocket(s.ws, ws) || s.rz.generation != generation then s
    else Drain(Replay(s, frames[0], cb), frames[1..], ws, generation, cb)
  }

  function Release(s: Link, cb: Callbacks): Link {
    Drain(s.(rz := s.rz.(barrier := false), deferred := [], deferredBytes := 0), s.deferred, s.ws, s.rz.generation, cb)
  }

  function HandleResizeAck(s: Link, m: Ack, cb: Callbacks): Link {
    if !s.rz.ordered || !Completes(s.rz.tracker, m) then s else
    var s1 := Callback(s.(rz := Acknowledge(s.rz, Dims(m.cols, m.rows))), cb);
    var s2 := Release(s1, cb);
    s2.(rz := Resume(s2.rz, IsOpen(s2)))
  }

  // ----- attach

  /** What one attach attempt finds: whether the terminal is mounted, its
      dimensions, and the dimensions of an early layout_stable if one is sent. */
  datatype Attach = Attach(terminalReady: bool, dims: Option<Dims>, stable: Option<Dims>)

  function SendLayoutStable(s: Link, fit: Option<Dims>, force: bool): Link {
    if fit.Some? && IsOpen(s) && (force || fit != s.rz.lastSent) then ResizeRequest(s, fit.value, force, true) else s
  }

  function StartAttach(s: Link, dims: Dims): Link
    requires s.ws.Socket?
  {
    var hasPrefill := !s.prefill.mode.NoPrefill?;
    s.(rz := Emit(s.rz.(lastSent := Some(dims)), SentAttach(dims)),
       prefill := Prefill(s.prefill.mode, hasPrefill, false, [], if hasPrefill then Some(s.ws.id) else None),
       attach := Handshake(true, 0, false, true, false, s.attach.ackTimer))
  }

  function ArmAckTimer(s: Link): Link {
    s.(attach := s.attach.(ackTimer := true))
  }

  function SendAttach(s: Link, a: Attach): Link {
    if !IsOpen(s) || !a.terminalReady then s else
    var s1 := CancelLifecycle(s);
    match a.dims
    case Some(d) => ArmAckTimer(SendLayoutStable(StartAttach(s1, d), a.stable, false))
    case None =>
      if s1.attach.attempt < ATTACH_DIMENSION_MAX_ATTEMPTS
      then s1.(attach := s1.attach.(attempt := s1.attach.attempt + 1, retry := true))
      else CloseSocket(ClearAttachRetry(s1))
  }

  function HandleAttachAck(s: Link, ordered: bool): Link {
    s.(rz := s.rz.(ordered := ordered, barrier := ordered),
       attach := s.attach.(ackReceived := true, awaitingAck := false, ackTimer := false))
  }

  function FireAckFallback(s: Link, fit: Option<Dims>): Link {
    if !s.attach.ackTimer then s else
    var s1 := s.(attach := s.attach.(ackTimer := false));
    if s.attach.ackReceived || !s.attach.awaitingAck then s1 else
    var s2 := s1.(attach := s1.attach.(awaitingAck := false), rz := s1.rz.(lastSent := None));
    if fit.Some? then ResizeRequest(s2, fit.value, false, false) else s2
  }

  function HandleConflict(s: Link): Link {
    EmitOn(s.(prefill := DropPrefill(s.prefill), attach := s.attach.(awaitingAck := false, ackTimer := false)), Conflicted)
  }

  function FirePrefillDeadline(s: Link): Link {
    if s.prefill.timer.None? then s else
    var s1 := s.(prefill := s.prefill.(timer := None));
    if s.prefill.awaiting && IsOpen(s) && s.ws.id == s.prefill.timer.value then CloseSocket(s1) else s1
  }

  // ----- events

  datatype Event =
    | Connect                                                   // connect() has a route
    | SocketOpened(a: Attach)
    | SocketClosed
    | Retired                                                   // close() or reconnect()
    | LocalClose                                                // ws.close() for another reason
    | TerminalReady(a: Attach)
    | AttachRetried(a: Attach)
    | AckFallback(fit: Option<Dims>)
    | PrefillDeadline
    | DebounceFired
    | AckTimerFired                                             // the output ack timers
    | AckRetryFired
    | FitResize(dims: Dims, force: bool, immediate: bool)
    | AfterPaint(socket: Socket, generation: nat, fit: Option<Dims>, force: bool)
    | BinaryFrame(data: seq<Byte>, cb: Callbacks)
    | ControlFrame(kind: ControlKind, size: nat, cb: Callbacks)
    | AttachAck(ordered: bool, outputAck: bool)
    | ResizeAck(ack: Ack, cb: Callbacks)
    | ViewerConflict
    | ControlGranted(a: Attach)

  /** Events that are frames of the socket: none arrives unless it is open. */
  predicate IsFrame(e: Event) {
    e.BinaryFrame? || e.ControlFrame? || e.AttachAck? || e.ResizeAck? || e.ViewerConflict? || e.ControlGranted?
  }

  predicate IsConnecting(s: Link) {
    s.ws.Socket? && s.ws.phase.Connecting?
  }

  function Step(s: Link, e: Event): Link {
    if IsFrame(e) && !IsOpen(s) then s else
    match e
    case Connect =>
      if IsOpen(s) || IsConnecting(s) then s
      else s.(ws := Socket(s.nextSocket, Connecting), nextSocket := s.nextSocket + 1)
    case SocketOpened(a) => if IsConnecting(s) then SendAttach(s.(ws := s.ws.(phase := Phase.Open)), a) else s
    case SocketClosed => if s.ws.Socket? then ResetAttach(s.(ws := NoSocket)) else s
    case Retired => Retire(s)
    case LocalClose => CloseSocket(s)
    case TerminalReady(a) => if s.attach.hasAttached then s else SendAttach(s, a)
    case AttachRetried(a) => if s.attach.retry then SendAttach(s.(attach := s.attach.(retry := false)), a) else s
    case AckFallback(fit) => FireAckFallback(s, fit)
    case PrefillDeadline => FirePrefillDeadline(s)
    case DebounceFired => s.(rz := FireDebounce(s.rz, IsOpen(s)))
    case FitResize(d, f, i) => ResizeRequest(s, d, f, i)
    case AfterPaint(w, g, fit, f) =>
      if SameSocket(s.ws, w) && s.rz.generation == g then SendLayoutStable(s, fit, f) else s
    case BinaryFrame(d, cb) => HandleBinary(s, d, cb)
    case ControlFrame(k, n, cb) => HandleControl(s, k, n, cb)
    case AttachAck(o, _) => HandleAttachAck(s, o)
    case ResizeAck(m, cb) => HandleResizeAck(s, m, cb)
    case ViewerConflict => HandleConflict(s)
    case ControlGranted(a) => SendAttach(s, a)
    case AckTimerFired => s
    case AckRetryFired => s
  }

  function Run(s: Link, events: seq<Event>): Link
    decreases |events|
  {
    if events == [] then s else Run(Step(s, events[0]), events[1..])
  }
}
