/**
 The prefill of public/pty-socket-client.ts, read off the effects: when output
 that got past the barrier is shown at once, when it is held until
 prefill_done, and when prefill_done replaces what is on the screen.
 */
module PtyPrefill {
  import opened Common
  import opened OrderedResize
  import opened PtyResize
  import opened PtyProtocol

  /** What the next effect has to be. */
  datatype Due = Nothing | Shown(data: seq<Byte>) | Announced | Replaced | Unsure

  /** What the effects so far tell about the prefill:
      - sound: each was one that `Allowed` admits
      - known: an attach, a viewport, a prefill_done or a conflict says how it
        stands, and the lifecycle was not cancelled since
      - awaiting, viewport: prefill_done is to come; a viewport has come
      - held: output was held back and not shown yet
      - finishing: prefill_done was passed and not reported yet */
  datatype Watch = Watch(sound: bool, known: bool, awaiting: bool, viewport: bool, held: bool, due: Due, finishing: bool)

  predicate Allowed(w: Watch, e: Effect) {
    && (match w.due
        case Nothing => !e.PrefillReplaced? && !e.Ready?
        case Shown(d) => e == Delivered(d)
        case Announced => e.Ready?
        case Replaced => e.PrefillReplaced?
        case Unsure => e.PrefillReplaced? || e.Delivered? || e.PrefillCompleted?)
    && (e.Delivered? && w.known ==> !w.held)
    && (e.PrefillCompleted? ==> w.finishing)
    && (e.Passed? ==> !w.finishing)
  }

  function Standing(w: Watch, awaiting: bool, viewport: bool): Watch {
    w.(known := true, awaiting := awaiting, viewport := viewport, held := false)
  }

  /** A full prefill is shown as it comes until a viewport comes. */
  predicate Holds(mode: PrefillMode, w: Watch) {
    w.awaiting && (w.viewport || !mode.Full?)
  }

  function ObservePassed(mode: PrefillMode, w: Watch, f: Frame): Watch {
    match f
    case Binary(d) => if !w.known then w else if Holds(mode, w) then w.(held := true) else w.(due := Shown(d))
    case Control(PrefillViewport, _) => Standing(w, true, true)
    case Control(PrefillDone, _) =>
      Standing(w, false, false).(finishing := true, due := if !w.known then Unsure else if w.viewport && w.held then Replaced else Nothing)
    case Control(PtyReady, _) => w.(due := Announced)
  }

  function Observe(mode: PrefillMode, w: Watch, e: Effect): Watch {
    var v := w.(sound := w.sound && Allowed(w, e), due := Nothing);
    match e
    case SentAttach(_) => Standing(v, !mode.NoPrefill?, false)
    case LifecycleCancelled => v.(known := false)
    case Conflicted => Standing(v, false, false)
    case Passed(f) => ObservePassed(mode, v, f)
    case PrefillCompleted => v.(finishing := false)
    case _ => v
  }

  function WatchOf(mode: PrefillMode, log: Log): Watch {
    match log
    case Start => Watch(true, true, false, false, false, Nothing, false)
    case Log(before, e) => Observe(mode, WatchOf(mode, before), e)
  }

  /** What the effects tell is what the client does. */
  predicate Matches(w: Watch, p: Prefill) {
    w.known ==>
      p.awaiting == w.awaiting && p.sawViewport == w.viewport && (|p.chunks| > 0 <==> w.held) && (w.held ==> Holds(p.mode, w))
  }

  function WatchOn(s: Link): Watch {
    WatchOf(s.prefill.mode, s.rz.effects)
  }

  predicate Between(w: Watch) {
    w.sound && w.due.Nothing? && !w.finishing
  }

  predicate Inv(s: Link) {
    Between(WatchOn(s)) && Matches(WatchOn(s), s.prefill)
  }

  predicate Keeps(s: Link, t: Link) {
    Inv(t) && t.prefill.mode == s.prefill.mode
  }

  // ----- resizes say nothing about it

  predicate Quiet(m: PrefillMode, r: Resize, t: Resize) {
    WatchOf(m, t.effects) == WatchOf(m, r.effects)
  }

  predicate IsResize(e: Effect) {
    e.SentPlain? || e.SentOrdered? || e.Acked? || e.Proposed? || e.Settled?
  }

  lemma EmitQuiet(m: PrefillMode, r: Resize, e: Effect)
    requires WatchOf(m, r.effects).due.Nothing? && IsResize(e)
    ensures Quiet(m, r, Emit(r, e))
  {
    var w := WatchOf(m, r.effects);
    assert Allowed(w, e) && w.(sound := w.sound, due := Nothing) == w;
  }

  lemma SettleQuiet(m: PrefillMode, r: Resize, outcome: Settlement)
    requires WatchOf(m, r.effects).due.Nothing?
    ensures Quiet(m, r, Settle(r, outcome))
  {
    if r.settlement.Some? { EmitQuiet(m, r.(settlement := None), Settled(r.settlement.value, outcome, r.pending.Some?)); }
  }

  lemma SendQuiet(m: PrefillMode, r: Resize, dims: Dims)
    requires WatchOf(m, r.effects).due.Nothing?
    ensures Quiet(m, r, Send(r, dims))
  {
    if r.ordered {
      var t := Requested(r.tracker, dims);
      EmitQuiet(m, r.(tracker := t, lastSent := Some(dims), barrier := true), SentOrdered(t.pending.value));
    } else {
      EmitQuiet(m, r.(lastSent := Some(dims)), SentPlain(dims));
    }
  }

  lemma FlushQuiet(m: PrefillMode, r: Resize, open: bool)
    requires WatchOf(m, r.effects).due.Nothing?
    ensures Quiet(m, r, Flush(r, open))
  {
    if CanFlush(r, open) {
      SendQuiet(m, ClearQueued(r), r.pending.value.dims);
      SettleQuiet(m, SendProposal(r), Acknowledged);
    }
  }

  lemma ProposeQuiet(m: PrefillMode, r: Resize, open: bool, dims: Dims, force: bool, immediate: bool)
    requires WatchOf(m, r.effects).due.Nothing?
    ensures Quiet(m, r, Propose(r, open, dims, force, immediate))
  {
    var r0 := Emit(r, Proposed(dims, force));
    EmitQuiet(m, r, Proposed(dims, force));
    if !Forced(r, force) && Some(dims) == r.lastSent {
      SettleQuiet(m, ClearQueued(r0), Acknowledged);
    } else {
      EnqueueQuiet(m, r0, open, dims, Forced(r, force), immediate);
    }
  }

  lemma EnqueueQuiet(m: PrefillMode, r: Resize, open: bool, dims: Dims, force: bool, immediate: bool)
    requires WatchOf(m, r.effects).due.Nothing?
    ensures Quiet(m, r, Enqueue(r, open, dims, force, immediate))
  {
    var ready := immediate || (r.pending.Some? && r.pending.value.ready);
    FlushQuiet(m, r.(pending := Some(Proposal(dims, force, ready))), open);
  }

  lemma QueueQuiet(m: PrefillMode, r: Resize, open: bool, dims: Dims, force: bool, immediate: bool)
    requires WatchOf(m, r.effects).due.Nothing?
    ensures Quiet(m, r, Queue(r, open, dims, force, immediate).0)
  {
    ProposeQuiet(m, r, open, dims, force, immediate);
    var t := Propose(r, open, dims, force, immediate);
    EmitQuiet(m, t.(nextPromise := t.nextPromise + 1), Settled(t.nextPromise, Acknowledged, false));
  }

  lemma ResumeQuiet(m: PrefillMode, r: Resize, open: bool)
    requires WatchOf(m, r.effects).due.Nothing?
    ensures Quiet(m, r, Resume(r, open))
  {
    FlushQuiet(m, r.(draining := false), open);
    SettleQuiet(m, Flush(r.(draining := false), open), Acknowledged);
  }

  lemma CancelForgets(m: PrefillMode, r: Resize)
    requires WatchOf(m, r.effects).due.Nothing?
    ensures WatchOf(m, Cancel(r).effects) == WatchOf(m, r.effects).(known := false)
  {
    var r0 := ClearQueued(r.(generation := r.generation + 1));
    SettleQuiet(m, r0, Cancelled);
    ObserveCancelled(m, WatchOf(m, Settle(r0, Cancelled).effects));
  }

  lemma ObserveCancelled(m: PrefillMode, w: Watch)
    requires w.due.Nothing?
    ensures Observe(m, w, LifecycleCancelled) == w.(known := false)
  {
    assert Allowed(w, LifecycleCancelled);
  }

  // ----- callbacks and output

  lemma Emitted(s: Link, e: Effect)
    ensures WatchOn(EmitOn(s, e)) == Observe(s.prefill.mode, WatchOn(s), e)
  {
  }

  lemma ObserveOutput(m: PrefillMode, w: Watch, d: seq<Byte>)
    requires Between(w) && (w.known ==> !Holds(m, w) && !w.held)
    ensures Observe(m, Observe(m, w, Passed(Binary(d))), Delivered(d)) == w
  {
    assert Observe(m, w, Passed(Binary(d))) == if w.known then w.(due := Shown(d)) else w;
  }

  lemma ObserveReady(m: PrefillMode, w: Watch, size: nat)
    requires Between(w)
    ensures Observe(m, Observe(m, w, Passed(Control(PtyReady, size))), Ready) == w
  {
    assert Observe(m, w, Passed(Control(PtyReady, size))) == w.(due := Announced);
  }

  /** Releasing and reporting are allowed where they happen. */
  lemma ObserveRelease(m: PrefillMode, w: Watch)
    ensures w.due.Replaced? || w.due.Unsure? ==> Observe(m, w, PrefillReplaced) == w.(due := Nothing)
    ensures (w.due.Nothing? || w.due.Unsure?) && w.finishing
            ==> Observe(m, w, PrefillCompleted) == w.(due := Nothing, finishing := false)
  {
  }

  lemma ObserveDelivered(m: PrefillMode, w: Watch, d: seq<Byte>)
    requires (w.due.Nothing? || w.due.Unsure?) && (w.known ==> !w.held)
    ensures Observe(m, w, Delivered(d)) == w.(due := Nothing)
  {
    assert Allowed(w, Delivered(d));
  }

  /** Nothing happened to the prefill, or the lifecycle was cancelled. */
  predicate Calm(s: Link, t: Link) {
    && t.prefill.mode == s.prefill.mode
    && ((WatchOn(t) == WatchOn(s) && t.prefill == s.prefill) || WatchOn(t) == WatchOn(s).(known := false))
  }

  lemma {:induction false} ActsCalm(s: Link, actions: seq<Action>)
    requires WatchOn(s).due.Nothing?
    ensures Calm(s, Acts(s, actions))
    decreases |actions|
  {
    if actions != [] {
      match actions[0] {
        case AskResize(d, f, i) => QueueQuiet(s.prefill.mode, s.rz, IsOpen(s), d, f, i);
        case Disconnect => CancelForgets(s.prefill.mode, s.rz);
      }
      ActsCalm(Act(s, actions[0]), actions[1..]);
    }
  }

  lemma NotifyCalm(s: Link, e: Effect, cb: Callbacks)
    requires WatchOn(EmitOn(s, e)).due.Nothing?
    ensures Calm(EmitOn(s, e), Notify(s, e, cb))
  {
    var t := EmitOn(s, e);
    if t.rz.emitted in cb.Keys { ActsCalm(t, cb[t.rz.emitted]); }
  }

  /** Output that is released is allowed, and nothing is due after it. */
  lemma {:induction false} DeliverAllCalm(s: Link, chunks: seq<seq<Byte>>, cb: Callbacks)
    requires WatchOn(s).due.Nothing? || WatchOn(s).due.Unsure?
    requires WatchOn(s).known ==> !WatchOn(s).held
    ensures var t := DeliverAll(s, chunks, cb); var w := WatchOn(s);
            && t.prefill.mode == s.prefill.mode
            && (WatchOn(t) == w || WatchOn(t) == w.(due := Nothing) || WatchOn(t) == w.(due := Nothing, known := false))
            && (WatchOn(t).known && WatchOn(s).known ==> t.prefill == s.prefill)
    decreases |chunks|
  {
    if chunks != [] {
      Emitted(s, Delivered(chunks[0]));
      ObserveDelivered(s.prefill.mode, WatchOn(s), chunks[0]);
      NotifyCalm(s, Delivered(chunks[0]), cb);
      DeliverAllCalm(Notify(s, Delivered(chunks[0]), cb), chunks[1..], cb);
    }
  }

  lemma PassBinaryKeeps(s: Link, data: seq<Byte>, cb: Callbacks)
    requires Inv(s)
    ensures Keeps(s, PassBinary(s, data, cb))
  {
    var s1 := EmitOn(s, Passed(Binary(data)));
    Emitted(s, Passed(Binary(data)));
    if !Buffers(s.prefill) {
      Emitted(s1, Delivered(data));
      ObserveOutput(s.prefill.mode, WatchOn(s), data);
      NotifyCalm(s1, Delivered(data), cb);
    }
  }

  lemma PassViewportKeeps(s: Link, size: nat, cb: Callbacks)
    requires Inv(s)
    ensures Keeps(s, PassControl(s, PrefillViewport, size, cb))
  {
    var s1 := EmitOn(s, Passed(Control(PrefillViewport, size)));
    Emitted(s, Passed(Control(PrefillViewport, size)));
    var s2 := s1.(prefill := s1.prefill.(chunks := []));
    assert WatchOn(s2) == Standing(WatchOn(s), true, true);
    DeliverAllCalm(s2, s1.prefill.chunks, cb);
  }

  /** prefill_done up to the release of what it holds. */
  lemma PrefillDoneReplaces(s: Link, size: nat, cb: Callbacks)
    requires Inv(s)
    ensures var s0 := EmitOn(s, Passed(Control(PrefillDone, size)));
            var s1 := s0.(prefill := s0.prefill.(awaiting := false, timer := None, chunks := []));
            var s2 := if s0.prefill.sawViewport && s0.prefill.chunks != [] then Notify(s1, PrefillReplaced, cb) else s1;
            Finishing(WatchOn(s2)) && Dropped(WatchOn(s2), s2.prefill) && s2.prefill.mode == s.prefill.mode
  {
    var s0 := EmitOn(s, Passed(Control(PrefillDone, size)));
    Emitted(s, Passed(Control(PrefillDone, size)));
    var s1 := s0.(prefill := s0.prefill.(awaiting := false, timer := None, chunks := []));
    if s0.prefill.sawViewport && s0.prefill.chunks != [] {
      Emitted(s1, PrefillReplaced);
      ObserveRelease(s.prefill.mode, WatchOn(s1));
      NotifyCalm(s1, PrefillReplaced, cb);
    }
  }

  predicate Finishing(w: Watch) {
    w.sound && w.finishing && (w.due.Nothing? || w.due.Unsure?) && (w.known ==> !w.awaiting && !w.viewport && !w.held)
  }

  predicate Dropped(w: Watch, p: Prefill) {
    w.known ==> !p.awaiting && |p.chunks| == 0
  }

  /** prefill_done from there on. */
  lemma PrefillDoneReports(s: Link, chunks: seq<seq<Byte>>, cb: Callbacks)
    requires Finishing(WatchOn(s)) && Dropped(WatchOn(s), s.prefill)
    ensures Keeps(s, Notify(DeliverAll(s.(prefill := s.prefill.(sawViewport := false)), chunks, cb), PrefillCompleted, cb))
  {
    var s3 := s.(prefill := s.prefill.(sawViewport := false));
    DeliverAllCalm(s3, chunks, cb);
    var s4 := DeliverAll(s3, chunks, cb);
    Emitted(s4, PrefillCompleted);
    ObserveRelease(s4.prefill.mode, WatchOn(s4));
    NotifyCalm(s4, PrefillCompleted, cb);
  }

  lemma PassPrefillDoneKeeps(s: Link, size: nat, cb: Callbacks)
    requires Inv(s)
    ensures Keeps(s, PassControl(s, PrefillDone, size, cb))
  {
    PrefillDoneReplaces(s, size, cb);
    var s0 := EmitOn(s, Passed(Control(PrefillDone, size)));
    var s1 := s0.(prefill := s0.prefill.(awaiting := false, timer := None, chunks := []));
    var s2 := if s0.prefill.sawViewport && s0.prefill.chunks != [] then Notify(s1, PrefillReplaced, cb) else s1;
    PrefillDoneReports(s2, s0.prefill.chunks, cb);
  }

  lemma PassReadyKeeps(s: Link, size: nat, cb: Callbacks)
    requires Inv(s)
    ensures Keeps(s, PassControl(s, PtyReady, size, cb))
  {
    var s1 := EmitOn(s, Passed(Control(PtyReady, size)));
    Emitted(s, Passed(Control(PtyReady, size)));
    Emitted(s1, Ready);
    ObserveReady(s.prefill.mode, WatchOn(s), size);
    NotifyCalm(s1, Ready, cb);
  }

  lemma PassControlKeeps(s: Link, kind: ControlKind, size: nat, cb: Callbacks)
    requires Inv(s)
    ensures Keeps(s, PassControl(s, kind, size, cb))
  {
    match kind {
      case PrefillViewport => PassViewportKeeps(s, size, cb);
      case PrefillDone => PassPrefillDoneKeeps(s, size, cb);
      case PtyReady => PassReadyKeeps(s, size, cb);
    }
  }

  lemma {:induction false} DrainKeeps(s: Link, frames: seq<Frame>, ws: Socket, generation: nat, cb: Callbacks)
    requires Inv(s)
    ensures Keeps(s, Drain(s, frames, ws, generation, cb))
    decreases |frames|
  {
    if !(frames == [] || !SameSocket(s.ws, ws) || s.rz.generation != generation) {
      match frames[0] {
        case Binary(d) => PassBinaryKeeps(s, d, cb);
        case Control(k, n) => PassControlKeeps(s, k, n, cb);
      }
      DrainKeeps(Replay(s, frames[0], cb), frames[1..], ws, generation, cb);
    }
  }

  lemma HandleResizeAckKeeps(s: Link, m: Ack, cb: Callbacks)
    requires Inv(s)
    ensures Keeps(s, HandleResizeAck(s, m, cb))
  {
    if s.rz.ordered && Completes(s.rz.tracker, m) {
      var s0 := s.(rz := Acknowledge(s.rz, Dims(m.cols, m.rows)));
      if s0.rz.emitted in cb.Keys { ActsCalm(s0, cb[s0.rz.emitted]); }
      var s1 := Callback(s0, cb);
      DrainKeeps(s1.(rz := s1.rz.(barrier := false), deferred := [], deferredBytes := 0), s1.deferred, s1.ws, s1.rz.generation, cb);
      var s2 := Release(s1, cb);
      ResumeQuiet(s2.prefill.mode, s2.rz, IsOpen(s2));
    }
  }

  // ----- every step, every run

  lemma RequestKeeps(s: Link, dims: Dims, force: bool, immediate: bool)
    requires Inv(s)
    ensures Keeps(s, ResizeRequest(s, dims, force, immediate))
  {
    QueueQuiet(s.prefill.mode, s.rz, IsOpen(s), dims, force, immediate);
  }

  lemma StartAttachKeeps(s: Link, dims: Dims)
    requires Between(WatchOn(s)) && s.ws.Socket?
    ensures Keeps(s, StartAttach(s, dims))
  {
    Emitted(s, SentAttach(dims));
    assert WatchOn(StartAttach(s, dims)) == Standing(WatchOn(s), !s.prefill.mode.NoPrefill?, false);
  }

  lemma SendAttachKeeps(s: Link, a: Attach)
    requires Inv(s)
    ensures Keeps(s, SendAttach(s, a))
  {
    if IsOpen(s) && a.terminalReady {
      CancelForgets(s.prefill.mode, s.rz);
      var s1 := CancelLifecycle(s);
      if a.dims.Some? {
        var s2 := StartAttach(s1, a.dims.value);
        StartAttachKeeps(s1, a.dims.value);
        if a.stable.Some? { RequestKeeps(s2, a.stable.value, false, true); }
      }
    }
  }

  lemma FrameStepKeeps(s: Link, e: Event)
    requires Inv(s) && IsFrame(e)
    ensures Keeps(s, Step(s, e))
  {
    if IsOpen(s) {
      match e {
        case BinaryFrame(_, _) => OutputStepKeeps(s, e);
        case ControlFrame(_, _, _) => OutputStepKeeps(s, e);
        case ResizeAck(_, _) => AnswerStepKeeps(s, e);
        case ControlGranted(_) => AnswerStepKeeps(s, e);
        case AttachAck(_, _) => AnswerStepKeeps(s, e);
        case ViewerConflict => AnswerStepKeeps(s, e);
      }
    }
  }

  lemma AnswerStepKeeps(s: Link, e: Event)
    requires Inv(s) && IsOpen(s) && (e.ResizeAck? || e.ControlGranted? || e.AttachAck? || e.ViewerConflict?)
    ensures Keeps(s, Step(s, e))
  {
    match e {
      case ResizeAck(m, cb) =>
        assert Step(s, e) == HandleResizeAck(s, m, cb);
        HandleResizeAckKeeps(s, m, cb);
      case ControlGranted(a) =>
        assert Step(s, e) == SendAttach(s, a);
        SendAttachKeeps(s, a);
      case AttachAck(o, _) =>
        assert Step(s, e) == HandleAttachAck(s, o);
        AttachAckKeeps(s, o);
      case ViewerConflict =>
        assert Step(s, e) == HandleConflict(s);
        ConflictKeeps(s);
    }
  }

  lemma AttachAckKeeps(s: Link, ordered: bool)
    requires Inv(s)
    ensures Keeps(s, HandleAttachAck(s, ordered))
  {
  }

  lemma DeferKeeps(s: Link, f: Frame)
    requires Inv(s)
    ensures Keeps(s, Defer(s, f))
  {
  }

  lemma OutputStepKeeps(s: Link, e: Event)
    requires Inv(s) && IsOpen(s) && (e.BinaryFrame? || e.ControlFrame?)
    ensures Keeps(s, Step(s, e))
  {
    match e {
      case BinaryFrame(d, cb) =>
        assert Step(s, e) == HandleBinary(s, d, cb);
        if s.rz.barrier { DeferKeeps(s, Binary(d)); } else { PassBinaryKeeps(s, d, cb); }
      case ControlFrame(k, n, cb) =>
        assert Step(s, e) == HandleControl(s, k, n, cb);
        if s.rz.barrier { DeferKeeps(s, Control(k, n)); } else { PassControlKeeps(s, k, n, cb); }
    }
  }

  lemma ConflictKeeps(s: Link)
    requires Inv(s)
    ensures Keeps(s, HandleConflict(s))
  {
    var p := DropPrefill(s.prefill);
    Emitted(s.(prefill := p), Conflicted);
    assert WatchOn(HandleConflict(s)) == Standing(WatchOn(s), false, false);
  }

  lemma AttachStepKeeps(s: Link, e: Event)
    requires Inv(s) && (e.TerminalReady? || e.AttachRetried? || e.SocketOpened?)
    ensures Keeps(s, Step(s, e))
  {
    match e {
      case TerminalReady(a) => SendAttachKeeps(s, a);
      case AttachRetried(a) => SendAttachKeeps(s.(attach := s.attach.(retry := false)), a);
      case SocketOpened(a) => if IsConnecting(s) { SendAttachKeeps(s.(ws := s.ws.(phase := Phase.Open)), a); }
    }
  }

  lemma RequestStepKeeps(s: Link, e: Event)
    requires Inv(s) && (e.AckFallback? || e.DebounceFired? || e.FitResize? || e.AfterPaint?)
    ensures Keeps(s, Step(s, e))
  {
    match e {
      case AckFallback(fit) => FallbackKeeps(s, fit);
      case DebounceFired =>
        assert Step(s, e) == s.(rz := FireDebounce(s.rz, IsOpen(s)));
        if s.rz.debounce && s.rz.pending.Some? {
          FlushQuiet(s.prefill.mode, s.rz.(debounce := false, pending := Some(s.rz.pending.value.(ready := true))), IsOpen(s));
        }
      case FitResize(d, f, i) =>
        assert Step(s, e) == ResizeRequest(s, d, f, i);
        RequestKeeps(s, d, f, i);
      case AfterPaint(_, _, fit, f) =>
        assert Step(s, e) == s || (fit.Some? && Step(s, e) == ResizeRequest(s, fit.value, f, true));
        if fit.Some? { RequestKeeps(s, fit.value, f, true); }
    }
  }

  lemma FallbackKeeps(s: Link, fit: Option<Dims>)
    requires Inv(s)
    ensures Keeps(s, FireAckFallback(s, fit))
  {
    var s2 := s.(attach := s.attach.(ackTimer := false, awaitingAck := false), rz := s.rz.(lastSent := None));
    if fit.Some? { RequestKeeps(s2, fit.value, false, false); }
  }

  lemma StepKeeps(s: Link, e: Event)
    requires Inv(s)
    ensures Keeps(s, Step(s, e))
  {
    if IsFrame(e) {
      FrameStepKeeps(s, e);
    } else if e.TerminalReady? || e.AttachRetried? || e.SocketOpened? {
      AttachStepKeeps(s, e);
    } else if e.AckFallback? || e.DebounceFired? || e.FitResize? || e.AfterPaint? {
      RequestStepKeeps(s, e);
    } else {
      CancelForgets(s.prefill.mode, s.rz);
    }
  }

  lemma {:induction false} RunKeeps(s: Link, events: seq<Event>)
    requires Inv(s)
    ensures Keeps(s, Run(s, events))
    decreases |events|
  {
    if events != [] {
      StepKeeps(s, events[0]);
      RunKeeps(Step(s, events[0]), events[1..]);
    }
  }
}
