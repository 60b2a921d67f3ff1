/**
 What "acknowledged" promises. With a broker that echoes the geometry it was
 asked for, a promise is acknowledged only when the latest geometry proposed
 in its lifecycle is the one last put on the wire, whatever was superseded in
 between.
 */
module PtyGeometry {
  import opened Common
  import opened OrderedResize
  import opened PtyResize
  import opened PtyProtocol

  /** - latest: the last geometry proposed in this lifecycle
      - wire: the last geometry sent, by an attach or a resize
      - truthful: whenever a promise was acknowledged, the two were the same */
  datatype Geometry = Geometry(latest: Option<Dims>, wire: Option<Dims>, truthful: bool)

  function Track(g: Geometry, e: Effect): Geometry {
    match e
    case Proposed(d, _) => g.(latest := Some(d))
    case LifecycleCancelled => g.(latest := None)
    case SentAttach(d) => g.(wire := Some(d))
    case SentPlain(d) => g.(wire := Some(d))
    case SentOrdered(r) => g.(wire := Some(r.dims))
    case Settled(_, o, _) => g.(truthful := g.truthful && (o.Acknowledged? ==> g.latest.Some? && g.latest == g.wire))
    case _ => g
  }

  function GeometryOf(log: Log): Geometry {
    match log
    case Start => Geometry(None, None, true)
    case Log(before, e) => Track(GeometryOf(before), e)
  }

  predicate Agreed(r: Resize, g: Geometry) {
    g.latest.Some? && r.lastSent == g.latest
  }

  /** A request in flight is what the wire carries and what was asked for last. */
  predicate InFlightWith(r: Resize, g: Geometry) {
    r.tracker.pending.Some? ==> r.lastSent == g.wire == Some(r.tracker.pending.value.dims)
  }

  /** What holds of every run. */
  predicate Tracks(r: Resize) {
    var g := GeometryOf(r.effects);
    && InFlightWith(r, g)
    && (r.pending.Some? ==> g.latest == Some(r.pending.value.dims))
    && (r.pending.None? && r.tracker.pending.Some? ==> Agreed(r, g))
  }

  predicate HonestWith(r: Resize, g: Geometry) {
    g.truthful && (r.lastSent.Some? ==> r.lastSent == g.wire)
  }

  /** What holds as long as the broker echoes. */
  predicate Honest(r: Resize) {
    var g := GeometryOf(r.effects);
    HonestWith(r, g) && (r.pending.None? && r.settlement.Some? ==> Agreed(r, g))
  }

  /** No request and no promise exists before the attach is answered. */
  predicate Unordered(r: Resize) {
    !r.ordered && r.tracker.pending.None? && r.settlement.None?
  }

  predicate Inv(s: Link) {
    Tracks(s.rz) && (s.attach.awaitingAck ==> Unordered(s.rz))
  }

  predicate Keeps(r: Resize, t: Resize) {
    Tracks(t) && (Honest(r) ==> Honest(t)) && (Unordered(r) ==> Unordered(t))
  }

  // ----- resize

  lemma SettleKeeps(r: Resize, outcome: Settlement)
    requires Tracks(r)
    requires outcome.Acknowledged? && r.settlement.Some? ==> r.pending.None?
    ensures Keeps(r, Settle(r, outcome))
  {
  }

  lemma CancelKeeps(r: Resize)
    ensures Tracks(Cancel(r)) && (Honest(r) ==> Honest(Cancel(r))) && Unordered(Cancel(r))
  {
  }

  lemma SettleIfIdleKeeps(r: Resize)
    requires Tracks(r) && r.pending.None?
    ensures Keeps(r, SettleIfIdle(r))
  {
    SettleKeeps(r, Acknowledged);
  }

  lemma SendProposalKeeps(r: Resize)
    requires Tracks(r) && r.pending.Some? && r.tracker.pending.None?
    ensures Keeps(r, SendProposal(r)) && Agreed(SendProposal(r), GeometryOf(SendProposal(r).effects)) && SendProposal(r).pending.None?
  {
  }

  lemma FlushKeeps(r: Resize, open: bool)
    requires Tracks(r)
    ensures Keeps(r, Flush(r, open))
    ensures r.pending.Some? && Flush(r, open).pending.None?
            ==> Agreed(Flush(r, open), GeometryOf(Flush(r, open).effects))
  {
    if CanFlush(r, open) {
      SendProposalKeeps(r);
      SettleIfIdleKeeps(SendProposal(r));
    }
  }

  /** Holds right after a proposal, before the queue is updated. */
  lemma EnqueueKeeps(r: Resize, open: bool, dims: Dims, force: bool, immediate: bool)
    requires InFlightWith(r, GeometryOf(r.effects)) && GeometryOf(r.effects).latest == Some(dims)
    ensures var t := Enqueue(r, open, dims, force, immediate);
            && Tracks(t) && (HonestWith(r, GeometryOf(r.effects)) ==> Honest(t)) && (Unordered(r) ==> Unordered(t))
            && (t.pending.None? ==> Agreed(t, GeometryOf(t.effects)))
  {
    var ready := immediate || (r.pending.Some? && r.pending.value.ready);
    var r1 := r.(pending := Some(Proposal(dims, force, ready)));
    FlushKeeps(r1, open);
  }

  lemma ProposeKeeps(r: Resize, open: bool, dims: Dims, force: bool, immediate: bool)
    requires Tracks(r)
    ensures var t := Propose(r, open, dims, force, immediate);
            Keeps(r, t) && (t.pending.None? ==> Agreed(t, GeometryOf(t.effects)))
  {
    var r0 := Emit(r, Proposed(dims, force));
    if !Forced(r, force) && Some(dims) == r.lastSent {
      SettleIfIdleKeeps(ClearQueued(r0));
    } else {
      EnqueueKeeps(r0, open, dims, Forced(r, force), immediate);
    }
  }

  lemma AnsweredKeeps(r: Resize)
    requires Tracks(r) && (r.pending.None? ==> Agreed(r, GeometryOf(r.effects)))
    ensures Keeps(r, Answered(r).0)
  {
  }

  lemma QueueKeeps(r: Resize, open: bool, dims: Dims, force: bool, immediate: bool)
    requires Tracks(r)
    ensures Keeps(r, Queue(r, open, dims, force, immediate).0)
  {
    ProposeKeeps(r, open, dims, force, immediate);
    AnsweredKeeps(Propose(r, open, dims, force, immediate));
  }

  lemma ResumeKeeps(r: Resize, open: bool)
    requires Tracks(r)
    ensures Keeps(r, Resume(r, open))
  {
    FlushKeeps(r.(draining := false), open);
    var r1 := Flush(r.(draining := false), open);
    if r1.pending.None? { SettleIfIdleKeeps(r1); }
  }

  /** The invariant holds on, and honesty lasts. */
  predicate Lasts(s: Link, t: Link) {
    Inv(t) && (Honest(s.rz) ==> Honest(t.rz))
  }

  // ----- callbacks and output

  /** Effects that say nothing about geometry. */
  predicate IsOutput(e: Effect) {
    e.Passed? || e.Delivered? || e.PrefillReplaced? || e.PrefillCompleted? || e.Ready? || e.Conflicted?
  }

  lemma ActKeeps(s: Link, a: Action)
    requires Inv(s)
    ensures Lasts(s, Act(s, a))
  {
    match a {
      case AskResize(d, f, i) => QueueKeeps(s.rz, IsOpen(s), d, f, i);
      case Disconnect => CancelKeeps(s.rz);
    }
  }

  lemma {:induction false} ActsKeeps(s: Link, actions: seq<Action>)
    requires Inv(s)
    ensures Lasts(s, Acts(s, actions))
    decreases |actions|
  {
    if actions != [] {
      ActKeeps(s, actions[0]);
      ActsKeeps(Act(s, actions[0]), actions[1..]);
    }
  }

  lemma CallbackKeeps(s: Link, cb: Callbacks)
    requires Inv(s)
    ensures Lasts(s, Callback(s, cb))
  {
    if s.rz.emitted in cb.Keys { ActsKeeps(s, cb[s.rz.emitted]); }
  }

  lemma NotifyKeeps(s: Link, e: Effect, cb: Callbacks)
    requires Inv(s) && IsOutput(e)
    ensures Lasts(s, Notify(s, e, cb))
  {
    CallbackKeeps(EmitOn(s, e), cb);
  }

  lemma {:induction false} DeliverAllKeeps(s: Link, chunks: seq<seq<Byte>>, cb: Callbacks)
    requires Inv(s)
    ensures Lasts(s, DeliverAll(s, chunks, cb))
    decreases |chunks|
  {
    if chunks != [] {
      NotifyKeeps(s, Delivered(chunks[0]), cb);
      DeliverAllKeeps(Notify(s, Delivered(chunks[0]), cb), chunks[1..], cb);
    }
  }

  lemma PassBinaryKeeps(s: Link, data: seq<Byte>, cb: Callbacks)
    requires Inv(s)
    ensures Lasts(s, PassBinary(s, data, cb))
  {
    NotifyKeeps(EmitOn(s, Passed(Binary(data))), Delivered(data), cb);
  }

  lemma PassPrefillDoneKeeps(s: Link, cb: Callbacks)
    requires Inv(s)
    ensures Lasts(s, PassPrefillDone(s, cb))
  {
    var s1 := s.(prefill := s.prefill.(awaiting := false, timer := None, chunks := []));
    NotifyKeeps(s1, PrefillReplaced, cb);
    var s2 := if s.prefill.sawViewport && s.prefill.chunks != [] then Notify(s1, PrefillReplaced, cb) else s1;
    var s3 := s2.(prefill := s2.prefill.(sawViewport := false));
    DeliverAllKeeps(s3, s.prefill.chunks, cb);
    NotifyKeeps(DeliverAll(s3, s.prefill.chunks, cb), PrefillCompleted, cb);
  }

  lemma PassControlKeeps(s: Link, kind: ControlKind, size: nat, cb: Callbacks)
    requires Inv(s)
    ensures Lasts(s, PassControl(s, kind, size, cb))
  {
    var s1 := EmitOn(s, Passed(Control(kind, size)));
    match kind {
      case PrefillViewport => DeliverAllKeeps(s1.(prefill := s1.prefill.(chunks := [])), s1.prefill.chunks, cb);
      case PrefillDone => PassPrefillDoneKeeps(s1, cb);
      case PtyReady => NotifyKeeps(s1, Ready, cb);
    }
  }

  lemma {:induction false} DrainKeeps(s: Link, frames: seq<Frame>, ws: Socket, generation: nat, cb: Callbacks)
    requires Inv(s)
    ensures Lasts(s, Drain(s, frames, ws, generation, cb))
    decreases |frames|
  {
    if !(frames == [] || !SameSocket(s.ws, ws) || s.rz.generation != generation) {
      match frames[0] {
        case Binary(d) => PassBinaryKeeps(s, d, cb);
        case Control(k, n) => PassControlKeeps(s, k, n, cb);
      }
      DrainKeeps(Replay(s, frames[0], cb), frames[1..], ws, generation, cb);
    }
  }

  /** The broker acknowledges the geometry it was asked for. */
  predicate Echoes(s: Link, e: Event) {
    e.ResizeAck? && Completes(s.rz.tracker, e.ack) ==> Dims(e.ack.cols, e.ack.rows) == s.rz.tracker.pending.value.dims
  }

  lemma HandleResizeAckKeeps(s: Link, m: Ack, cb: Callbacks)
    requires Inv(s)
    ensures Inv(HandleResizeAck(s, m, cb))
    ensures Echoes(s, ResizeAck(m, cb)) ==> Lasts(s, HandleResizeAck(s, m, cb))
  {
    if s.rz.ordered && Completes(s.rz.tracker, m) {
      var s0 := s.(rz := Acknowledge(s.rz, Dims(m.cols, m.rows)));
      CallbackKeeps(s0, cb);
      var s1 := Callback(s0, cb);
      var s2 := s1.(rz := s1.rz.(barrier := false), deferred := [], deferredBytes := 0);
      DrainKeeps(s2, s1.deferred, s1.ws, s1.rz.generation, cb);
      var s3 := Release(s1, cb);
      ResumeKeeps(s3.rz, IsOpen(s3));
    }
  }

  // ----- every step, every run

  lemma RequestKeeps(s: Link, dims: Dims, force: bool, immediate: bool)
    requires Inv(s)
    ensures Lasts(s, ResizeRequest(s, dims, force, immediate))
  {
    QueueKeeps(s.rz, IsOpen(s), dims, force, immediate);
  }

  lemma SendAttachKeeps(s: Link, a: Attach)
    requires Inv(s)
    ensures Lasts(s, SendAttach(s, a))
  {
    if IsOpen(s) && a.terminalReady {
      CancelKeeps(s.rz);
      var s1 := CancelLifecycle(s);
      if a.dims.Some? {
        var s2 := StartAttach(s1, a.dims.value);
        assert Inv(s2);
        if a.stable.Some? { RequestKeeps(s2, a.stable.value, false, true); }
      }
    }
  }

  lemma FallbackKeeps(s: Link, fit: Option<Dims>)
    requires Inv(s)
    ensures Lasts(s, FireAckFallback(s, fit))
  {
    if s.attach.awaitingAck {
      var s2 := s.(attach := s.attach.(ackTimer := false, awaitingAck := false), rz := s.rz.(lastSent := None));
      assert Inv(s2);
      if fit.Some? { RequestKeeps(s2, fit.value, false, false); }
    }
  }

  lemma FrameStepKeeps(s: Link, e: Event)
    requires Inv(s) && IsFrame(e)
    ensures Inv(Step(s, e)) && (Echoes(s, e) ==> Lasts(s, Step(s, e)))
  {
    if IsOpen(s) {
      match e {
        case BinaryFrame(_, _) => OutputStepKeeps(s, e);
        case ControlFrame(_, _, _) => OutputStepKeeps(s, e);
        case ResizeAck(m, cb) => HandleResizeAckKeeps(s, m, cb);
        case ControlGranted(a) => SendAttachKeeps(s, a);
        case AttachAck(o, _) => assert Step(s, e) == HandleAttachAck(s, o);
        case ViewerConflict => assert Step(s, e) == HandleConflict(s);
      }
    }
  }

  lemma OutputStepKeeps(s: Link, e: Event)
    requires Inv(s) && IsOpen(s) && (e.BinaryFrame? || e.ControlFrame?)
    ensures Lasts(s, Step(s, e))
  {
    match e {
      case BinaryFrame(d, cb) =>
        assert Step(s, e) == HandleBinary(s, d, cb);
        PassBinaryKeeps(s, d, cb);
      case ControlFrame(k, n, cb) =>
        assert Step(s, e) == HandleControl(s, k, n, cb);
        PassControlKeeps(s, k, n, cb);
    }
  }

  lemma LocalStepKeeps(s: Link, e: Event)
    requires Inv(s) && !IsFrame(e)
    ensures Lasts(s, Step(s, e))
  {
    if e.TerminalReady? || e.AttachRetried? || e.SocketOpened? {
      AttachStepKeeps(s, e);
    } else if e.AckFallback? || e.DebounceFired? || e.FitResize? || e.AfterPaint? {
      RequestStepKeeps(s, e);
    } else {
      CancelKeeps(s.rz);
    }
  }

  lemma AttachStepKeeps(s: Link, e: Event)
    requires Inv(s) && (e.TerminalReady? || e.AttachRetried? || e.SocketOpened?)
    ensures Lasts(s, Step(s, e))
  {
    match e {
      case TerminalReady(a) => SendAttachKeeps(s, a);
      case AttachRetried(a) => SendAttachKeeps(s.(attach := s.attach.(retry := false)), a);
      case SocketOpened(a) => if IsConnecting(s) { SendAttachKeeps(s.(ws := s.ws.(phase := Phase.Open)), a); }
    }
  }

  lemma RequestStepKeeps(s: Link, e: Event)
    requires Inv(s) && (e.AckFallback? || e.DebounceFired? || e.FitResize? || e.AfterPaint?)
    ensures Lasts(s, Step(s, e))
  {
    match e {
      case AckFallback(fit) => FallbackKeeps(s, fit);
      case DebounceFired =>
        assert Step(s, e) == s.(rz := FireDebounce(s.rz, IsOpen(s)));
        if s.rz.debounce && s.rz.pending.Some? {
          FlushKeeps(s.rz.(debounce := false, pending := Some(s.rz.pending.value.(ready := true))), IsOpen(s));
        }
      case FitResize(d, f, i) =>
        assert Step(s, e) == ResizeRequest(s, d, f, i);
        RequestKeeps(s, d, f, i);
      case AfterPaint(_, _, fit, f) =>
        if fit.Some? { RequestKeeps(s, fit.value, f, true); }
        assert Step(s, e) == s || (fit.Some? && Step(s, e) == ResizeRequest(s, fit.value, f, true));
    }
  }

  lemma StepKeeps(s: Link, e: Event)
    requires Inv(s)
    ensures Inv(Step(s, e)) && (Echoes(s, e) ==> Lasts(s, Step(s, e)))
  {
    if IsFrame(e) { FrameStepKeeps(s, e); } else { LocalStepKeeps(s, e); }
  }

  predicate EchoRun(s: Link, events: seq<Event>)
    decreases |events|
  {
    events == [] || (Echoes(s, events[0]) && EchoRun(Step(s, events[0]), events[1..]))
  }

  lemma {:induction false} RunKeeps(s: Link, events: seq<Event>)
    requires Inv(s)
    ensures Inv(Run(s, events)) && (EchoRun(s, events) ==> Lasts(s, Run(s, events)))
    decreases |events|
  {
    if events != [] {
      StepKeeps(s, events[0]);
      RunKeeps(Step(s, events[0]), events[1..]);
    }
  }
}
