/**
 The socket client over every run: one ordered resize at a time, every promise
 settled once and none forgotten, and a bounded hold on output, whatever the
 environment does. Three more guarantees need an environment that does not
 defeat them, each in its own way: output is held back while a resize is in
 flight, no proposal is starved, and frames are held only behind a barrier.
 */
module PtySafety {
  import opened Common
  import opened OrderedResize
  import opened PtyResize
  import opened PtyProtocol
  import R = PtyResizeSafety

  function TotalSize(frames: seq<Frame>): nat
    decreases |frames|
  {
    if frames == [] then 0 else TotalSize(frames[..|frames| - 1]) + FrameSize(frames[|frames| - 1])
  }

  lemma TotalSizeAppend(frames: seq<Frame>, f: Frame)
    ensures TotalSize(frames + [f]) == TotalSize(frames) + FrameSize(f)
  {
    assert (frames + [f])[..|frames|] == frames;
  }

  predicate Inv(s: Link) {
    R.Inv(s.rz) && s.deferredBytes == TotalSize(s.deferred) <= ORDERED_RESIZE_BARRIER_MAX_BYTES
  }

  predicate Idle(s: Link) {
    s.rz.tracker.pending.None?
  }

  /** A promise that the client holds has something that will settle it. */
  predicate NotStranded(s: Link) {
    R.NotStranded(s.rz)
  }

  predicate Held(s: Link) {
    R.Held(s.rz)
  }

  predicate NotStarved(s: Link) {
    R.NotStarved(s.rz, IsOpen(s))
  }

  /** Frames are held only behind a barrier. */
  predicate Barred(s: Link) {
    s.deferred != [] ==> s.rz.barrier
  }

  /** What a handler leaves alone. */
  predicate Follows(s: Link, t: Link) {
    && R.Follows(s.rz, t.rz) && (s.deferred == [] ==> t.deferred == [])
    && (NotStarved(s) ==> NotStarved(t)) && (Barred(s) ==> Barred(t))
  }

  predicate Keeps(s: Link, t: Link) {
    Follows(s, t) && (Held(s) ==> Held(t))
  }

  lemma RequestKeeps(s: Link, dims: Dims, force: bool, immediate: bool)
    requires Inv(s)
    ensures var t := ResizeRequest(s, dims, force, immediate);
            Inv(t) && Keeps(s, t) && (Idle(s) && (s.rz.draining || !s.rz.ordered) ==> Idle(t))
  {
    R.QueueKeeps(s.rz, IsOpen(s), dims, force, immediate);
  }

  lemma RetireKeeps(s: Link)
    requires Inv(s)
    ensures Inv(ResetAttach(s)) && Inv(Retire(s)) && Keeps(s, ResetAttach(s)) && Keeps(s, Retire(s)) && Idle(Retire(s))
  {
    R.CancelKeeps(s.rz);
  }

  // ----- callbacks

  predicate Requests(actions: seq<Action>) {
    exists i :: 0 <= i < |actions| && actions[i].AskResize?
  }

  /** One of the requests is not to wait for the timer. */
  predicate Hurries(actions: seq<Action>) {
    exists i :: 0 <= i < |actions| && actions[i].AskResize? && actions[i].immediate
  }

  predicate NeverRequests(cb: Callbacks) {
    forall k :: k in cb ==> !Requests(cb[k])
  }

  predicate NeverHurries(cb: Callbacks) {
    forall k :: k in cb ==> !Hurries(cb[k])
  }

  /** A proposal became ready while no socket could take it. */
  predicate StaleReady(r: Resize) {
    r.pending.Some? && r.pending.value.ready && r.tracker.pending.None?
  }

  /** No ordered resize is sent by actions that request none, or only such as
      wait for the timer while nothing is ready. */
  predicate CannotSend(s: Link, requests: bool, hurries: bool) {
    s.rz.draining || !s.rz.ordered || !requests || (!hurries && !StaleReady(s.rz))
  }

  lemma ActKeeps(s: Link, a: Action)
    requires Inv(s)
    ensures Inv(Act(s, a)) && Keeps(s, Act(s, a))
  {
    match a {
      case AskResize(d, f, i) => RequestKeeps(s, d, f, i);
      case Disconnect => RetireKeeps(s);
    }
  }

  lemma ActSendsNothing(s: Link, a: Action, requests: bool, hurries: bool)
    requires Inv(s) && Idle(s) && CannotSend(s, requests, hurries)
    requires a.AskResize? ==> requests && (a.immediate ==> hurries)
    ensures Idle(Act(s, a)) && CannotSend(Act(s, a), requests, hurries)
  {
    ActKeeps(s, a);
    match a {
      case AskResize(d, f, i) => if s.rz.draining || !s.rz.ordered { RequestKeeps(s, d, f, i); } else { RequestWaits(s, d, f); }
      case Disconnect => R.CancelKeeps(s.rz);
    }
  }

  /** A request that waits for the timer is not sent, and nothing becomes ready. */
  lemma RequestWaits(s: Link, dims: Dims, force: bool)
    requires Inv(s) && Idle(s) && !StaleReady(s.rz)
    ensures Idle(ResizeRequest(s, dims, force, false)) && !StaleReady(ResizeRequest(s, dims, force, false).rz)
  {
    var r := Propose(s.rz, IsOpen(s), dims, force, false);
    assert r.tracker.pending.None? && !StaleReady(r);
  }

  lemma {:induction false} ActsKeep(s: Link, actions: seq<Action>)
    requires Inv(s)
    ensures Inv(Acts(s, actions)) && Keeps(s, Acts(s, actions))
    decreases |actions|
  {
    if actions != [] {
      ActKeeps(s, actions[0]);
      ActsKeep(Act(s, actions[0]), actions[1..]);
    }
  }

  lemma {:induction false} ActsSendNothing(s: Link, actions: seq<Action>, requests: bool, hurries: bool)
    requires Inv(s) && Idle(s) && CannotSend(s, requests, hurries)
    requires (Requests(actions) ==> requests) && (Hurries(actions) ==> hurries)
    ensures Idle(Acts(s, actions)) && CannotSend(Acts(s, actions), requests, hurries)
    decreases |actions|
  {
    if actions != [] {
      assert forall i :: 0 <= i < |actions[1..]| ==> actions[1..][i] == actions[i + 1];
      ActKeeps(s, actions[0]);
      ActSendsNothing(s, actions[0], requests, hurries);
      ActsSendNothing(Act(s, actions[0]), actions[1..], requests, hurries);
    }
  }

  /** No ordered resize can be sent from a callback. */
  predicate CallbacksCannotSend(s: Link, cb: Callbacks) {
    CannotSend(s, !NeverRequests(cb), !NeverHurries(cb))
  }

  /** Nothing is in flight, and no callback changes that. */
  predicate Quiet(s: Link, cb: Callbacks) {
    Idle(s) && CallbacksCannotSend(s, cb)
  }

  lemma CallbackKeeps(s: Link, cb: Callbacks)
    requires Inv(s)
    ensures Inv(Callback(s, cb)) && Keeps(s, Callback(s, cb))
    ensures Quiet(s, cb) ==> Quiet(Callback(s, cb), cb)
  {
    if s.rz.emitted in cb.Keys {
      ActsKeep(s, cb[s.rz.emitted]);
      if Quiet(s, cb) { ActsSendNothing(s, cb[s.rz.emitted], !NeverRequests(cb), !NeverHurries(cb)); }
    }
  }

  lemma NotifyKeeps(s: Link, e: Effect, cb: Callbacks)
    requires Inv(s) && R.IsNeutral(e)
    ensures Inv(Notify(s, e, cb)) && Follows(s, Notify(s, e, cb))
    ensures (e.Delivered? ==> Idle(s)) ==> Keeps(s, Notify(s, e, cb))
    ensures Quiet(s, cb) ==> Quiet(Notify(s, e, cb), cb)
  {
    R.NeutralKeeps(s.rz, e);
    CallbackKeeps(EmitOn(s, e), cb);
  }

  lemma {:induction false} DeliverAllKeeps(s: Link, chunks: seq<seq<Byte>>, cb: Callbacks)
    requires Inv(s)
    ensures Inv(DeliverAll(s, chunks, cb)) && Follows(s, DeliverAll(s, chunks, cb))
    ensures Idle(s) && (CallbacksCannotSend(s, cb) || |chunks| <= 1) ==> Keeps(s, DeliverAll(s, chunks, cb))
    ensures Quiet(s, cb) ==> Quiet(DeliverAll(s, chunks, cb), cb)
    decreases |chunks|
  {
    if chunks != [] {
      NotifyKeeps(s, Delivered(chunks[0]), cb);
      DeliverAllKeeps(Notify(s, Delivered(chunks[0]), cb), chunks[1..], cb);
    }
  }

  // ----- output

  lemma DeferKeeps(s: Link, f: Frame)
    requires Inv(s) && s.rz.barrier
    ensures Inv(Defer(s, f)) && Defer(s, f).rz == s.rz && (NotStarved(s) ==> NotStarved(Defer(s, f)))
  {
    TotalSizeAppend(s.deferred, f);
  }

  lemma PassBinaryKeeps(s: Link, data: seq<Byte>, cb: Callbacks)
    requires Inv(s)
    ensures Inv(PassBinary(s, data, cb)) && Follows(s, PassBinary(s, data, cb))
    ensures Idle(s) ==> Keeps(s, PassBinary(s, data, cb))
    ensures Quiet(s, cb) ==> Quiet(PassBinary(s, data, cb), cb)
  {
    R.NeutralKeeps(s.rz, Passed(Binary(data)));
    NotifyKeeps(EmitOn(s, Passed(Binary(data))), Delivered(data), cb);
  }

  /** A prefill flush hands over more output after a callback has run. */
  predicate FlushOutlastsCallback(p: Prefill, kind: ControlKind) {
    match kind
    case PrefillViewport => |p.chunks| >= 2
    case PrefillDone => |p.chunks| >= 2 || (p.sawViewport && p.chunks != [])
    case PtyReady => false
  }

  lemma PassPrefillDoneKeeps(s: Link, cb: Callbacks)
    requires Inv(s)
    ensures Inv(PassPrefillDone(s, cb)) && Follows(s, PassPrefillDone(s, cb))
    ensures Idle(s) && (CallbacksCannotSend(s, cb) || !FlushOutlastsCallback(s.prefill, PrefillDone))
            ==> Keeps(s, PassPrefillDone(s, cb))
    ensures Quiet(s, cb) ==> Quiet(PassPrefillDone(s, cb), cb)
  {
    var discards := s.prefill.sawViewport && s.prefill.chunks != [];
    var s1 := s.(prefill := s.prefill.(awaiting := false, timer := None, chunks := []));
    ReplaceKeeps(s1, discards, cb);
    var s2 := if discards then Notify(s1, PrefillReplaced, cb) else s1;
    CompleteKeeps(s2.(prefill := s2.prefill.(sawViewport := false)), s.prefill.chunks, cb);
    assert Follows(s, s1);
  }

  lemma ReplaceKeeps(s: Link, discards: bool, cb: Callbacks)
    requires Inv(s)
    ensures var t := if discards then Notify(s, PrefillReplaced, cb) else s;
            Inv(t) && Keeps(s, t) && (Idle(s) && !discards ==> Idle(t)) && (Quiet(s, cb) ==> Quiet(t, cb))
  {
    NotifyKeeps(s, PrefillReplaced, cb);
  }

  lemma CompleteKeeps(s: Link, chunks: seq<seq<Byte>>, cb: Callbacks)
    requires Inv(s)
    ensures var t := Notify(DeliverAll(s, chunks, cb), PrefillCompleted, cb);
            && Inv(t) && Follows(s, t)
            && (Idle(s) && (CallbacksCannotSend(s, cb) || |chunks| <= 1) ==> Keeps(s, t))
            && (Quiet(s, cb) ==> Quiet(t, cb))
  {
    DeliverAllKeeps(s, chunks, cb);
    NotifyKeeps(DeliverAll(s, chunks, cb), PrefillCompleted, cb);
  }

  lemma PassControlKeeps(s: Link, kind: ControlKind, size: nat, cb: Callbacks)
    requires Inv(s)
    ensures Inv(PassControl(s, kind, size, cb)) && Follows(s, PassControl(s, kind, size, cb))
    ensures Idle(s) && (CallbacksCannotSend(s, cb) || !FlushOutlastsCallback(s.prefill, kind))
            ==> Keeps(s, PassControl(s, kind, size, cb))
    ensures Quiet(s, cb) ==> Quiet(PassControl(s, kind, size, cb), cb)
  {
    R.NeutralKeeps(s.rz, Passed(Control(kind, size)));
    var s1, t := EmitOn(s, Passed(Control(kind, size))), PassControl(s, kind, size, cb);
    assert Inv(s1) && Keeps(s, s1) && (Quiet(s, cb) ==> Quiet(s1, cb)) && s1.prefill == s.prefill;
    match kind {
      case PrefillViewport => PassViewportKeeps(s1, cb);
      case PrefillDone => PassPrefillDoneKeeps(s1, cb);
      case PtyReady => NotifyKeeps(s1, Ready, cb);
    }
    KeepsJoin(s, s1, t);
  }

  lemma KeepsJoin(s: Link, m: Link, t: Link)
    requires Keeps(s, m) && Follows(m, t)
    ensures Follows(s, t) && (Keeps(m, t) ==> Keeps(s, t))
  {
  }

  lemma PassViewportKeeps(s: Link, cb: Callbacks)
    requires Inv(s)
    ensures Inv(PassViewport(s, cb)) && Follows(s, PassViewport(s, cb))
    ensures Idle(s) && (CallbacksCannotSend(s, cb) || !FlushOutlastsCallback(s.prefill, PrefillViewport))
            ==> Keeps(s, PassViewport(s, cb))
    ensures Quiet(s, cb) ==> Quiet(PassViewport(s, cb), cb)
  {
    DeliverAllKeeps(s.(prefill := s.prefill.(chunks := [])), s.prefill.chunks, cb);
  }

  lemma {:induction false} DrainKeeps(s: Link, frames: seq<Frame>, ws: Socket, generation: nat, cb: Callbacks)
    requires Inv(s) && s.rz.draining && !s.rz.barrier && s.deferred == []
    ensures var t := Drain(s, frames, ws, generation, cb);
            Inv(t) && t.rz.draining && t.deferred == [] && s.rz.nextPromise <= t.rz.nextPromise && (Held(s) ==> Held(t))
    decreases |frames|
  {
    if !(frames == [] || !SameSocket(s.ws, ws) || s.rz.generation != generation) {
      match frames[0] {
        case Binary(d) => PassBinaryKeeps(s, d, cb);
        case Control(k, n) => PassControlKeeps(s, k, n, cb);
      }
      DrainKeeps(Replay(s, frames[0], cb), frames[1..], ws, generation, cb);
    }
  }

  lemma ReleaseKeeps(s: Link, cb: Callbacks)
    requires Inv(s) && s.rz.draining
    ensures var t := Release(s, cb);
            Inv(t) && t.rz.draining && t.deferred == [] && s.rz.nextPromise <= t.rz.nextPromise && (Held(s) ==> Held(t))
  {
    var s1 := s.(rz := s.rz.(barrier := false), deferred := [], deferredBytes := 0);
    DrainKeeps(s1, s.deferred, s.ws, s.rz.generation, cb);
  }

  /** What holds after a step outside a drain. */
  predicate Steps(s: Link, t: Link) {
    Inv(t) && !t.rz.draining && s.rz.nextPromise <= t.rz.nextPromise && (NotStranded(s) ==> NotStranded(t))
  }

  lemma HandleResizeAckKeeps(s: Link, m: Ack, cb: Callbacks)
    requires Inv(s) && !s.rz.draining
    ensures var t := HandleResizeAck(s, m, cb);
            && Steps(s, t)
            && (Held(s) ==> Held(t)) && (NotStarved(s) ==> NotStarved(t)) && (Barred(s) ==> Barred(t))
  {
    if s.rz.ordered && Completes(s.rz.tracker, m) {
      R.AcknowledgeKeeps(s.rz, Dims(m.cols, m.rows));
      var s0 := s.(rz := Acknowledge(s.rz, Dims(m.cols, m.rows)));
      CallbackKeeps(s0, cb);
      ReleaseKeeps(Callback(s0, cb), cb);
      var s2 := Release(Callback(s0, cb), cb);
      R.ResumeKeeps(s2.rz, IsOpen(s2));
    }
  }

  /** A proposal made by a callback while frames are replayed is not forgotten:
      when the handler returns, whatever is ready has been sent. */
  lemma AckLeavesNothingReady(s: Link, m: Ack, cb: Callbacks)
    requires Inv(s) && !s.rz.draining && s.rz.ordered && Completes(s.rz.tracker, m)
    ensures var t := HandleResizeAck(s, m, cb);
            IsOpen(t) && t.rz.pending.Some? ==> !t.rz.pending.value.ready && t.rz.debounce && Idle(t)
  {
    R.AcknowledgeKeeps(s.rz, Dims(m.cols, m.rows));
    var s0 := s.(rz := Acknowledge(s.rz, Dims(m.cols, m.rows)));
    CallbackKeeps(s0, cb);
    ReleaseKeeps(Callback(s0, cb), cb);
  }

  // ----- attach

  lemma SendLayoutStableKeeps(s: Link, fit: Option<Dims>, force: bool)
    requires Inv(s) && !s.rz.draining
    ensures Steps(s, SendLayoutStable(s, fit, force)) && Keeps(s, SendLayoutStable(s, fit, force))
  {
    if fit.Some? { RequestKeeps(s, fit.value, force, true); }
  }

  lemma StartAttachKeeps(s: Link, dims: Dims)
    requires Inv(s) && s.ws.Socket?
    ensures Inv(StartAttach(s, dims)) && Keeps(s, StartAttach(s, dims))
  {
    R.NeutralKeeps(s.rz.(lastSent := Some(dims)), SentAttach(dims));
  }

  /** An attach starts afresh, so no earlier proposal can be left starving. */
  lemma SendAttachKeeps(s: Link, a: Attach)
    requires Inv(s) && !s.rz.draining
    ensures var t := SendAttach(s, a);
            && Steps(s, t) && (Held(s) ==> Held(t)) && (Barred(s) ==> Barred(t))
            && (NotStarved(s) || (IsOpen(s) && a.terminalReady) ==> NotStarved(t))
  {
    if IsOpen(s) && a.terminalReady {
      R.CancelKeeps(s.rz);
      var s1 := CancelLifecycle(s);
      if a.dims.Some? {
        StartAttachKeeps(s1, a.dims.value);
        SendLayoutStableKeeps(StartAttach(s1, a.dims.value), a.stable, false);
      }
    }
  }

  lemma FallbackKeeps(s: Link, fit: Option<Dims>)
    requires Inv(s) && !s.rz.draining
    ensures Steps(s, FireAckFallback(s, fit)) && Keeps(s, FireAckFallback(s, fit))
  {
    var s2 := s.(attach := s.attach.(ackTimer := false, awaitingAck := false), rz := s.rz.(lastSent := None));
    assert Inv(s2) && Keeps(s, s2);
    if fit.Some? {
      RequestKeeps(s2, fit.value, false, false);
      KeepsJoin(s, s2, ResizeRequest(s2, fit.value, false, false));
    }
  }

  // ----- every step

  /** The capability is not withdrawn from a request in flight, and no callback
      sends a resize in the middle of a prefill flush outside a drain. */
  predicate HoldsOutput(s: Link, e: Event) {
    match e
    case AttachAck(o, _) => o || !IsOpen(s) || Idle(s)
    case ControlFrame(k, _, cb) =>
      !IsOpen(s) || s.rz.barrier || !FlushOutlastsCallback(s.prefill, k) || CallbacksCannotSend(s, cb)
    case _ => true
  }

  /** No socket opens under an unmounted terminal over a stale proposal. */
  predicate Mounted(s: Link, e: Event) {
    e.SocketOpened? ==> e.a.terminalReady || !IsConnecting(s) || !StaleReady(s.rz)
  }

  /** The capability is not withdrawn over held frames. */
  predicate Orderly(s: Link, e: Event) {
    e.AttachAck? ==> e.ordered || !IsOpen(s) || s.deferred == []
  }

  /** What a step keeps: the invariant in any case, and each guarantee where
      the event does not defeat it. */
  predicate Taken(s: Link, e: Event, t: Link) {
    && Steps(s, t)
    && (Held(s) && HoldsOutput(s, e) ==> Held(t))
    && (NotStarved(s) && Mounted(s, e) ==> NotStarved(t))
    && (Barred(s) && Orderly(s, e) ==> Barred(t))
  }

  lemma OutputStepKeeps(s: Link, e: Event)
    requires Inv(s) && !s.rz.draining && IsOpen(s) && (e.BinaryFrame? || e.ControlFrame?)
    ensures Taken(s, e, Step(s, e))
  {
    match e {
      case BinaryFrame(d, cb) =>
        assert Step(s, e) == HandleBinary(s, d, cb);
        if s.rz.barrier { DeferKeeps(s, Binary(d)); } else { PassBinaryKeeps(s, d, cb); }
      case ControlFrame(k, n, cb) =>
        assert Step(s, e) == HandleControl(s, k, n, cb);
        if s.rz.barrier { DeferKeeps(s, Control(k, n)); } else { PassControlKeeps(s, k, n, cb); }
    }
  }

  lemma AttachStepKeeps(s: Link, e: Event)
    requires Inv(s) && !s.rz.draining
    requires e.SocketOpened? || e.TerminalReady? || e.AttachRetried? || (e.ControlGranted? && IsOpen(s))
    ensures Taken(s, e, Step(s, e))
  {
    match e {
      case SocketOpened(a) => if IsConnecting(s) { SendAttachKeeps(s.(ws := s.ws.(phase := Phase.Open)), a); }
      case TerminalReady(a) => SendAttachKeeps(s, a);
      case AttachRetried(a) => SendAttachKeeps(s.(attach := s.attach.(retry := false)), a);
      case ControlGranted(a) => SendAttachKeeps(s, a);
    }
  }

  /** The events that are not frames and do not attach. */
  lemma LocalStepKeeps(s: Link, e: Event)
    requires Inv(s) && !s.rz.draining && !IsFrame(e)
    requires !e.SocketOpened? && !e.TerminalReady? && !e.AttachRetried?
    ensures Taken(s, e, Step(s, e))
  {
    match e {
      case SocketClosed => RetireKeeps(s.(ws := NoSocket));
      case Retired => RetireKeeps(s);
      case AckFallback(_) => RequestStepKeeps(s, e);
      case DebounceFired => RequestStepKeeps(s, e);
      case FitResize(_, _, _) => RequestStepKeeps(s, e);
      case AfterPaint(_, _, _, _) => RequestStepKeeps(s, e);
      case _ =>
    }
  }

  lemma RequestStepKeeps(s: Link, e: Event)
    requires Inv(s) && !s.rz.draining && (e.AckFallback? || e.DebounceFired? || e.FitResize? || e.AfterPaint?)
    ensures Taken(s, e, Step(s, e))
  {
    match e {
      case AckFallback(fit) =>
        assert Step(s, e) == FireAckFallback(s, fit);
        FallbackKeeps(s, fit);
      case DebounceFired =>
        assert Step(s, e) == s.(rz := FireDebounce(s.rz, IsOpen(s)));
        R.FireDebounceKeeps(s.rz, IsOpen(s));
      case FitResize(d, f, i) =>
        assert Step(s, e) == ResizeRequest(s, d, f, i);
        RequestKeeps(s, d, f, i);
      case AfterPaint(_, _, fit, f) =>
        assert Step(s, e) == s || Step(s, e) == SendLayoutStable(s, fit, f);
        SendLayoutStableKeeps(s, fit, f);
    }
  }

  lemma StepKeeps(s: Link, e: Event)
    requires Inv(s) && !s.rz.draining
    ensures Taken(s, e, Step(s, e))
  {
    if IsFrame(e) && !IsOpen(s) {
    } else {
      match e {
        case BinaryFrame(_, _) => OutputStepKeeps(s, e);
        case ControlFrame(_, _, _) => OutputStepKeeps(s, e);
        case ResizeAck(m, cb) => HandleResizeAckKeeps(s, m, cb);
        case ControlGranted(_) => AttachStepKeeps(s, e);
        case SocketOpened(_) => AttachStepKeeps(s, e);
        case TerminalReady(_) => AttachStepKeeps(s, e);
        case AttachRetried(_) => AttachStepKeeps(s, e);
        case AttachAck(_, _) =>
        case ViewerConflict => R.NeutralKeeps(s.rz, Conflicted);
        case _ => LocalStepKeeps(s, e);
      }
    }
  }

  // ----- every run

  predicate HoldsOutputRun(s: Link, events: seq<Event>)
    decreases |events|
  {
    events == [] || (HoldsOutput(s, events[0]) && HoldsOutputRun(Step(s, events[0]), events[1..]))
  }

  predicate MountedRun(s: Link, events: seq<Event>)
    decreases |events|
  {
    events == [] || (Mounted(s, events[0]) && MountedRun(Step(s, events[0]), events[1..]))
  }

  predicate OrderlyRun(s: Link, events: seq<Event>)
    decreases |events|
  {
    events == [] || (Orderly(s, events[0]) && OrderlyRun(Step(s, events[0]), events[1..]))
  }

  lemma {:induction false} RunKeeps(s: Link, events: seq<Event>)
    requires Inv(s) && !s.rz.draining
    ensures Steps(s, Run(s, events))
    ensures Held(s) && HoldsOutputRun(s, events) ==> Held(Run(s, events))
    ensures NotStarved(s) && MountedRun(s, events) ==> NotStarved(Run(s, events))
    ensures Barred(s) && OrderlyRun(s, events) ==> Barred(Run(s, events))
    decreases |events|
  {
    if events != [] {
      StepKeeps(s, events[0]);
      RunKeeps(Step(s, events[0]), events[1..]);
    }
  }
}
