/**
 Proposals make progress: a queued proposal is sent once its timer, the
 attach-ack fallback timer or the answer to an attach comes, and the request in
 flight is acknowledged; where none of these is to come, nothing sends it but
 another proposal.
 */
module PtyProgress {
  import opened Common
  import opened OrderedResize
  import opened PtyResize
  import opened PtyProtocol
  import opened PtySafety
  import R = PtyResizeSafety
  import G = PtyGeometry

  // ----- output whose callbacks do nothing

  /** Only output was logged, and nothing that proposes or sends. */
  predicate Plain(s: Link, t: Link) {
    && t.ws == s.ws && t.rz == s.rz.(effects := t.rz.effects, emitted := t.rz.emitted)
    && G.GeometryOf(t.rz.effects) == G.GeometryOf(s.rz.effects)
  }

  lemma EmitPlain(s: Link, e: Effect)
    requires G.IsOutput(e)
    ensures Notify(s, e, map[]) == EmitOn(s, e) && Plain(s, EmitOn(s, e))
  {
  }

  lemma {:induction false} DeliverAllPlain(s: Link, chunks: seq<seq<Byte>>)
    ensures Plain(s, DeliverAll(s, chunks, map[]))
    decreases |chunks|
  {
    if chunks != [] {
      EmitPlain(s, Delivered(chunks[0]));
      DeliverAllPlain(EmitOn(s, Delivered(chunks[0])), chunks[1..]);
    }
  }

  lemma PassPrefillDonePlain(s: Link)
    ensures Plain(s, PassPrefillDone(s, map[]))
  {
    var s1 := s.(prefill := s.prefill.(awaiting := false, timer := None, chunks := []));
    EmitPlain(s1, PrefillReplaced);
    var s2 := if s.prefill.sawViewport && s.prefill.chunks != [] then EmitOn(s1, PrefillReplaced) else s1;
    var s3 := s2.(prefill := s2.prefill.(sawViewport := false));
    DeliverAllPlain(s3, s.prefill.chunks);
    EmitPlain(DeliverAll(s3, s.prefill.chunks, map[]), PrefillCompleted);
  }

  lemma PassPlain(s: Link, f: Frame)
    requires !s.rz.barrier
    ensures Plain(s, Replay(s, f, map[]))
  {
    EmitPlain(s, Passed(f));
    var s1 := EmitOn(s, Passed(f));
    match f {
      case Binary(d) => EmitPlain(s1, Delivered(d));
      case Control(k, n) =>
        match k {
          case PrefillViewport => DeliverAllPlain(s1.(prefill := s1.prefill.(chunks := [])), s1.prefill.chunks);
          case PrefillDone => PassPrefillDonePlain(s1);
          case PtyReady => EmitPlain(s1, Ready);
        }
    }
  }

  lemma {:induction false} DrainPlain(s: Link, frames: seq<Frame>, ws: Socket, generation: nat)
    requires !s.rz.barrier
    ensures Plain(s, Drain(s, frames, ws, generation, map[]))
    decreases |frames|
  {
    if !(frames == [] || !SameSocket(s.ws, ws) || s.rz.generation != generation) {
      PassPlain(s, frames[0]);
      DrainPlain(Replay(s, frames[0], map[]), frames[1..], ws, generation);
    }
  }

  /** An ack whose callbacks do nothing: the drain leaves the queue alone. */
  lemma AckPlain(s: Link, m: Ack) returns (r: Resize)
    requires s.rz.ordered && Completes(s.rz.tracker, m)
    ensures var r0 := Acknowledge(s.rz, Dims(m.cols, m.rows)).(barrier := false);
            && r == r0.(effects := r.effects, emitted := r.emitted)
            && G.GeometryOf(r.effects) == G.GeometryOf(s.rz.effects)
            && HandleResizeAck(s, m, map[]).rz == Resume(r, IsOpen(s)) && HandleResizeAck(s, m, map[]).ws == s.ws
  {
    var s0 := s.(rz := Acknowledge(s.rz, Dims(m.cols, m.rows)));
    assert Callback(s0, map[]) == s0;
    DrainPlain(s0.(rz := s0.rz.(barrier := false), deferred := [], deferredBytes := 0), s0.deferred, s0.ws, s0.rz.generation);
    r := Release(s0, map[]).rz;
  }

  // ----- being fed

  /** Timers, and frames whose callbacks do nothing; nobody proposes, connects
      or closes. `answers` tells whether an attach_ack is still to come, or the
      paint callback that it schedules. */
  predicate IsInternal(e: Event, answers: bool) {
    match e
    case DebounceFired => true
    case AckFallback(_) => true
    case PrefillDeadline => true
    case AttachRetried(_) => true
    case AckTimerFired => true
    case AckRetryFired => true
    case ViewerConflict => true
    case ControlGranted(_) => true
    case BinaryFrame(_, cb) => cb == map[]
    case ControlFrame(_, _, cb) => cb == map[]
    case ResizeAck(_, cb) => cb == map[]
    case AttachAck(_, _) => answers
    case AfterPaint(_, _, _, _) => answers
    case _ => false
  }

  predicate AllInternal(events: seq<Event>, answers: bool) {
    forall i :: 0 <= i < |events| ==> IsInternal(events[i], answers)
  }

  /** Some internal events take the queued proposal out of the queue, other
      than by cancelling its lifecycle. */
  ghost predicate Fed(s: Link, answers: bool) {
    exists events :: AllInternal(events, answers) && Run(s, events).rz.pending.None?
                     && Run(s, events).rz.generation == s.rz.generation
  }

  /** The timer for brokers that do not answer an attach is armed and will act. */
  predicate FallbackArmed(h: Handshake) {
    h.ackTimer && h.awaitingAck && !h.ackReceived
  }

  /** What the queue waits for: a timer or an answer, or the request in flight,
      which can be acknowledged while resizes are ordered or will be again. */
  predicate Feedable(s: Link, answers: bool) {
    if Idle(s) then answers || s.rz.debounce || FallbackArmed(s.attach)
    else IsPositiveSafeInteger(s.rz.tracker.pending.value.id) && (answers || s.rz.ordered)
  }

  // ----- nothing feeds the queue

  predicate Stuck(s: Link, answers: bool) {
    Inv(s) && !s.rz.draining && s.rz.pending.Some? && !Feedable(s, answers)
  }

  /** Stuck still, or the lifecycle was cancelled. */
  predicate StaysStuck(s: Link, t: Link, answers: bool) {
    s.rz.generation <= t.rz.generation && (t.rz.generation == s.rz.generation ==> Stuck(t, answers))
  }

  lemma {:induction false} DeliverAllAttach(s: Link, chunks: seq<seq<Byte>>)
    ensures DeliverAll(s, chunks, map[]).attach == s.attach
    decreases |chunks|
  {
    if chunks != [] {
      EmitPlain(s, Delivered(chunks[0]));
      DeliverAllAttach(EmitOn(s, Delivered(chunks[0])), chunks[1..]);
    }
  }

  lemma PassPrefillDoneAttach(s: Link)
    ensures PassPrefillDone(s, map[]).attach == s.attach
  {
    var s1 := s.(prefill := s.prefill.(awaiting := false, timer := None, chunks := []));
    EmitPlain(s1, PrefillReplaced);
    var s2 := if s.prefill.sawViewport && s.prefill.chunks != [] then EmitOn(s1, PrefillReplaced) else s1;
    var s3 := s2.(prefill := s2.prefill.(sawViewport := false));
    DeliverAllAttach(s3, s.prefill.chunks);
    EmitPlain(DeliverAll(s3, s.prefill.chunks, map[]), PrefillCompleted);
  }

  lemma PassAttach(s: Link, f: Frame)
    requires !s.rz.barrier
    ensures Replay(s, f, map[]).attach == s.attach
  {
    var s1 := EmitOn(s, Passed(f));
    match f {
      case Binary(d) => EmitPlain(s1, Delivered(d));
      case Control(k, n) =>
        match k {
          case PrefillViewport => DeliverAllAttach(s1.(prefill := s1.prefill.(chunks := [])), s1.prefill.chunks);
          case PrefillDone => PassPrefillDoneAttach(s1);
          case PtyReady => EmitPlain(s1, Ready);
        }
    }
  }

  lemma StuckOutput(s: Link, f: Frame, answers: bool)
    requires Stuck(s, answers)
    ensures var t := if s.rz.barrier then Defer(s, f) else Replay(s, f, map[]);
            Inv(t) ==> StaysStuck(s, t, answers)
  {
    if !s.rz.barrier {
      PassPlain(s, f);
      PassAttach(s, f);
    }
  }

  lemma FlushGeneration(r: Resize, open: bool)
    ensures Flush(r, open).generation == r.generation
  {
  }

  lemma AttachGeneration(s: Link, a: Attach)
    ensures SendAttach(s, a) == s || SendAttach(s, a).rz.generation > s.rz.generation
  {
    if IsOpen(s) && a.terminalReady && a.dims.Some? {
      var s1 := StartAttach(CancelLifecycle(s), a.dims.value);
      if a.stable.Some? && IsOpen(s1) && a.stable != s1.rz.lastSent {
        RequestGeneration(s1, a.stable.value, false, true);
      }
    }
  }

  lemma RequestGeneration(s: Link, dims: Dims, force: bool, immediate: bool)
    ensures ResizeRequest(s, dims, force, immediate).rz.generation == s.rz.generation
  {
    ProposeGeneration(s.rz, IsOpen(s), dims, force, immediate);
    AnsweredGeneration(Propose(s.rz, IsOpen(s), dims, force, immediate));
  }

  lemma ProposeGeneration(r: Resize, open: bool, dims: Dims, force: bool, immediate: bool)
    ensures Propose(r, open, dims, force, immediate).generation == r.generation
  {
    var ready := immediate || (r.pending.Some? && r.pending.value.ready);
    FlushGeneration(Emit(r, Proposed(dims, force)).(pending := Some(Proposal(dims, Forced(r, force), ready))), open);
  }

  lemma AnsweredGeneration(r: Resize)
    ensures Answered(r).0.generation == r.generation
  {
  }

  /** A request in flight keeps whatever is queued behind it. */
  lemma StuckRequest(s: Link, dims: Dims, force: bool, immediate: bool)
    requires Inv(s) && !s.rz.draining && s.rz.pending.Some? && !Idle(s) && (force || Some(dims) != s.rz.lastSent)
    ensures var t := ResizeRequest(s, dims, force, immediate);
            t.rz.tracker == s.rz.tracker && t.rz.pending.Some? && t.rz.generation == s.rz.generation
            && t.rz.ordered == s.rz.ordered && !t.rz.draining
  {
  }

  lemma StuckFallback(s: Link, fit: Option<Dims>, answers: bool)
    requires Stuck(s, answers)
    ensures Inv(FireAckFallback(s, fit)) ==> StaysStuck(s, FireAckFallback(s, fit), answers)
  {
    if FallbackArmed(s.attach) && fit.Some? {
      StuckRequest(s.(attach := s.attach.(ackTimer := false, awaitingAck := false), rz := s.rz.(lastSent := None)), fit.value, false, false);
    }
  }

  lemma StuckStep(s: Link, e: Event, answers: bool)
    requires Stuck(s, answers) && IsInternal(e, answers)
    ensures StaysStuck(s, Step(s, e), answers)
  {
    StepKeeps(s, e);
    if IsFrame(e) && !IsOpen(s) {
    } else {
      match e {
        case BinaryFrame(d, _) => StuckOutput(s, Binary(d), answers);
        case ControlFrame(k, n, _) => StuckOutput(s, Control(k, n), answers);
        case AckFallback(fit) => StuckFallback(s, fit, answers);
        case AttachRetried(a) => AttachGeneration(s.(attach := s.attach.(retry := false)), a);
        case ControlGranted(a) => AttachGeneration(s, a);
        case AfterPaint(_, _, fit, f) => if fit.Some? && (f || fit != s.rz.lastSent) { StuckRequest(s, fit.value, f, true); }
        case _ =>
      }
    }
  }

  lemma StepGeneration(s: Link, e: Event, answers: bool)
    requires IsInternal(e, answers)
    ensures s.rz.generation <= Step(s, e).rz.generation
  {
    match e {
      case BinaryFrame(d, _) => if !s.rz.barrier { PassPlain(s, Binary(d)); }
      case ControlFrame(k, n, _) => if !s.rz.barrier { PassPlain(s, Control(k, n)); }
      case ResizeAck(m, _) =>
        if s.rz.ordered && Completes(s.rz.tracker, m) {
          var r := AckPlain(s, m);
          FlushGeneration(r.(draining := false), IsOpen(s));
        }
      case DebounceFired =>
        if s.rz.pending.Some? {
          FlushGeneration(s.rz.(debounce := false, pending := Some(s.rz.pending.value.(ready := true))), IsOpen(s));
        }
      case AckFallback(fit) =>
        var s2 := s.(attach := s.attach.(ackTimer := false, awaitingAck := false), rz := s.rz.(lastSent := None));
        if fit.Some? { RequestGeneration(s2, fit.value, false, false); }
      case AttachRetried(a) => AttachGeneration(s.(attach := s.attach.(retry := false)), a);
      case ControlGranted(a) => AttachGeneration(s, a);
      case AfterPaint(_, _, fit, f) => if fit.Some? { RequestGeneration(s, fit.value, f, true); }
      case _ =>
    }
  }

  lemma {:induction false} GenerationGrows(s: Link, events: seq<Event>, answers: bool)
    requires AllInternal(events, answers)
    ensures s.rz.generation <= Run(s, events).rz.generation
    decreases |events|
  {
    if events != [] {
      StepGeneration(s, events[0], answers);
      GenerationGrows(Step(s, events[0]), events[1..], answers);
    }
  }

  lemma {:induction false} StuckRun(s: Link, events: seq<Event>, answers: bool)
    requires Stuck(s, answers) && AllInternal(events, answers)
    ensures Run(s, events).rz.generation == s.rz.generation ==> Run(s, events).rz.pending.Some?
    decreases |events|
  {
    if events != [] {
      var t := Step(s, events[0]);
      StuckStep(s, events[0], answers);
      if t.rz.generation == s.rz.generation { StuckRun(t, events[1..], answers); } else { GenerationGrows(t, events[1..], answers); }
    }
  }

  // ----- something feeds it

  lemma RunTwo(s: Link, a: Event, b: Event)
    ensures Run(s, [a, b]) == Step(Step(s, a), b) && Run(s, [a]) == Step(s, a)
  {
    assert [a, b][1..] == [b] && [b][1..] == [] && [a][1..] == [];
    assert Run(Step(Step(s, a), b), []) == Step(Step(s, a), b);
  }

  predicate Feeds(s: Link, t: Link) {
    t.rz.pending.None? && t.rz.generation == s.rz.generation
  }

  lemma FeedByTimer(s: Link)
    requires Inv(s) && IsOpen(s) && !s.rz.draining && s.rz.pending.Some? && Idle(s) && s.rz.debounce
    ensures Feeds(s, Step(s, DebounceFired))
  {
  }

  lemma FeedAtOnce(s: Link, dims: Dims, force: bool, immediate: bool)
    requires IsOpen(s) && !s.rz.draining && s.rz.pending.Some? && Idle(s)
    requires (force || Some(dims) != s.rz.lastSent) && (immediate || s.rz.pending.value.ready)
    ensures Feeds(s, ResizeRequest(s, dims, force, immediate))
  {
  }

  lemma FeedByFallback(s: Link)
    requires Inv(s) && IsOpen(s) && !s.rz.draining && s.rz.pending.Some? && Idle(s) && !s.rz.debounce && FallbackArmed(s.attach)
    ensures Feeds(s, Step(s, AckFallback(Some(Dims(1, 1)))))
  {
    FeedAtOnce(s.(attach := s.attach.(ackTimer := false, awaitingAck := false), rz := s.rz.(lastSent := None)), Dims(1, 1), false, false);
  }

  lemma FeedByAnswer(s: Link)
    requires Inv(s) && IsOpen(s) && !s.rz.draining && s.rz.pending.Some? && Idle(s)
    ensures Feeds(s, Step(Step(s, AttachAck(true, true)), AfterPaint(s.ws, s.rz.generation, Some(Dims(1, 1)), true)))
  {
    FeedAtOnce(HandleAttachAck(s, true), Dims(1, 1), true, true);
  }

  lemma FeedByAck(s: Link)
    requires Inv(s) && IsOpen(s) && !s.rz.draining && s.rz.pending.Some? && !Idle(s) && s.rz.ordered
    requires IsPositiveSafeInteger(s.rz.tracker.pending.value.id)
    ensures Feeds(s, Step(Step(s, DebounceFired), ResizeAck(Ack(s.rz.tracker.pending.value.id, 1, 1), map[])))
  {
    var s1, m := Step(s, DebounceFired), Ack(s.rz.tracker.pending.value.id, 1, 1);
    BecomesReady(s);
    var r := AckPlain(s1, m);
    FlushEmpties(r.(draining := false));
    FlushGeneration(r.(draining := false), true);
  }

  lemma BecomesReady(s: Link)
    requires Inv(s) && !s.rz.draining && s.rz.pending.Some? && !Idle(s)
    ensures var t := Step(s, DebounceFired);
            && t.rz.pending.Some? && t.rz.pending.value.ready && t.rz.tracker == s.rz.tracker && t.rz.ordered == s.rz.ordered
            && t.rz.generation == s.rz.generation && t.ws == s.ws
  {
  }

  lemma FlushEmpties(r: Resize)
    requires CanFlush(r, true)
    ensures Flush(r, true).pending.None?
  {
  }

  lemma FeedIdle(s: Link, answers: bool)
    requires Inv(s) && IsOpen(s) && !s.rz.draining && s.rz.pending.Some? && Idle(s) && Feedable(s, answers)
    ensures Fed(s, answers)
  {
    if s.rz.debounce {
      FeedByTimer(s);
      RunTwo(s, DebounceFired, DebounceFired);
      assert AllInternal([DebounceFired], answers);
    } else if FallbackArmed(s.attach) {
      var e := AckFallback(Some(Dims(1, 1)));
      FeedByFallback(s);
      RunTwo(s, e, e);
      assert AllInternal([e], answers);
    } else {
      var e, f := AttachAck(true, true), AfterPaint(s.ws, s.rz.generation, Some(Dims(1, 1)), true);
      FeedByAnswer(s);
      RunTwo(s, e, f);
      assert AllInternal([e, f], answers);
    }
  }

  lemma FeedInFlight(s: Link, answers: bool)
    requires Inv(s) && IsOpen(s) && !s.rz.draining && s.rz.pending.Some? && !Idle(s) && Feedable(s, answers)
    ensures Fed(s, answers)
  {
    var ack := ResizeAck(Ack(s.rz.tracker.pending.value.id, 1, 1), map[]);
    if s.rz.ordered {
      FeedByAck(s);
      RunTwo(s, DebounceFired, ack);
      assert AllInternal([DebounceFired, ack], answers);
    } else {
      var e := AttachAck(true, true);
      var s1 := Step(s, e);
      StepKeeps(s, e);
      FeedByAck(s1);
      RunTwo(s1, DebounceFired, ack);
      var events := [e, DebounceFired, ack];
      assert events[1..] == [DebounceFired, ack];
      assert Run(s, events) == Run(s1, [DebounceFired, ack]);
      assert AllInternal(events, answers);
    }
  }

  /** A queued proposal on an open socket can still be sent exactly when, with
      no request in flight, its timer or the fallback timer is armed or an
      attach is still answered; and behind a request in flight, when that can
      be acknowledged. */
  lemma FedExact(s: Link, answers: bool)
    requires Inv(s) && IsOpen(s) && !s.rz.draining && s.rz.pending.Some?
    ensures Fed(s, answers) <==> Feedable(s, answers)
  {
    if Feedable(s, answers) {
      if Idle(s) { FeedIdle(s, answers); } else { FeedInFlight(s, answers); }
    } else {
      forall events | AllInternal(events, answers)
        ensures Run(s, events).rz.pending.Some? || Run(s, events).rz.generation != s.rz.generation
      {
        StuckRun(s, events, answers);
      }
    }
  }

  /** No proposal is starved, as long as no capability is withdrawn in flight
      and no socket opens unmounted over a stale proposal. */
  lemma EveryProposalIsFed(mode: PrefillMode, events: seq<Event>)
    requires MountedRun(InitialLink(mode), events) && HoldsOutputRun(InitialLink(mode), events)
    ensures var t := Run(InitialLink(mode), events);
            IsOpen(t) && t.rz.pending.Some? && t.rz.tracker.nextId <= MAX_SAFE_INTEGER ==> Fed(t, false)
  {
    var t := Run(InitialLink(mode), events);
    RunKeeps(InitialLink(mode), events);
    if IsOpen(t) && t.rz.pending.Some? { FedExact(t, false); }
  }

  /** A socket that opens under an unmounted terminal sends no attach, so none
      is answered on it: it starves the proposal left over from the socket
      before exactly when, with no request in flight, neither of the two timers
      is armed, or the request in flight cannot be acknowledged. */
  lemma UnmountedOpenExact(s: Link, a: Attach)
    requires Inv(s) && !s.rz.draining && IsConnecting(s) && !a.terminalReady && s.rz.pending.Some?
    ensures Step(s, SocketOpened(a)).rz.effects == s.rz.effects
    ensures Fed(Step(s, SocketOpened(a)), false)
            <==> if Idle(s) then s.rz.debounce || FallbackArmed(s.attach)
                 else s.rz.ordered && IsPositiveSafeInteger(s.rz.tracker.pending.value.id)
  {
    FedExact(Step(s, SocketOpened(a)), false);
  }
}
