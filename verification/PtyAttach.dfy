/**
 Attaching and its timers in public/pty-socket-client.ts: when an attach is
 sent, how often it is tried, what its timers do, and that a client without a
 socket has none of them armed.
 */
module PtyAttach {
  import opened Common
  import opened OrderedResize
  import opened PtyResize
  import opened PtyProtocol
  import R = PtyResizeSafety

  /** The geometries of the attaches sent, oldest first. */
  function Attaches(log: Log): seq<Dims> {
    match log
    case Start => []
    case Log(before, e) => Attaches(before) + (match e case SentAttach(d) => [d] case _ => [])
  }

  /** No timer is armed, and nothing is queued, in flight, buffered or held. */
  predicate Disarmed(s: Link) {
    && !s.attach.retry && s.attach.attempt == 0 && !s.attach.ackTimer && s.prefill.timer.None? && !s.rz.debounce
    && s.rz.pending.None? && s.rz.tracker.pending.None? && s.rz.settlement.None?
    && s.prefill.chunks == [] && s.deferred == []
  }

  /** - an attach that is not answered has its fallback timer armed
      - a prefill deadline is armed only while prefill_done is to come
      - without a socket nothing is armed */
  predicate Armed(s: Link) {
    && (s.attach.awaitingAck <==> s.attach.ackTimer)
    && (s.attach.awaitingAck ==> !s.attach.ackReceived)
    && (s.prefill.timer.Some? ==> s.prefill.awaiting)
    && s.attach.attempt <= 20
    && (s.ws.NoSocket? ==> Disarmed(s))
  }

  /** Kept, and no attach is sent. */
  predicate Stays(s: Link, t: Link) {
    Armed(t) && Attaches(t.rz.effects) == Attaches(s.rz.effects)
  }

  // ----- resizes

  lemma FlushStays(r: Resize, open: bool)
    ensures Attaches(Flush(r, open).effects) == Attaches(r.effects)
  {
    if CanFlush(r, open) { assert Attaches(SendProposal(r).effects) == Attaches(r.effects); }
  }

  lemma ProposeStays(r: Resize, open: bool, dims: Dims, force: bool, immediate: bool)
    ensures Attaches(Propose(r, open, dims, force, immediate).effects) == Attaches(r.effects)
  {
    var r0 := Emit(r, Proposed(dims, force));
    assert Attaches(r0.effects) == Attaches(r.effects);
    var ready := immediate || (r0.pending.Some? && r0.pending.value.ready);
    FlushStays(r0.(pending := Some(Proposal(dims, Forced(r, force), ready))), open);
    SettleStays(ClearQueued(r0));
  }

  lemma SettleStays(r: Resize)
    ensures Attaches(SettleIfIdle(r).effects) == Attaches(r.effects) && Attaches(Answered(r).0.effects) == Attaches(r.effects)
  {
  }

  lemma QueueStays(r: Resize, open: bool, dims: Dims, force: bool, immediate: bool)
    ensures Attaches(Queue(r, open, dims, force, immediate).0.effects) == Attaches(r.effects)
  {
    ProposeStays(r, open, dims, force, immediate);
    SettleStays(Propose(r, open, dims, force, immediate));
  }

  lemma RequestStays(s: Link, dims: Dims, force: bool, immediate: bool)
    requires Armed(s)
    ensures Stays(s, ResizeRequest(s, dims, force, immediate))
  {
    QueueStays(s.rz, IsOpen(s), dims, force, immediate);
  }

  lemma CancelStays(r: Resize)
    ensures var t := Cancel(r);
            && Attaches(t.effects) == Attaches(r.effects)
            && !t.debounce && t.pending.None? && t.tracker.pending.None? && t.settlement.None?
  {
    var r1 := Settle(ClearQueued(r.(generation := r.generation + 1)), Cancelled);
    assert Attaches(r1.effects) == Attaches(r.effects);
  }

  lemma ResetStays(s: Link)
    requires s.attach.attempt <= 20
    ensures Stays(s, ResetAttach(s)) && Disarmed(ResetAttach(s))
  {
    CancelStays(s.rz);
  }

  // ----- callbacks and output

  lemma {:induction false} ActsStay(s: Link, actions: seq<Action>)
    requires Armed(s)
    ensures Stays(s, Acts(s, actions))
    decreases |actions|
  {
    if actions != [] {
      match actions[0] {
        case AskResize(d, f, i) => RequestStays(s, d, f, i);
        case Disconnect => ResetStays(s);
      }
      ActsStay(Act(s, actions[0]), actions[1..]);
    }
  }

  lemma NotifyStays(s: Link, e: Effect, cb: Callbacks)
    requires Armed(s) && !e.SentAttach?
    ensures Stays(s, Notify(s, e, cb))
  {
    var t := EmitOn(s, e);
    if t.rz.emitted in cb.Keys { ActsStay(t, cb[t.rz.emitted]); }
  }

  lemma {:induction false} DeliverAllStays(s: Link, chunks: seq<seq<Byte>>, cb: Callbacks)
    requires Armed(s)
    ensures Stays(s, DeliverAll(s, chunks, cb))
    decreases |chunks|
  {
    if chunks != [] {
      NotifyStays(s, Delivered(chunks[0]), cb);
      DeliverAllStays(Notify(s, Delivered(chunks[0]), cb), chunks[1..], cb);
    }
  }

  lemma PassBinaryStays(s: Link, data: seq<Byte>, cb: Callbacks)
    requires Armed(s) && s.ws.Socket?
    ensures Stays(s, PassBinary(s, data, cb))
  {
    var s1 := EmitOn(s, Passed(Binary(data)));
    assert Stays(s, s1);
    NotifyStays(s1, Delivered(data), cb);
  }

  lemma PassPrefillDoneStays(s: Link, cb: Callbacks)
    requires Armed(s)
    ensures Stays(s, PassPrefillDone(s, cb))
  {
    var s1 := s.(prefill := s.prefill.(awaiting := false, timer := None, chunks := []));
    NotifyStays(s1, PrefillReplaced, cb);
    var s2 := if s.prefill.sawViewport && s.prefill.chunks != [] then Notify(s1, PrefillReplaced, cb) else s1;
    var s3 := s2.(prefill := s2.prefill.(sawViewport := false));
    DeliverAllStays(s3, s.prefill.chunks, cb);
    NotifyStays(DeliverAll(s3, s.prefill.chunks, cb), PrefillCompleted, cb);
  }

  lemma PassControlStays(s: Link, kind: ControlKind, size: nat, cb: Callbacks)
    requires Armed(s)
    ensures Stays(s, PassControl(s, kind, size, cb))
  {
    var s1 := EmitOn(s, Passed(Control(kind, size)));
    assert Stays(s, s1);
    match kind {
      case PrefillViewport => DeliverAllStays(s1.(prefill := s1.prefill.(chunks := [])), s1.prefill.chunks, cb);
      case PrefillDone => PassPrefillDoneStays(s1, cb);
      case PtyReady => NotifyStays(s1, Ready, cb);
    }
  }

  lemma {:induction false} DrainStays(s: Link, frames: seq<Frame>, ws: Socket, generation: nat, cb: Callbacks)
    requires Armed(s) && (frames != [] ==> ws.Socket?)
    ensures Stays(s, Drain(s, frames, ws, generation, cb))
    decreases |frames|
  {
    if !(frames == [] || !SameSocket(s.ws, ws) || s.rz.generation != generation) {
      match frames[0] {
        case Binary(d) => PassBinaryStays(s, d, cb);
        case Control(k, n) => PassControlStays(s, k, n, cb);
      }
      DrainStays(Replay(s, frames[0], cb), frames[1..], ws, generation, cb);
    }
  }

  lemma ResumeStays(r: Resize, open: bool)
    ensures Attaches(Resume(r, open).effects) == Attaches(r.effects)
    ensures r.pending.None? && r.settlement.None? ==> Resume(r, open) == r.(draining := false)
  {
    FlushStays(r.(draining := false), open);
  }

  lemma HandleResizeAckStays(s: Link, m: Ack, cb: Callbacks)
    requires Armed(s) && IsOpen(s)
    ensures Stays(s, HandleResizeAck(s, m, cb))
  {
    if s.rz.ordered && Completes(s.rz.tracker, m) {
      var s0 := s.(rz := Acknowledge(s.rz, Dims(m.cols, m.rows)));
      assert Stays(s, s0);
      if s0.rz.emitted in cb.Keys { ActsStay(s0, cb[s0.rz.emitted]); }
      var s1 := Callback(s0, cb);
      DrainStays(s1.(rz := s1.rz.(barrier := false), deferred := [], deferredBytes := 0), s1.deferred, s1.ws, s1.rz.generation, cb);
      var s2 := Release(s1, cb);
      ResumeStays(s2.rz, IsOpen(s2));
    }
  }

  // ----- one attempt

  /** An attempt sends an attach when dimensions are known, waits for its answer
      and, where there is a prefill, for its end on this socket. Without
      dimensions it is retried, and after 20 retries the socket is closed. */
  lemma AttachExact(s: Link, a: Attach)
    requires Armed(s) && IsOpen(s) && a.terminalReady
    ensures var t := SendAttach(s, a);
            && Armed(t) && t.rz.generation == s.rz.generation + 1
            && (a.dims.Some? ==>
                  && Attaches(t.rz.effects) == Attaches(s.rz.effects) + [a.dims.value] && t.ws == s.ws
                  && t.attach.hasAttached && t.attach.awaitingAck && !t.attach.retry && t.attach.attempt == 0
                  && t.prefill.awaiting == (s.prefill.mode != NoPrefill) && !t.prefill.sawViewport && t.prefill.chunks == []
                  && t.prefill.timer == if s.prefill.mode != NoPrefill then Some(s.ws.id) else None)
            && (a.dims.None? && s.attach.attempt < 20 ==>
                  Attaches(t.rz.effects) == Attaches(s.rz.effects) && t.ws == s.ws && t.attach.retry && t.attach.attempt == s.attach.attempt + 1)
            && (a.dims.None? && s.attach.attempt == 20 ==>
                  Attaches(t.rz.effects) == Attaches(s.rz.effects) && t.ws == Socket(s.ws.id, Closing) && !t.attach.retry && t.attach.attempt == 0)
  {
    CancelStays(s.rz);
    var s1 := CancelLifecycle(s);
    if a.dims.Some? {
      var s2 := StartAttach(s1, a.dims.value);
      assert Attaches(s2.rz.effects) == Attaches(s.rz.effects) + [a.dims.value];
      if a.stable.Some? { StableStays(s2, a.stable); }
    }
  }

  lemma StableStays(s: Link, fit: Option<Dims>)
    ensures var t := SendLayoutStable(s, fit, false);
            && Attaches(t.rz.effects) == Attaches(s.rz.effects) && t.rz.generation == s.rz.generation
            && t.ws == s.ws && t.attach == s.attach && t.prefill == s.prefill
  {
    if fit.Some? {
      QueueStays(s.rz, IsOpen(s), fit.value, false, true);
      QueueGeneration(s.rz, IsOpen(s), fit.value, false, true);
    }
  }

  lemma QueueGeneration(r: Resize, open: bool, dims: Dims, force: bool, immediate: bool)
    ensures Queue(r, open, dims, force, immediate).0.generation == r.generation
  {
    var t := Propose(r, open, dims, force, immediate);
    assert t.generation == r.generation;
  }

  // ----- every event

  /** The event is an attempt to attach that goes through. */
  predicate Attempts(s: Link, e: Event) {
    match e
    case SocketOpened(a) => IsConnecting(s) && a.terminalReady
    case TerminalReady(a) => IsOpen(s) && !s.attach.hasAttached && a.terminalReady
    case AttachRetried(a) => IsOpen(s) && s.attach.retry && a.terminalReady
    case ControlGranted(a) => IsOpen(s) && a.terminalReady
    case _ => false
  }

  lemma FrameStepStays(s: Link, e: Event)
    requires Armed(s) && IsFrame(e) && !e.ControlGranted?
    ensures Stays(s, Step(s, e))
  {
    if IsOpen(s) {
      match e {
        case BinaryFrame(d, cb) =>
          assert Step(s, e) == HandleBinary(s, d, cb);
          PassBinaryStays(s, d, cb);
        case ControlFrame(k, n, cb) =>
          assert Step(s, e) == HandleControl(s, k, n, cb);
          PassControlStays(s, k, n, cb);
        case ResizeAck(m, cb) => HandleResizeAckStays(s, m, cb);
        case AttachAck(_, _) => AnswerStays(s, e);
        case ViewerConflict => AnswerStays(s, e);
      }
    }
  }

  lemma AnswerStays(s: Link, e: Event)
    requires Armed(s) && IsOpen(s) && (e.AttachAck? || e.ViewerConflict?)
    ensures Stays(s, Step(s, e))
  {
    match e {
      case AttachAck(o, _) => assert Step(s, e) == HandleAttachAck(s, o);
      case ViewerConflict => assert Step(s, e) == HandleConflict(s);
    }
  }

  lemma RequestStepStays(s: Link, e: Event)
    requires Armed(s) && (e.AckFallback? || e.DebounceFired? || e.FitResize? || e.AfterPaint?)
    ensures Stays(s, Step(s, e))
  {
    match e {
      case AckFallback(fit) =>
        var s2 := s.(attach := s.attach.(ackTimer := false, awaitingAck := false), rz := s.rz.(lastSent := None));
        if fit.Some? { RequestStays(s2, fit.value, false, false); }
      case DebounceFired =>
        assert Step(s, e) == s.(rz := FireDebounce(s.rz, IsOpen(s)));
        if s.rz.debounce && s.rz.pending.Some? {
          FlushStays(s.rz.(debounce := false, pending := Some(s.rz.pending.value.(ready := true))), IsOpen(s));
        }
      case FitResize(d, f, i) => RequestStays(s, d, f, i);
      case AfterPaint(_, _, fit, f) => if fit.Some? { RequestStays(s, fit.value, f, true); }
    }
  }

  lemma AttachStepKeeps(s: Link, e: Event)
    requires Armed(s) && (e.SocketOpened? || e.TerminalReady? || e.AttachRetried? || e.ControlGranted?)
    ensures Armed(Step(s, e))
    ensures Attaches(Step(s, e).rz.effects) == Attaches(s.rz.effects) + (if Attempts(s, e) && e.a.dims.Some? then [e.a.dims.value] else [])
  {
    if Attempts(s, e) {
      var s1 := match e
                case SocketOpened(_) => s.(ws := s.ws.(phase := Phase.Open))
                case AttachRetried(_) => s.(attach := s.attach.(retry := false))
                case _ => s;
      assert Step(s, e) == SendAttach(s1, e.a);
      AttachExact(s1, e.a);
    } else {
      assert Step(s, e).rz == s.rz && Step(s, e).prefill == s.prefill && Step(s, e).deferred == s.deferred;
    }
  }

  lemma OtherStepStays(s: Link, e: Event)
    requires Armed(s) && (e.Connect? || e.SocketClosed? || e.Retired? || e.LocalClose? || e.PrefillDeadline? || e.AckTimerFired? || e.AckRetryFired?)
    ensures Stays(s, Step(s, e))
  {
    match e {
      case SocketClosed => ResetStays(s.(ws := NoSocket));
      case Retired => ResetStays(s);
      case _ =>
    }
  }

  /** An attach is sent exactly when a socket opens, the terminal mounts and none
      was sent yet, a retry is due or control is granted, with the socket open,
      the terminal mounted and its dimensions known. */
  lemma StepAttachesExact(s: Link, e: Event)
    requires Armed(s)
    ensures Armed(Step(s, e))
    ensures Attaches(Step(s, e).rz.effects) == Attaches(s.rz.effects) + (if Attempts(s, e) && e.a.dims.Some? then [e.a.dims.value] else [])
  {
    if e.SocketOpened? || e.TerminalReady? || e.AttachRetried? || e.ControlGranted? {
      AttachStepKeeps(s, e);
    } else if IsFrame(e) {
      FrameStepStays(s, e);
    } else if e.AckFallback? || e.DebounceFired? || e.FitResize? || e.AfterPaint? {
      RequestStepStays(s, e);
    } else {
      OtherStepStays(s, e);
    }
  }

  lemma {:induction false} RunKeeps(s: Link, events: seq<Event>)
    requires Armed(s)
    ensures Armed(Run(s, events))
    decreases |events|
  {
    if events != [] {
      StepAttachesExact(s, events[0]);
      RunKeeps(Step(s, events[0]), events[1..]);
    }
  }

  /** Over every run. */
  lemma EveryRunIsArmed(mode: PrefillMode, events: seq<Event>)
    ensures Armed(Run(InitialLink(mode), events))
  {
    RunKeeps(InitialLink(mode), events);
  }

  // ----- giving up

  function Retries(a: Attach, n: nat): seq<Event> {
    if n == 0 then [] else [AttachRetried(a)] + Retries(a, n - 1)
  }

  lemma RunRetries(s: Link, a: Attach, n: nat)
    requires n > 0
    ensures Run(s, Retries(a, n)) == Run(Step(s, AttachRetried(a)), Retries(a, n - 1))
  {
    assert Retries(a, n)[1..] == Retries(a, n - 1);
  }

  /** The first of `n` retries. */
  lemma RetryExact(s: Link, a: Attach, n: nat) returns (t: Link)
    requires Armed(s) && IsOpen(s) && a.terminalReady && a.dims.None? && s.attach.retry && n > 0
    ensures Run(s, Retries(a, n)) == Run(t, Retries(a, n - 1))
    ensures Armed(t) && Attaches(t.rz.effects) == Attaches(s.rz.effects)
    ensures if s.attach.attempt < 20 then t.ws == s.ws && t.attach.retry && t.attach.attempt == s.attach.attempt + 1
            else t.ws == Socket(s.ws.id, Closing) && !t.attach.retry
  {
    t := Step(s, AttachRetried(a));
    RunRetries(s, a, n);
    var s1 := s.(attach := s.attach.(retry := false));
    assert t == SendAttach(s1, a);
    AttachExact(s1, a);
  }

  lemma {:induction false} RetriesLeft(s: Link, a: Attach, n: nat)
    requires Armed(s) && IsOpen(s) && a.terminalReady && a.dims.None? && s.attach.retry
    ensures var t := Run(s, Retries(a, n));
            && Attaches(t.rz.effects) == Attaches(s.rz.effects)
            && (s.attach.attempt + n <= 20 ==> t.ws == s.ws && t.attach.retry)
            && (s.attach.attempt + n > 20 ==> t.ws == Socket(s.ws.id, Closing))
    decreases n
  {
    if n > 0 {
      var t := RetryExact(s, a, n);
      if IsOpen(t) { RetriesLeft(t, a, n - 1); } else { RetriesIgnored(t, a, n - 1); }
    }
  }

  lemma {:induction false} RetriesIgnored(s: Link, a: Attach, n: nat)
    requires !s.attach.retry
    ensures Run(s, Retries(a, n)) == s
    decreases n
  {
    if n > 0 {
      assert Step(s, AttachRetried(a)) == s;
      RunRetries(s, a, n);
      RetriesIgnored(s, a, n - 1);
    }
  }

  /** With dimensions that stay unknown, an attach is retried 20 times, and then
      the socket is closed. */
  lemma AttachGivesUp(s: Link, a: Attach, n: nat)
    requires Armed(s) && IsOpen(s) && a.terminalReady && a.dims.None? && s.attach.attempt == 0
    ensures var t := Run(Step(s, ControlGranted(a)), Retries(a, n));
            && Attaches(t.rz.effects) == Attaches(s.rz.effects)
            && t.ws == Socket(s.ws.id, if n < 20 then Phase.Open else Closing)
  {
    AttachExact(s, a);
    RetriesLeft(Step(s, ControlGranted(a)), a, n);
  }

  // ----- the timers

  /** The fallback for an attach that was never answered proposes the current
      geometry, even that of the attach; otherwise it does nothing. */
  lemma FallbackExact(s: Link, fit: Option<Dims>)
    requires Armed(s) && R.Inv(s.rz)
    ensures var t := Step(s, AckFallback(fit));
            if !s.attach.awaitingAck then t == s else
            && !t.attach.awaitingAck && !t.attach.ackTimer && t.ws == s.ws && t.prefill == s.prefill
            && (fit.Some? && IsOpen(s) ==>
                  || (t.rz.pending.Some? && t.rz.pending.value.dims == fit.value && R.SentDims(t.rz.effects) == R.SentDims(s.rz.effects))
                  || (t.rz.pending.None? && R.SentDims(t.rz.effects) == R.SentDims(s.rz.effects) + [fit.value]))
            && (fit.None? || !IsOpen(s) ==> t.rz == s.rz.(lastSent := None))
  {
    if s.attach.awaitingAck && fit.Some? && IsOpen(s) {
      var r := s.rz.(lastSent := None);
      R.ProposalExact(r, fit.value, false, false);
      AnsweredSendsNothing(Propose(r, true, fit.value, false, false));
    }
  }

  lemma AnsweredSendsNothing(r: Resize)
    ensures Answered(r).0.pending == r.pending && R.SentDims(Answered(r).0.effects) == R.SentDims(r.effects)
  {
  }

  /** The prefill deadline closes the socket exactly when prefill_done is still to
      come on the open socket it was armed for. */
  lemma DeadlineExact(s: Link)
    ensures var t := Step(s, PrefillDeadline);
            && t.prefill == s.prefill.(timer := None) && t.rz == s.rz && t.attach == s.attach && t.deferred == s.deferred
            && t.ws == if s.prefill.awaiting && IsOpen(s) && s.prefill.timer == Some(s.ws.id) then Socket(s.ws.id, Closing) else s.ws
  {
  }

  /** A conflict drops the prefill and stops waiting for an answer, and nothing else. */
  lemma ConflictExact(s: Link)
    requires IsOpen(s)
    ensures var t := Step(s, ViewerConflict);
            && !t.prefill.awaiting && !t.prefill.sawViewport && t.prefill.chunks == [] && t.prefill.timer.None?
            && !t.attach.awaitingAck && !t.attach.ackTimer && t.ws == s.ws && t.deferred == s.deferred
            && t.rz == Emit(s.rz, Conflicted)
  {
  }

  // ----- the socket

  /** A socket is replaced only by connecting without a live one, by a fresh one;
      it is given up when it closes or is retired; and closing it leaves it in
      place until then. */
  lemma SocketExact(s: Link, e: Event)
    requires e.Connect? || e.SocketClosed? || e.Retired? || e.LocalClose?
    ensures Step(s, e).ws
            == match e
               case Connect => (if IsOpen(s) || IsConnecting(s) then s.ws else Socket(s.nextSocket, Connecting))
               case LocalClose => (if s.ws.Socket? then Socket(s.ws.id, Closing) else NoSocket)
               case _ => NoSocket
    ensures Step(s, e).nextSocket == s.nextSocket + (if e.Connect? && !IsOpen(s) && !IsConnecting(s) then 1 else 0)
  {
  }

  /** On a socket that is not open nothing is sent, unless the event opens it. */
  lemma ClosedSendsNothing(s: Link, e: Event)
    requires Armed(s) && !IsOpen(s) && !e.SocketOpened?
    ensures Attaches(Step(s, e).rz.effects) == Attaches(s.rz.effects) && R.SentDims(Step(s, e).rz.effects) == R.SentDims(s.rz.effects)
  {
    StepAttachesExact(s, e);
    CancelSendsNothing(s.rz);
    if e.DebounceFired? && s.rz.pending.Some? {
      R.FlushExact(s.rz.(debounce := false, pending := Some(s.rz.pending.value.(ready := true))), false);
    }
  }

  lemma CancelSendsNothing(r: Resize)
    ensures R.SentDims(Cancel(r).effects) == R.SentDims(r.effects)
  {
    var r1 := Settle(ClearQueued(r.(generation := r.generation + 1)), Cancelled);
    assert R.SentDims(r1.effects) == R.SentDims(r.effects);
  }

  /** A paint callback of another socket or lifecycle, and a notification after
      the first attach, do nothing. */
  lemma StaleIsIgnored(s: Link, e: Event)
    requires (e.AfterPaint? && (!SameSocket(s.ws, e.socket) || s.rz.generation != e.generation)) || (e.TerminalReady? && s.attach.hasAttached)
    ensures Step(s, e) == s
  {
  }

  // ----- what a caller asks for

  /** A resize on an open socket is proposed as it was asked for. */
  lemma FitExact(s: Link, dims: Dims, force: bool, immediate: bool)
    requires R.Inv(s.rz) && IsOpen(s)
    ensures var r, t := s.rz, Step(s, FitResize(dims, force, immediate)).rz;
            var forced := force || (r.pending.Some? && r.pending.value.force);
            var ready := immediate || (r.pending.Some? && r.pending.value.ready);
            if !forced && r.lastSent == Some(dims) then t.pending.None? && R.SentDims(t.effects) == R.SentDims(r.effects)
            else if ready && r.tracker.pending.None? && !r.draining then
              t.pending.None? && R.SentDims(t.effects) == R.SentDims(r.effects) + [dims]
            else t.pending == Some(Proposal(dims, forced, ready)) && R.SentDims(t.effects) == R.SentDims(r.effects)
  {
    R.ProposalExact(s.rz, dims, force, immediate);
    AnsweredSendsNothing(Propose(s.rz, true, dims, force, immediate));
  }

  /** A frame behind the barrier is held if 1,048,576 bytes are not exceeded with
      it; otherwise the socket is closed. */
  lemma HoldExact(s: Link, data: seq<Byte>, cb: Callbacks)
    requires IsOpen(s) && s.rz.barrier
    ensures var t := Step(s, BinaryFrame(data, cb));
            if s.deferredBytes + |data| <= 1_048_576
            then t == s.(deferred := s.deferred + [Binary(data)], deferredBytes := s.deferredBytes + |data|)
            else t == s.(ws := Socket(s.ws.id, Closing))
  {
  }
}
