/**
 No output is lost, repeated or reordered: within one lifecycle on one socket,
 what the terminal was given, then the prefill buffer, then the frames behind
 the barrier are exactly what arrived; and the frames that got past the
 barrier followed by those behind it are the frames that arrived, in order.
 */
module PtyConservation {
  import opened Common
  import opened Sequences
  import opened OrderedResize
  import opened PtyResize
  import opened PtyProtocol
  import S = PtySafety

  function Flat(chunks: seq<seq<Byte>>): seq<Byte>
    decreases |chunks|
  {
    if chunks == [] then [] else chunks[0] + Flat(chunks[1..])
  }

  function FrameBytes(f: Frame): seq<Byte> {
    if f.Binary? then f.data else []
  }

  function Bytes(frames: seq<Frame>): seq<Byte>
    decreases |frames|
  {
    if frames == [] then [] else FrameBytes(frames[0]) + Bytes(frames[1..])
  }

  /** Everything handed to the terminal. */
  function Output(log: Log): seq<Byte> {
    match log
    case Start => []
    case Log(before, e) => Output(before) + (if e.Delivered? then e.data else [])
  }

  /** The frames that got past the barrier. */
  function PassedFrames(log: Log): seq<Frame> {
    match log
    case Start => []
    case Log(before, e) => PassedFrames(before) + (if e.Passed? then [e.frame] else [])
  }

  /** What is past the barrier: handed over, or waiting in the prefill buffer. */
  function Taken(s: Link): seq<Byte> {
    Output(s.rz.effects) + Flat(s.prefill.chunks)
  }

  function Content(s: Link): seq<Byte> {
    Taken(s) + Bytes(s.deferred)
  }

  function Frames(s: Link): seq<Frame> {
    PassedFrames(s.rz.effects) + s.deferred
  }

  lemma {:induction false} FlatAppend(chunks: seq<seq<Byte>>, c: seq<Byte>)
    ensures Flat(chunks + [c]) == Flat(chunks) + c
    decreases |chunks|
  {
    if chunks == [] {
      assert [c][1..] == [];
    } else {
      assert (chunks + [c])[1..] == chunks[1..] + [c];
      FlatAppend(chunks[1..], c);
      ConcatAssociates(chunks[0], Flat(chunks[1..]), c);
    }
  }

  lemma {:induction false} BytesAppend(frames: seq<Frame>, f: Frame)
    ensures Bytes(frames + [f]) == Bytes(frames) + FrameBytes(f)
    decreases |frames|
  {
    if frames == [] {
      assert [f][1..] == [];
    } else {
      assert (frames + [f])[1..] == frames[1..] + [f];
      BytesAppend(frames[1..], f);
      ConcatAssociates(FrameBytes(frames[0]), Bytes(frames[1..]), FrameBytes(f));
    }
  }

  // ----- what callbacks do makes no output

  predicate Silent(r: Resize, t: Resize) {
    && Output(t.effects) == Output(r.effects)
    && PassedFrames(t.effects) == PassedFrames(r.effects)
  }

  lemma SettleSilent(r: Resize, outcome: Settlement)
    ensures Silent(r, Settle(r, outcome)) && Silent(r, SettleIfIdle(r))
  {
  }

  lemma SendSilent(r: Resize, dims: Dims)
    ensures Silent(r, Send(r, dims))
  {
  }

  lemma FlushSilent(r: Resize, open: bool)
    ensures Silent(r, Flush(r, open)) && Flush(r, open).generation == r.generation
    ensures r.draining ==> Flush(r, open).barrier == r.barrier
    ensures Flush(r, open).draining == r.draining
  {
    if CanFlush(r, open) {
      SendSilent(ClearQueued(r), r.pending.value.dims);
      SettleSilent(SendProposal(r), Acknowledged);
    }
  }

  /** No output, the same lifecycle, and a drain keeps its barrier open. */
  predicate Quiet(r: Resize, t: Resize) {
    && Silent(r, t)
    && t.generation == r.generation && t.draining == r.draining && (r.draining ==> t.barrier == r.barrier)
  }

  lemma EnqueueQuiet(r: Resize, open: bool, dims: Dims, force: bool, immediate: bool)
    ensures Quiet(r, Enqueue(r, open, dims, force, immediate))
  {
    var ready := immediate || (r.pending.Some? && r.pending.value.ready);
    FlushSilent(r.(pending := Some(Proposal(dims, force, ready))), open);
  }

  lemma ProposeQuiet(r: Resize, open: bool, dims: Dims, force: bool, immediate: bool)
    ensures Quiet(r, Propose(r, open, dims, force, immediate))
  {
    var r0 := Emit(r, Proposed(dims, force));
    SettleSilent(ClearQueued(r0), Acknowledged);
    EnqueueQuiet(r0, open, dims, Forced(r, force), immediate);
  }

  lemma AnsweredQuiet(r: Resize)
    ensures Quiet(r, Answered(r).0)
  {
  }

  lemma QueueQuiet(r: Resize, open: bool, dims: Dims, force: bool, immediate: bool)
    ensures Quiet(r, Queue(r, open, dims, force, immediate).0)
  {
    if open {
      ProposeQuiet(r, open, dims, force, immediate);
      AnsweredQuiet(Propose(r, open, dims, force, immediate));
    }
  }

  /** Lifecycles only advance, and a socket is only ever closed or dropped. */
  predicate Moves(s: Link, t: Link) {
    && s.rz.generation <= t.rz.generation
    && t.nextSocket == s.nextSocket
    && (t.ws == s.ws || t.ws.NoSocket? || t.ws == CloseSocket(s).ws)
  }

  /** `t` follows `s` in the same lifecycle and nothing but resizing happened. */
  predicate Same(s: Link, t: Link) {
    && Silent(s.rz, t.rz)
    && t.ws == s.ws && t.deferred == s.deferred && t.prefill == s.prefill
    && t.rz.draining == s.rz.draining && (s.rz.draining ==> t.rz.barrier == s.rz.barrier)
  }

  lemma {:induction false} ActsSame(s: Link, actions: seq<Action>)
    ensures var t := Acts(s, actions);
            Moves(s, t) && (t.rz.generation == s.rz.generation ==> Same(s, t))
    decreases |actions|
  {
    if actions != [] {
      var a := actions[0];
      if a.AskResize? { QueueQuiet(s.rz, IsOpen(s), a.dims, a.force, a.immediate); }
      ActsSame(Act(s, actions[0]), actions[1..]);
    }
  }

  // ----- output

  /** `t` follows `s` in the same lifecycle and handed over `data`. */
  predicate Gave(s: Link, t: Link, data: seq<Byte>) {
    && Output(t.rz.effects) == Output(s.rz.effects) + data
    && PassedFrames(t.rz.effects) == PassedFrames(s.rz.effects)
    && t.ws == s.ws && t.deferred == s.deferred && t.prefill == s.prefill
    && t.rz.draining == s.rz.draining && (s.rz.draining ==> t.rz.barrier == s.rz.barrier)
  }

  predicate IsOutput(e: Effect) {
    e.Delivered? || e.PrefillReplaced? || e.PrefillCompleted? || e.Ready?
  }

  lemma NotifyGives(s: Link, e: Effect, cb: Callbacks)
    requires IsOutput(e)
    ensures var t := Notify(s, e, cb);
            Moves(s, t)
            && (t.rz.generation == s.rz.generation ==> Gave(s, t, if e.Delivered? then e.data else []))
  {
    var s1 := EmitOn(s, e);
    if s1.rz.emitted in cb.Keys { ActsSame(s1, cb[s1.rz.emitted]); }
  }

  lemma {:induction false} DeliverAllGives(s: Link, chunks: seq<seq<Byte>>, cb: Callbacks)
    ensures var t := DeliverAll(s, chunks, cb);
            Moves(s, t)
            && (t.rz.generation == s.rz.generation ==> Gave(s, t, Flat(chunks)))
    decreases |chunks|
  {
    if chunks != [] {
      NotifyGives(s, Delivered(chunks[0]), cb);
      DeliverAllGives(Notify(s, Delivered(chunks[0]), cb), chunks[1..], cb);
    }
  }

  /** A frame that is not held back: it passes, and what it carries joins the output or the prefill buffer. */
  predicate Took(s: Link, t: Link, f: Frame) {
    && Taken(t) == Taken(s) + FrameBytes(f)
    && PassedFrames(t.rz.effects) == PassedFrames(s.rz.effects) + [f]
    && t.ws == s.ws && t.deferred == s.deferred
    && t.rz.draining == s.rz.draining && (s.rz.draining ==> t.rz.barrier == s.rz.barrier)
  }

  /** Nothing waits in the prefill buffer unless a prefill is awaited. */
  predicate PrefillInv(p: Prefill) {
    p.chunks != [] ==> Buffers(p)
  }

  /** A callback can only empty the prefill buffer. */
  lemma {:induction false} ActsPrefill(s: Link, actions: seq<Action>)
    ensures Acts(s, actions).prefill == s.prefill || Acts(s, actions).prefill == DropPrefill(s.prefill)
    decreases |actions|
  {
    if actions != [] { ActsPrefill(Act(s, actions[0]), actions[1..]); }
  }

  lemma NotifyPrefill(s: Link, e: Effect, cb: Callbacks)
    ensures Notify(s, e, cb).prefill == s.prefill || Notify(s, e, cb).prefill == DropPrefill(s.prefill)
  {
    var s1 := EmitOn(s, e);
    if s1.rz.emitted in cb.Keys { ActsPrefill(s1, cb[s1.rz.emitted]); }
  }

  lemma {:induction false} DeliverAllPrefill(s: Link, chunks: seq<seq<Byte>>, cb: Callbacks)
    ensures DeliverAll(s, chunks, cb).prefill == s.prefill || DeliverAll(s, chunks, cb).prefill == DropPrefill(s.prefill)
    decreases |chunks|
  {
    if chunks != [] {
      NotifyPrefill(s, Delivered(chunks[0]), cb);
      DeliverAllPrefill(Notify(s, Delivered(chunks[0]), cb), chunks[1..], cb);
    }
  }

  lemma PassBinaryTakes(s: Link, data: seq<Byte>, cb: Callbacks)
    requires PrefillInv(s.prefill)
    ensures var t := PassBinary(s, data, cb);
            Moves(s, t) && PrefillInv(t.prefill)
            && (t.rz.generation == s.rz.generation ==> Took(s, t, Binary(data)))
  {
    var s1 := EmitOn(s, Passed(Binary(data)));
    FlatAppend(s.prefill.chunks, data);
    NotifyPrefill(s1, Delivered(data), cb);
    NotifyGives(s1, Delivered(data), cb);
  }

  lemma PassViewportTakes(s: Link, cb: Callbacks)
    ensures var t := PassViewport(s, cb);
            Moves(s, t) && PrefillInv(t.prefill)
            && (t.rz.generation == s.rz.generation ==> t.prefill.chunks == [] && Gave(s, t.(prefill := s.prefill), Flat(s.prefill.chunks)))
  {
    DeliverAllGives(s.(prefill := s.prefill.(chunks := [])), s.prefill.chunks, cb);
    DeliverAllPrefill(s.(prefill := s.prefill.(chunks := [])), s.prefill.chunks, cb);
  }

  lemma PassPrefillDoneTakes(s: Link, cb: Callbacks)
    ensures var t := PassPrefillDone(s, cb);
            Moves(s, t) && PrefillInv(t.prefill)
            && (t.rz.generation == s.rz.generation ==> t.prefill.chunks == [] && Gave(s, t.(prefill := s.prefill), Flat(s.prefill.chunks)))
  {
    var s1 := s.(prefill := s.prefill.(awaiting := false, timer := None, chunks := []));
    NotifyGives(s1, PrefillReplaced, cb);
    NotifyPrefill(s1, PrefillReplaced, cb);
    var s2 := if s.prefill.sawViewport && s.prefill.chunks != [] then Notify(s1, PrefillReplaced, cb) else s1;
    var s3 := s2.(prefill := s2.prefill.(sawViewport := false));
    CompleteTakes(s3, s.prefill.chunks, cb);
  }

  lemma CompleteTakes(s: Link, chunks: seq<seq<Byte>>, cb: Callbacks)
    requires PrefillInv(s.prefill) && s.prefill.chunks == []
    ensures var t := Notify(DeliverAll(s, chunks, cb), PrefillCompleted, cb);
            && Moves(s, t) && PrefillInv(t.prefill)
            && (t.rz.generation == s.rz.generation ==> t.prefill == s.prefill && Gave(s, t, Flat(chunks)))
  {
    DeliverAllGives(s, chunks, cb);
    DeliverAllPrefill(s, chunks, cb);
    var s4 := DeliverAll(s, chunks, cb);
    NotifyGives(s4, PrefillCompleted, cb);
    NotifyPrefill(s4, PrefillCompleted, cb);
  }

  lemma PassControlTakes(s: Link, kind: ControlKind, size: nat, cb: Callbacks)
    requires PrefillInv(s.prefill)
    ensures var t := PassControl(s, kind, size, cb);
            Moves(s, t) && PrefillInv(t.prefill)
            && (t.rz.generation == s.rz.generation ==> Took(s, t, Control(kind, size)))
  {
    var s1 := EmitOn(s, Passed(Control(kind, size)));
    match kind {
      case PrefillViewport => PassViewportTakes(s1, cb);
      case PrefillDone => PassPrefillDoneTakes(s1, cb);
      case PtyReady => NotifyGives(s1, Ready, cb); NotifyPrefill(s1, Ready, cb);
    }
  }

  predicate TookAll(s: Link, t: Link, frames: seq<Frame>) {
    && Taken(t) == Taken(s) + Bytes(frames)
    && PassedFrames(t.rz.effects) == PassedFrames(s.rz.effects) + frames
  }

  lemma TookThenAll(s: Link, m: Link, t: Link, frames: seq<Frame>)
    requires frames != [] && Took(s, m, frames[0]) && TookAll(m, t, frames[1..])
    ensures TookAll(s, t, frames)
  {
    var a, b, c := Taken(s), FrameBytes(frames[0]), Bytes(frames[1..]);
    assert (a + b) + c == a + (b + c);
    assert [frames[0]] + frames[1..] == frames;
  }

  lemma ReplayTakes(s: Link, f: Frame, cb: Callbacks)
    requires PrefillInv(s.prefill) && !s.rz.barrier
    ensures var t := Replay(s, f, cb);
            Moves(s, t) && PrefillInv(t.prefill)
            && (t.rz.generation == s.rz.generation ==> Took(s, t, f))
  {
    match f {
      case Binary(d) => PassBinaryTakes(s, d, cb);
      case Control(k, n) => PassControlTakes(s, k, n, cb);
    }
  }

  lemma {:induction false} DrainTakes(s: Link, frames: seq<Frame>, ws: Socket, generation: nat, cb: Callbacks)
    requires PrefillInv(s.prefill)
    requires s.rz.generation == generation ==> s.rz.draining && !s.rz.barrier && s.ws == ws
    ensures var t := Drain(s, frames, ws, generation, cb);
            && Moves(s, t) && PrefillInv(t.prefill)
            && (t.rz.generation == generation == s.rz.generation ==>
                  TookAll(s, t, frames) && t.ws == s.ws && t.deferred == s.deferred)
    decreases |frames|
  {
    if !(frames == [] || !SameSocket(s.ws, ws) || s.rz.generation != generation) {
      ReplayTakes(s, frames[0], cb);
      var s1 := Replay(s, frames[0], cb);
      DrainTakes(s1, frames[1..], ws, generation, cb);
      var t := Drain(s1, frames[1..], ws, generation, cb);
      if t.rz.generation == generation { TookThenAll(s, s1, t, frames); }
    }
  }

  lemma {:induction false} ActsDraining(s: Link, actions: seq<Action>)
    ensures Acts(s, actions).rz.draining == s.rz.draining
    decreases |actions|
  {
    if actions != [] {
      var a := actions[0];
      if a.AskResize? { QueueQuiet(s.rz, IsOpen(s), a.dims, a.force, a.immediate); }
      ActsDraining(Act(s, a), actions[1..]);
    }
  }

  lemma ReleaseConserves(s: Link, cb: Callbacks)
    requires PrefillInv(s.prefill) && s.rz.draining
    ensures var t := Release(s, cb);
            && Moves(s, t) && PrefillInv(t.prefill)
            && (t.rz.generation == s.rz.generation ==> Content(t) == Content(s) && Frames(t) == Frames(s) && t.ws == s.ws)
  {
    var s1 := s.(rz := s.rz.(barrier := false), deferred := [], deferredBytes := 0);
    DrainTakes(s1, s.deferred, s.ws, s.rz.generation, cb);
    assert Taken(s1) == Taken(s);
  }

  lemma ResumeQuiet(r: Resize, open: bool)
    ensures Silent(r, Resume(r, open)) && Resume(r, open).generation == r.generation
  {
    var r1 := r.(draining := false);
    FlushSilent(r1, open);
    SettleSilent(Flush(r1, open), Acknowledged);
  }

  lemma CallbackSame(s: Link, cb: Callbacks)
    requires PrefillInv(s.prefill)
    ensures var t := Callback(s, cb);
            && Moves(s, t) && PrefillInv(t.prefill) && t.rz.draining == s.rz.draining
            && (t.rz.generation == s.rz.generation ==> Same(s, t))
  {
    if s.rz.emitted in cb.Keys {
      ActsSame(s, cb[s.rz.emitted]);
      ActsPrefill(s, cb[s.rz.emitted]);
      ActsDraining(s, cb[s.rz.emitted]);
    }
  }

  /** Receiving an acknowledgement moves held frames past the barrier and loses none. */
  lemma HandleResizeAckConserves(s: Link, m: Ack, cb: Callbacks)
    requires PrefillInv(s.prefill)
    ensures var t := HandleResizeAck(s, m, cb);
            && Moves(s, t) && PrefillInv(t.prefill)
            && (t.rz.generation == s.rz.generation ==> Content(t) == Content(s) && Frames(t) == Frames(s) && t.ws == s.ws)
  {
    if s.rz.ordered && Completes(s.rz.tracker, m) {
      var s0 := s.(rz := Acknowledge(s.rz, Dims(m.cols, m.rows)));
      assert Silent(s.rz, s0.rz);
      CallbackSame(s0, cb);
      ReleaseConserves(Callback(s0, cb), cb);
      var s2 := Release(Callback(s0, cb), cb);
      ResumeQuiet(s2.rz, IsOpen(s2));
    }
  }

  // ----- every step, every run

  function ArrivedBytes(e: Event): seq<Byte> {
    if e.BinaryFrame? then e.data else []
  }

  function ArrivedFrames(e: Event): seq<Frame> {
    match e
    case BinaryFrame(d, _) => [Binary(d)]
    case ControlFrame(k, n, _) => [Control(k, n)]
    case _ => []
  }

  predicate Inv(s: Link) {
    S.Inv(s) && !s.rz.draining && S.Barred(s) && PrefillInv(s.prefill) && (s.ws.Socket? ==> s.ws.id < s.nextSocket)
  }

  /** `id` is the open socket. */
  predicate Live(s: Link, id: nat) {
    s.ws == Socket(id, Phase.Open)
  }

  predicate Conserved(s: Link, t: Link, data: seq<Byte>, frames: seq<Frame>) {
    Content(t) == Content(s) + data && Frames(t) == Frames(s) + frames
  }

  lemma TookConserved(s: Link, t: Link, f: Frame)
    requires Took(s, t, f) && s.deferred == []
    ensures Conserved(s, t, FrameBytes(f), [f])
  {
  }

  lemma DeferConserves(s: Link, f: Frame, id: nat)
    requires Live(s, id)
    ensures Defer(s, f).rz == s.rz && Defer(s, f).prefill == s.prefill
    ensures Live(Defer(s, f), id) ==> Conserved(s, Defer(s, f), FrameBytes(f), [f])
  {
    BytesAppend(s.deferred, f);
    var a, b, c := Taken(s), Bytes(s.deferred), FrameBytes(f);
    assert (a + b) + c == a + (b + c);
  }

  lemma OutputStepConserves(s: Link, e: Event, id: nat)
    requires Inv(s) && Live(s, id) && (e.BinaryFrame? || e.ControlFrame?)
    ensures var t := Step(s, e);
            && Moves(s, t) && PrefillInv(t.prefill)
            && (Live(t, id) && t.rz.generation == s.rz.generation ==> Conserved(s, t, ArrivedBytes(e), ArrivedFrames(e)))
  {
    var f, t := ArrivedFrames(e)[0], Step(s, e);
    if s.rz.barrier {
      DeferConserves(s, f, id);
    } else {
      ReplayTakes(s, f, e.cb);
      if t.rz.generation == s.rz.generation { TookConserved(s, t, f); }
    }
  }

  lemma RequestQuiet(s: Link, dims: Dims, force: bool, immediate: bool)
    ensures var t := ResizeRequest(s, dims, force, immediate);
            Moves(s, t) && t.prefill == s.prefill && Quiet(s.rz, t.rz) && t.deferred == s.deferred
  {
    QueueQuiet(s.rz, IsOpen(s), dims, force, immediate);
  }

  lemma SendAttachMoves(s: Link, a: Attach)
    requires PrefillInv(s.prefill)
    ensures var t := SendAttach(s, a);
            Moves(s, t) && PrefillInv(t.prefill) && (t.rz.generation == s.rz.generation ==> t == s)
  {
    if IsOpen(s) && a.terminalReady && a.dims.Some? && a.stable.Some? {
      RequestQuiet(StartAttach(CancelLifecycle(s), a.dims.value), a.stable.value, false, true);
    }
  }

  lemma FallbackQuiet(s: Link, fit: Option<Dims>)
    ensures var t := FireAckFallback(s, fit);
            Moves(s, t) && t.prefill == s.prefill && Silent(s.rz, t.rz) && t.rz.generation == s.rz.generation && t.deferred == s.deferred
  {
    var s2 := s.(attach := s.attach.(ackTimer := false, awaitingAck := false), rz := s.rz.(lastSent := None));
    if fit.Some? { RequestQuiet(s2, fit.value, false, false); }
  }

  lemma DebounceSilent(r: Resize, open: bool)
    ensures var t := FireDebounce(r, open); Silent(r, t) && t.generation == r.generation
  {
    if r.debounce && r.pending.Some? {
      FlushSilent(r.(debounce := false, pending := Some(r.pending.value.(ready := true))), open);
    }
  }

  /** An event that is no output frame: what it does to the stream, unless it
      belongs to another socket or drops the prefill buffer. */
  predicate Carries(s: Link, t: Link) {
    Moves(s, t) && PrefillInv(t.prefill) && (t.rz.generation == s.rz.generation ==> Conserved(s, t, [], []))
  }

  lemma AckStepCarries(s: Link, m: Ack, cb: Callbacks)
    requires PrefillInv(s.prefill) && IsOpen(s)
    ensures Carries(s, Step(s, ResizeAck(m, cb)))
  {
    assert Step(s, ResizeAck(m, cb)) == HandleResizeAck(s, m, cb);
    HandleResizeAckConserves(s, m, cb);
  }

  lemma FrameStepCarries(s: Link, e: Event)
    requires PrefillInv(s.prefill) && IsFrame(e) && !e.BinaryFrame? && !e.ControlFrame? && !e.ViewerConflict?
    ensures Carries(s, Step(s, e))
  {
    if IsOpen(s) {
      match e {
        case ResizeAck(m, cb) => AckStepCarries(s, m, cb);
        case ControlGranted(a) =>
          assert Step(s, e) == SendAttach(s, a);
          SendAttachMoves(s, a);
        case AttachAck(o, _) =>
          assert Step(s, e) == HandleAttachAck(s, o);
      }
    }
  }

  lemma AttachStepCarries(s: Link, e: Event)
    requires PrefillInv(s.prefill) && (e.TerminalReady? || e.AttachRetried?)
    ensures Carries(s, Step(s, e))
  {
    match e {
      case TerminalReady(a) =>
        assert Step(s, e) == if s.attach.hasAttached then s else SendAttach(s, a);
        SendAttachMoves(s, a);
      case AttachRetried(a) =>
        var s1 := s.(attach := s.attach.(retry := false));
        assert Step(s, e) == if s.attach.retry then SendAttach(s1, a) else s;
        SendAttachMoves(s1, a);
    }
  }

  /** The events that close the socket, or leave the stream alone. */
  lemma CloseStepCarries(s: Link, e: Event)
    requires PrefillInv(s.prefill)
    requires e.SocketClosed? || e.Retired? || e.LocalClose? || e.PrefillDeadline? || e.AckTimerFired? || e.AckRetryFired?
    ensures Carries(s, Step(s, e))
  {
  }

  lemma ResizeStepCarries(s: Link, e: Event)
    requires PrefillInv(s.prefill) && (e.AckFallback? || e.DebounceFired? || e.FitResize? || e.AfterPaint?)
    ensures Carries(s, Step(s, e))
  {
    match e {
      case AckFallback(fit) => FallbackQuiet(s, fit);
      case DebounceFired =>
        DebounceSilent(s.rz, IsOpen(s));
        assert Step(s, e) == s.(rz := FireDebounce(s.rz, IsOpen(s)));
      case FitResize(d, f, i) =>
        RequestQuiet(s, d, f, i);
        assert Step(s, e) == ResizeRequest(s, d, f, i);
      case AfterPaint(_, _, fit, f) =>
        if fit.Some? { RequestQuiet(s, fit.value, f, true); }
        assert Step(s, e) == s || (fit.Some? && Step(s, e) == ResizeRequest(s, fit.value, f, true));
    }
  }

  lemma OtherStepCarries(s: Link, e: Event)
    requires PrefillInv(s.prefill) && !e.BinaryFrame? && !e.ControlFrame? && !e.ViewerConflict?
    requires !e.Connect? && !e.SocketOpened?
    ensures Carries(s, Step(s, e))
  {
    if IsFrame(e) {
      FrameStepCarries(s, e);
    } else if e.TerminalReady? || e.AttachRetried? {
      AttachStepCarries(s, e);
    } else if e.AckFallback? || e.DebounceFired? || e.FitResize? || e.AfterPaint? {
      ResizeStepCarries(s, e);
    } else {
      CloseStepCarries(s, e);
    }
  }

  lemma StepConserves(s: Link, e: Event, id: nat)
    requires Inv(s) && Live(s, id) && !e.ViewerConflict? && S.Orderly(s, e)
    ensures var t := Step(s, e);
            && Inv(t)
            && (Live(t, id) && t.rz.generation == s.rz.generation ==> Conserved(s, t, ArrivedBytes(e), ArrivedFrames(e)))
  {
    S.StepKeeps(s, e);
    if e.BinaryFrame? || e.ControlFrame? {
      OutputStepConserves(s, e, id);
    } else if e.Connect? || e.SocketOpened? {
      assert Step(s, e) == s;
    } else {
      OtherStepCarries(s, e);
    }
  }

  /** `id` is not the current socket, or is closing: it can never be open again. */
  predicate Lost(s: Link, id: nat) {
    id < s.nextSocket && (s.ws.Socket? && s.ws.id == id ==> s.ws.phase.Closing?)
  }

  lemma OutputStepMoves(s: Link, e: Event)
    requires PrefillInv(s.prefill) && (e.BinaryFrame? || e.ControlFrame?)
    ensures Moves(s, Step(s, e)) && PrefillInv(Step(s, e).prefill)
  {
    if !s.rz.barrier { ReplayTakes(s, ArrivedFrames(e)[0], e.cb); }
  }

  lemma StepAdvances(s: Link, e: Event, id: nat)
    requires PrefillInv(s.prefill)
    ensures var t := Step(s, e);
            PrefillInv(t.prefill) && s.rz.generation <= t.rz.generation && (Lost(s, id) ==> Lost(t, id))
  {
    if e.BinaryFrame? || e.ControlFrame? {
      OutputStepMoves(s, e);
    } else if e.SocketOpened? {
      if IsConnecting(s) { SendAttachMoves(s.(ws := s.ws.(phase := Phase.Open)), e.a); }
    } else if !e.Connect? && !e.ViewerConflict? {
      OtherStepCarries(s, e);
    }
  }

  lemma {:induction false} RunAdvances(s: Link, events: seq<Event>, id: nat)
    requires PrefillInv(s.prefill)
    ensures var t := Run(s, events); s.rz.generation <= t.rz.generation && (Lost(s, id) ==> Lost(t, id))
    decreases |events|
  {
    if events != [] {
      StepAdvances(s, events[0], id);
      RunAdvances(Step(s, events[0]), events[1..], id);
    }
  }

  function Received(events: seq<Event>): seq<Byte>
    decreases |events|
  {
    if events == [] then [] else ArrivedBytes(events[0]) + Received(events[1..])
  }

  function ReceivedFrames(events: seq<Event>): seq<Frame>
    decreases |events|
  {
    if events == [] then [] else ArrivedFrames(events[0]) + ReceivedFrames(events[1..])
  }

  lemma ConservedThen(s: Link, m: Link, t: Link, d1: seq<Byte>, d2: seq<Byte>, f1: seq<Frame>, f2: seq<Frame>)
    requires Conserved(s, m, d1, f1) && Conserved(m, t, d2, f2)
    ensures Conserved(s, t, d1 + d2, f1 + f2)
  {
    assert (Content(s) + d1) + d2 == Content(s) + (d1 + d2);
    assert (Frames(s) + f1) + f2 == Frames(s) + (f1 + f2);
  }

  /** Over any stretch of one lifecycle on one open socket without a viewer
      conflict or a withdrawal over held frames: nothing is lost, repeated or
      reordered, whatever the callbacks do. */
  lemma {:induction false} RunConserves(s: Link, events: seq<Event>, id: nat)
    requires Inv(s) && Live(s, id) && S.OrderlyRun(s, events) && ViewerConflict !in events
    requires Live(Run(s, events), id) && Run(s, events).rz.generation == s.rz.generation
    ensures Conserved(s, Run(s, events), Received(events), ReceivedFrames(events))
    decreases |events|
  {
    if events != [] {
      var e, rest, s1 := events[0], events[1..], Step(s, events[0]);
      StepConserves(s, e, id);
      StepAdvances(s, e, id);
      RunAdvances(s1, rest, id);
      assert Live(s1, id) by { StepStaysOrLost(s, e, id); }
      RunConserves(s1, rest, id);
      ConservedThen(s, s1, Run(s, events), ArrivedBytes(e), Received(rest), ArrivedFrames(e), ReceivedFrames(rest));
    }
  }

  lemma StepStaysOrLost(s: Link, e: Event, id: nat)
    requires Inv(s) && Live(s, id)
    ensures Live(Step(s, e), id) || Lost(Step(s, e), id)
  {
    if e.BinaryFrame? || e.ControlFrame? {
      OutputStepMoves(s, e);
    } else if !e.Connect? && !e.SocketOpened? && !e.ViewerConflict? {
      OtherStepCarries(s, e);
    }
  }

  // ----- from creation

  lemma StepAllots(s: Link, e: Event)
    requires PrefillInv(s.prefill) && (s.ws.Socket? ==> s.ws.id < s.nextSocket)
    ensures var t := Step(s, e); PrefillInv(t.prefill) && (t.ws.Socket? ==> t.ws.id < t.nextSocket)
  {
    if e.BinaryFrame? || e.ControlFrame? {
      OutputStepMoves(s, e);
    } else if e.SocketOpened? {
      if IsConnecting(s) { SendAttachMoves(s.(ws := s.ws.(phase := Phase.Open)), e.a); }
    } else if !e.Connect? && !e.ViewerConflict? {
      OtherStepCarries(s, e);
    }
  }

  lemma {:induction false} RunInv(s: Link, events: seq<Event>)
    requires Inv(s) && S.OrderlyRun(s, events)
    ensures Inv(Run(s, events))
    decreases |events|
  {
    if events != [] {
      S.StepKeeps(s, events[0]);
      StepAllots(s, events[0]);
      RunInv(Step(s, events[0]), events[1..]);
    }
  }

  /** Whatever came before: from any time at which a client's socket is open,
      over any stretch of one lifecycle on that socket. */
  lemma EveryRunConserves(mode: PrefillMode, before: seq<Event>, events: seq<Event>, id: nat)
    requires var s := Run(InitialLink(mode), before);
             && S.OrderlyRun(InitialLink(mode), before) && S.OrderlyRun(s, events) && ViewerConflict !in events
             && Live(s, id) && Live(Run(s, events), id) && Run(s, events).rz.generation == s.rz.generation
    ensures var s := Run(InitialLink(mode), before);
            Conserved(s, Run(s, events), Received(events), ReceivedFrames(events))
  {
    RunInv(InitialLink(mode), before);
    RunConserves(Run(InitialLink(mode), before), events, id);
  }
}
