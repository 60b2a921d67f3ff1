/**
 Where the guarantees that need a well-behaved environment end: for each event
 that can defeat one, the condition under which the guarantee outlasts it, for
 every state and every continuation.
 */
module PtyLimits {
  import opened Common
  import opened OrderedResize
  import opened PtyResize
  import opened PtyProtocol
  import opened PtySafety
  import R = PtyResizeSafety
  import C = PtyConservation
  import G = PtyGeometry
  import H = PtyHistory
  import P = PtyProgress

  // ----- withdrawing ordered resize

  /** Output is held back, however the run goes on. */
  ghost predicate HeldForever(s: Link) {
    forall events :: HoldsOutputRun(s, events) ==> H.OutputHeld(H.Effects(Run(s, events).rz.effects))
  }

  lemma HeldLasts(s: Link)
    requires Inv(s) && Held(s) && !s.rz.draining
    ensures HeldForever(s)
  {
    forall events | HoldsOutputRun(s, events) ensures H.OutputHeld(H.Effects(Run(s, events).rz.effects)) {
      RunKeeps(s, events);
      H.HeldExact(Run(s, events).rz.effects);
    }
  }

  lemma {:induction false} DeliverInFlight(s: Link, chunks: seq<seq<Byte>>)
    requires R.Summary(s.rz.effects).inFlight.Some? && (chunks != [] || !R.Summary(s.rz.effects).held)
    ensures !R.Summary(DeliverAll(s, chunks, map[]).rz.effects).held
    decreases |chunks|
  {
    if chunks != [] {
      P.EmitPlain(s, Delivered(chunks[0]));
      DeliverInFlight(EmitOn(s, Delivered(chunks[0])), chunks[1..]);
    }
  }

  /** A buffered frame comes out with prefill_done, in flight or not. */
  lemma PrefillDoneInFlight(s: Link)
    requires R.Summary(s.rz.effects).inFlight.Some? && s.prefill.chunks != []
    ensures !R.Summary(PassPrefillDone(s, map[]).rz.effects).held
  {
    var s1 := s.(prefill := s.prefill.(awaiting := false, timer := None, chunks := []));
    P.EmitPlain(s1, PrefillReplaced);
    var s2 := if s.prefill.sawViewport then EmitOn(s1, PrefillReplaced) else s1;
    var s3 := s2.(prefill := s2.prefill.(sawViewport := false));
    DeliverInFlight(s3, s.prefill.chunks);
    P.EmitPlain(DeliverAll(s3, s.prefill.chunks, map[]), PrefillCompleted);
  }

  /** The frames that let output through in flight. */
  function LettingThrough(p: Prefill): seq<Event> {
    if Buffers(p) then [BinaryFrame([1], map[]), ControlFrame(PrefillDone, 0, map[])] else [BinaryFrame([1], map[])]
  }

  lemma BufferedThrough(s: Link)
    requires Inv(s) && !Idle(s) && IsOpen(s) && !s.rz.barrier && !s.rz.ordered && Buffers(s.prefill)
    ensures var s1 := Step(s, BinaryFrame([1], map[]));
            && IsOpen(s1) && !s1.rz.ordered
            && !R.Summary(Step(s1, ControlFrame(PrefillDone, 0, map[])).rz.effects).held
  {
    var s1 := EmitOn(s, Passed(Binary([1]))).(prefill := s.prefill.(chunks := s.prefill.chunks + [[1]]));
    assert Step(s, BinaryFrame([1], map[])) == s1;
    var s2 := EmitOn(s1, Passed(Control(PrefillDone, 0)));
    assert Step(s1, ControlFrame(PrefillDone, 0, map[])) == PassPrefillDone(s2, map[]);
    PrefillDoneInFlight(s2);
  }

  lemma LetThrough(s: Link)
    requires Inv(s) && !s.rz.draining && !Idle(s) && IsOpen(s) && !s.rz.barrier && !s.rz.ordered
    ensures HoldsOutputRun(s, LettingThrough(s.prefill))
    ensures !H.OutputHeld(H.Effects(Run(s, LettingThrough(s.prefill)).rz.effects))
  {
    if Buffers(s.prefill) { ThroughInTwo(s); } else { ThroughAtOnce(s); }
    RunKeeps(s, LettingThrough(s.prefill));
    H.HeldExact(Run(s, LettingThrough(s.prefill)).rz.effects);
  }

  lemma ThroughInTwo(s: Link)
    requires Inv(s) && !Idle(s) && IsOpen(s) && !s.rz.barrier && !s.rz.ordered && Buffers(s.prefill)
    ensures HoldsOutputRun(s, LettingThrough(s.prefill)) && !R.Summary(Run(s, LettingThrough(s.prefill)).rz.effects).held
  {
    var binary, done := BinaryFrame([1], map[]), ControlFrame(PrefillDone, 0, map[]);
    P.RunTwo(s, binary, done);
    BufferedThrough(s);
    assert [binary, done][1..] == [done] && [done][1..] == [];
  }

  lemma ThroughAtOnce(s: Link)
    requires Inv(s) && !Idle(s) && IsOpen(s) && !s.rz.barrier && !s.rz.ordered && !Buffers(s.prefill)
    ensures HoldsOutputRun(s, LettingThrough(s.prefill)) && !R.Summary(Run(s, LettingThrough(s.prefill)).rz.effects).held
  {
    var binary := BinaryFrame([1], map[]);
    var t := EmitOn(EmitOn(s, Passed(Binary([1]))), Delivered([1]));
    P.EmitPlain(EmitOn(s, Passed(Binary([1]))), Delivered([1]));
    assert [binary][1..] == [];
    assert Run(s, [binary]) == Run(t, []) == t;
  }

  /** Withdrawing ordered resize keeps output held back exactly when nothing is in flight. */
  lemma WithdrawalExact(s: Link, ordered: bool, outputAck: bool)
    requires Inv(s) && Held(s) && !s.rz.draining && IsOpen(s)
    ensures HeldForever(Step(s, AttachAck(ordered, outputAck))) <==> ordered || Idle(s)
  {
    var s1 := Step(s, AttachAck(ordered, outputAck));
    StepKeeps(s, AttachAck(ordered, outputAck));
    if ordered || Idle(s) {
      HeldLasts(s1);
    } else {
      LetThrough(s1);
      assert HoldsOutputRun(s1, LettingThrough(s1.prefill));
    }
  }

  /** Frames are conserved from `s` on, as long as the run goes on from `t` in
      one lifecycle on one socket. */
  ghost predicate ConservesForever(s: Link, t: Link, id: nat) {
    forall events :: OrderlyRun(t, events) && ViewerConflict !in events && C.Live(Run(t, events), id)
                     && Run(t, events).rz.generation == s.rz.generation
                     ==> C.Conserved(s, Run(t, events), C.Received(events), C.ReceivedFrames(events))
  }

  /** A frame that is not the first one held back. */
  function Another(f: Frame): seq<Byte>
    ensures Binary(Another(f)) != f
  {
    if f == Binary([1]) then [2] else [1]
  }

  lemma Overtakes(s: Link, id: nat)
    requires C.Live(s, id) && !s.rz.barrier && s.deferred != []
    ensures var t := Run(s, [BinaryFrame(Another(s.deferred[0]), map[])]);
            && C.Live(t, id) && t.rz.generation == s.rz.generation
            && C.Frames(t) == C.PassedFrames(s.rz.effects) + [Binary(Another(s.deferred[0]))] + s.deferred
  {
    var data := Another(s.deferred[0]);
    P.RunTwo(s, BinaryFrame(data, map[]), BinaryFrame(data, map[]));
    assert Step(s, BinaryFrame(data, map[])) == PassBinary(s, data, map[]);
    PassesAtOnce(s, data);
  }

  lemma PassesAtOnce(s: Link, data: seq<Byte>)
    ensures var t := PassBinary(s, data, map[]);
            && t.ws == s.ws && t.rz.generation == s.rz.generation && t.deferred == s.deferred
            && C.PassedFrames(t.rz.effects) == C.PassedFrames(s.rz.effects) + [Binary(data)]
  {
    var s1 := EmitOn(s, Passed(Binary(data)));
    P.EmitPlain(s1, Delivered(data));
    assert C.PassedFrames(s1.rz.effects) == C.PassedFrames(s.rz.effects) + [Binary(data)];
  }

  /** Withdrawing ordered resize keeps frames in order exactly when none is held back. */
  lemma ConservationExact(s: Link, ordered: bool, outputAck: bool, id: nat)
    requires C.Inv(s) && C.Live(s, id)
    ensures ConservesForever(s, Step(s, AttachAck(ordered, outputAck)), id) <==> ordered || s.deferred == []
  {
    var e := AttachAck(ordered, outputAck);
    var t := Step(s, e);
    if ordered || s.deferred == [] {
      C.StepConserves(s, e, id);
      forall events | OrderlyRun(t, events) && ViewerConflict !in events && C.Live(Run(t, events), id)
                      && Run(t, events).rz.generation == s.rz.generation
        ensures C.Conserved(s, Run(t, events), C.Received(events), C.ReceivedFrames(events))
      {
        C.RunConserves(t, events, id);
      }
    } else {
      WithdrawalBreaks(s, outputAck, id);
    }
  }

  lemma WithdrawalBreaks(s: Link, outputAck: bool, id: nat)
    requires C.Inv(s) && C.Live(s, id) && s.deferred != []
    ensures !ConservesForever(s, Step(s, AttachAck(false, outputAck)), id)
  {
    var t := Step(s, AttachAck(false, outputAck));
    var f := Binary(Another(s.deferred[0]));
    var events := [BinaryFrame(f.data, map[])];
    Overtakes(t, id);
    assert OrderlyRun(t, events) by { assert events[1..] == []; }
    assert C.ReceivedFrames(events) == [f] by { assert events[1..] == []; }
    var n := |C.PassedFrames(s.rz.effects)|;
    assert C.Frames(Run(t, events))[n] == f && (C.Frames(s) + [f])[n] == s.deferred[0];
  }

  // ----- a violation is never undone

  predicate IsHeld(r: Resize) {
    R.Summary(r.effects).held
  }

  lemma SettleUnheld(r: Resize, outcome: Settlement)
    requires !IsHeld(r)
    ensures !IsHeld(Settle(r, outcome)) && !IsHeld(SettleIfIdle(r))
  {
  }

  lemma FlushUnheld(r: Resize, open: bool)
    requires !IsHeld(r)
    ensures !IsHeld(Flush(r, open))
  {
    if CanFlush(r, open) {
      assert !IsHeld(ClearQueued(r));
      assert !IsHeld(Send(ClearQueued(r), r.pending.value.dims));
      SettleUnheld(SendProposal(r), Acknowledged);
    }
  }

  lemma ProposeUnheld(r: Resize, open: bool, dims: Dims, force: bool, immediate: bool)
    requires !IsHeld(r)
    ensures !IsHeld(Propose(r, open, dims, force, immediate))
  {
    var r0 := Emit(r, Proposed(dims, force));
    if !Forced(r, force) && Some(dims) == r.lastSent {
      SettleUnheld(ClearQueued(r0), Acknowledged);
    } else {
      var ready := immediate || (r.pending.Some? && r.pending.value.ready);
      FlushUnheld(r0.(pending := Some(Proposal(dims, Forced(r, force), ready))), open);
    }
  }

  lemma AnsweredUnheld(r: Resize)
    requires !IsHeld(r)
    ensures !IsHeld(Answered(r).0)
  {
  }

  lemma ActUnheld(s: Link, a: Action)
    requires !IsHeld(s.rz)
    ensures !IsHeld(Act(s, a).rz)
  {
    match a {
      case AskResize(d, f, i) =>
        ProposeUnheld(s.rz, IsOpen(s), d, f, i);
        AnsweredUnheld(Propose(s.rz, IsOpen(s), d, f, i));
      case Disconnect => SettleUnheld(ClearQueued(s.rz.(generation := s.rz.generation + 1)), Cancelled);
    }
  }

  lemma {:induction false} ActsUnheld(s: Link, actions: seq<Action>)
    requires !IsHeld(s.rz)
    ensures !IsHeld(Acts(s, actions).rz)
    decreases |actions|
  {
    if actions != [] {
      ActUnheld(s, actions[0]);
      ActsUnheld(Act(s, actions[0]), actions[1..]);
    }
  }

  lemma NotifyUnheld(s: Link, e: Effect, cb: Callbacks)
    requires !IsHeld(EmitOn(s, e).rz)
    ensures !IsHeld(Notify(s, e, cb).rz)
  {
    var s1 := EmitOn(s, e);
    if s1.rz.emitted in cb.Keys { ActsUnheld(s1, cb[s1.rz.emitted]); }
  }

  lemma {:induction false} DeliverAllUnheld(s: Link, chunks: seq<seq<Byte>>, cb: Callbacks)
    requires !IsHeld(s.rz)
    ensures !IsHeld(DeliverAll(s, chunks, cb).rz)
    decreases |chunks|
  {
    if chunks != [] {
      NotifyUnheld(s, Delivered(chunks[0]), cb);
      DeliverAllUnheld(Notify(s, Delivered(chunks[0]), cb), chunks[1..], cb);
    }
  }

  /** Output handed over while a request is in flight. */
  lemma DeliverInFlightUnheld(s: Link, chunks: seq<seq<Byte>>, cb: Callbacks)
    requires Inv(s) && !Idle(s) && chunks != []
    ensures !IsHeld(DeliverAll(s, chunks, cb).rz)
  {
    NotifyUnheld(s, Delivered(chunks[0]), cb);
    DeliverAllUnheld(Notify(s, Delivered(chunks[0]), cb), chunks[1..], cb);
  }

  const GEOMETRY: Dims := Dims(80, 24)

  /** The callback that is the client's n-th effect asks for a resize at once. */
  function ResizeAt(n: nat): Callbacks {
    map[n := [AskResize(GEOMETRY, true, true)]]
  }

  lemma ForcedRequestSends(s: Link)
    requires Inv(s) && Idle(s) && IsOpen(s) && s.rz.ordered && !s.rz.draining
    ensures var t := Acts(s, [AskResize(GEOMETRY, true, true)]); Inv(t) && !Idle(t)
  {
    var acts := [AskResize(GEOMETRY, true, true)];
    assert Acts(s, acts) == Acts(Act(s, acts[0]), acts[1..]) == Act(s, acts[0]);
    ActKeeps(s, acts[0]);
    var r0 := Emit(s.rz, Proposed(GEOMETRY, true));
    var r1 := r0.(pending := Some(Proposal(GEOMETRY, true, true)));
    assert CanFlush(r1, true) && SendProposal(r1).tracker.pending.Some?;
  }

  lemma NotifySends(s: Link, e: Effect)
    requires Inv(s) && Idle(s) && IsOpen(s) && s.rz.ordered && !s.rz.draining && R.IsNeutral(e)
    ensures var t := Notify(s, e, ResizeAt(s.rz.emitted + 1)); Inv(t) && !Idle(t)
  {
    R.NeutralKeeps(s.rz, e);
    ForcedRequestSends(EmitOn(s, e));
  }

  /** The callback of the first chunk resizes, the second chunk is not held back. */
  lemma SecondChunkUnheld(s: Link, chunks: seq<seq<Byte>>)
    requires Inv(s) && Idle(s) && IsOpen(s) && s.rz.ordered && !s.rz.draining && |chunks| >= 2
    ensures !IsHeld(DeliverAll(s, chunks, ResizeAt(s.rz.emitted + 1)).rz)
  {
    var cb := ResizeAt(s.rz.emitted + 1);
    NotifySends(s, Delivered(chunks[0]));
    DeliverInFlightUnheld(Notify(s, Delivered(chunks[0]), cb), chunks[1..], cb);
  }

  lemma PrefillDoneBroken(s: Link)
    requires Inv(s) && Idle(s) && IsOpen(s) && s.rz.ordered && !s.rz.draining
    requires FlushOutlastsCallback(s.prefill, PrefillDone)
    ensures !IsHeld(PassPrefillDone(s, ResizeAt(s.rz.emitted + 1)).rz)
  {
    var cb := ResizeAt(s.rz.emitted + 1);
    var chunks := s.prefill.chunks;
    var s1 := s.(prefill := s.prefill.(awaiting := false, timer := None, chunks := []));
    if s.prefill.sawViewport {
      NotifySends(s1, PrefillReplaced);
      var s2 := Notify(s1, PrefillReplaced, cb);
      var s3 := s2.(prefill := s2.prefill.(sawViewport := false));
      DeliverInFlightUnheld(s3, chunks, cb);
      NotifyUnheld(DeliverAll(s3, chunks, cb), PrefillCompleted, cb);
    } else {
      var s3 := s1.(prefill := s1.prefill.(sawViewport := false));
      SecondChunkUnheld(s3, chunks);
      NotifyUnheld(DeliverAll(s3, chunks, cb), PrefillCompleted, cb);
    }
  }

  lemma PassControlBroken(s: Link, kind: ControlKind, size: nat)
    requires Inv(s) && !s.rz.draining && IsOpen(s) && Idle(s) && s.rz.ordered
    requires FlushOutlastsCallback(s.prefill, kind)
    ensures !IsHeld(PassControl(s, kind, size, ResizeAt(s.rz.emitted + 2)).rz)
  {
    R.NeutralKeeps(s.rz, Passed(Control(kind, size)));
    var s1 := EmitOn(s, Passed(Control(kind, size)));
    if kind.PrefillViewport? {
      SecondChunkUnheld(s1.(prefill := s1.prefill.(chunks := [])), s1.prefill.chunks);
    } else {
      PrefillDoneBroken(s1);
    }
  }

  /** Outside a drain, output is held back in a prefill flush whatever its
      callbacks do exactly when the flush hands over nothing after a callback,
      or resizes are not ordered. */
  lemma FlushExact(s: Link, kind: ControlKind, size: nat)
    requires Inv(s) && Held(s) && !s.rz.draining && IsOpen(s) && !s.rz.barrier
    ensures (forall cb :: H.OutputHeld(H.Effects(Step(s, ControlFrame(kind, size, cb)).rz.effects)))
            <==> !s.rz.ordered || !FlushOutlastsCallback(s.prefill, kind)
  {
    forall cb ensures R.Summary(Step(s, ControlFrame(kind, size, cb)).rz.effects).held
                      <==> H.OutputHeld(H.Effects(Step(s, ControlFrame(kind, size, cb)).rz.effects)) {
      StepKeeps(s, ControlFrame(kind, size, cb));
      H.HeldExact(Step(s, ControlFrame(kind, size, cb)).rz.effects);
    }
    if s.rz.ordered && FlushOutlastsCallback(s.prefill, kind) {
      PassControlBroken(s, kind, size);
      assert !R.Summary(Step(s, ControlFrame(kind, size, ResizeAt(s.rz.emitted + 2))).rz.effects).held;
    } else {
      forall cb ensures R.Summary(Step(s, ControlFrame(kind, size, cb)).rz.effects).held {
        StepKeeps(s, ControlFrame(kind, size, cb));
      }
    }
  }

  // ----- a broker that does not echo

  /** An ack with another geometry, which a caller then proposes: it is told
      "acknowledged" at once, and that is true exactly when the broker echoed
      the geometry it was asked for. */
  lemma EchoExact(s: Link, m: Ack, immediate: bool)
    requires Inv(s) && G.Inv(s) && !s.rz.draining && IsOpen(s) && s.rz.ordered && s.rz.pending.None?
    requires Completes(s.rz.tracker, m)
    ensures var s1 := Step(s, ResizeAck(m, map[]));
            var t := Step(s1, FitResize(Dims(m.cols, m.rows), false, immediate));
            && Queue(s1.rz, IsOpen(s1), Dims(m.cols, m.rows), false, immediate).1 == Now(Acknowledged)
            && (H.Truthful(H.Effects(t.rz.effects))
                <==> H.Truthful(H.Effects(s.rz.effects)) && Dims(m.cols, m.rows) == s.rz.tracker.pending.value.dims)
  {
    var d, asked := Dims(m.cols, m.rows), s.rz.tracker.pending.value.dims;
    var s1 := Step(s, ResizeAck(m, map[]));
    AfterAck(s, m);
    var t := Step(s1, FitResize(d, false, immediate));
    assert t.rz.effects == Log(Log(s1.rz.effects, Proposed(d, false)), Settled(s1.rz.nextPromise, Acknowledged, false));
    H.TruthfulExact(s.rz.effects);
    H.TruthfulExact(t.rz.effects);
  }

  lemma AfterAck(s: Link, m: Ack)
    requires Inv(s) && G.Inv(s) && !s.rz.draining && IsOpen(s) && s.rz.ordered && s.rz.pending.None?
    requires Completes(s.rz.tracker, m)
    ensures var t := Step(s, ResizeAck(m, map[]));
            && IsOpen(t) && t.rz.ordered && t.rz.pending.None? && Idle(t) && t.rz.settlement.None?
            && t.rz.lastSent == Some(Dims(m.cols, m.rows))
            && G.GeometryOf(t.rz.effects).wire == Some(s.rz.tracker.pending.value.dims)
            && G.GeometryOf(t.rz.effects).truthful == G.GeometryOf(s.rz.effects).truthful
  {
    var r := P.AckPlain(s, m);
    var r1 := r.(draining := false);
    assert Resume(r, IsOpen(s)) == Settle(r1, Acknowledged);
  }

  /** With a proposal waiting for the ack, the ack settles a promise at once only
      if it makes that proposal superfluous: then too "acknowledged" is true
      exactly when the broker echoed. Any other proposal is sent first. */
  lemma EchoQueuedExact(s: Link, m: Ack)
    requires Inv(s) && G.Inv(s) && !s.rz.draining && IsOpen(s) && s.rz.ordered && Completes(s.rz.tracker, m)
    requires s.rz.pending.Some? && s.rz.pending.value.ready
    ensures var t := Step(s, ResizeAck(m, map[]));
            var q := s.rz.pending.value;
            H.Truthful(H.Effects(t.rz.effects))
            <==> H.Truthful(H.Effects(s.rz.effects))
                 && (Dims(m.cols, m.rows) == s.rz.tracker.pending.value.dims
                     || q.force || q.dims != Dims(m.cols, m.rows) || s.rz.settlement.None?)
  {
    var r := AckedQueue(s, m);
    ResumeTruthful(r, s.rz.tracker.pending.value.dims);
    H.TruthfulExact(s.rz.effects);
    H.TruthfulExact(Step(s, ResizeAck(m, map[])).rz.effects);
  }

  lemma AckedQueue(s: Link, m: Ack) returns (r: Resize)
    requires Inv(s) && !s.rz.draining && IsOpen(s) && s.rz.ordered && Completes(s.rz.tracker, m)
    requires s.rz.pending.Some? && s.rz.pending.value.ready
    ensures Step(s, ResizeAck(m, map[])).rz == Resume(r, true) && CanFlush(r, true) && r.ordered
    ensures r.pending == s.rz.pending && r.settlement == s.rz.settlement && r.lastSent == Some(Dims(m.cols, m.rows))
    ensures G.GeometryOf(r.effects) == G.GeometryOf(s.rz.effects)
  {
    var r0 := P.AckPlain(s, m);
    r := r0.(draining := false);
  }

  lemma ResumeTruthful(r: Resize, wire: Dims)
    requires CanFlush(r, true) && r.ordered
    requires G.GeometryOf(r.effects).latest == Some(r.pending.value.dims) && G.GeometryOf(r.effects).wire == Some(wire)
    ensures G.GeometryOf(Resume(r, true).effects).truthful
            <==> G.GeometryOf(r.effects).truthful
                 && (r.pending.value.dims == wire || r.pending.value.force || Some(r.pending.value.dims) != r.lastSent || r.settlement.None?)
  {
    if r.pending.value.force || Some(r.pending.value.dims) != r.lastSent { FlushSends(r); } else { FlushDrops(r); }
  }

  lemma FlushSends(r: Resize)
    requires CanFlush(r, true) && r.ordered && (r.pending.value.force || Some(r.pending.value.dims) != r.lastSent)
    ensures Resume(r, true).effects.Log? && Resume(r, true).effects.before == r.effects && Resume(r, true).effects.last.SentOrdered?
  {
    assert SendProposal(r) == Send(ClearQueued(r), r.pending.value.dims);
  }

  lemma FlushDrops(r: Resize)
    requires CanFlush(r, true) && !r.pending.value.force && Some(r.pending.value.dims) == r.lastSent
    ensures Resume(r, true).effects
            == if r.settlement.Some? then Log(r.effects, Settled(r.settlement.value, Acknowledged, false)) else r.effects
  {
    assert SendProposal(r) == ClearQueued(r);
  }
}
