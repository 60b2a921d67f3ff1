/**
 Runs of a new client in which each of the guarantees of `PtyLimits` fails.
 */
module PtyFailures {
  import opened Common
  import opened OrderedResize
  import opened PtyResize
  import opened PtyProtocol
  import opened PtySafety
  import L = PtyLimits
  import C = PtyConservation
  import G = PtyGeometry
  import H = PtyHistory
  import P = PtyProgress

  const GEOMETRY := L.GEOMETRY
  const OTHER: Dims := Dims(100, 30)
  const MOUNTED := Attach(true, Some(GEOMETRY), None)
  const UNMOUNTED := Attach(false, Some(GEOMETRY), None)
  const FIRST := Socket(0, Phase.Open)

  /** A client that attaches with ordered resize, and then sends its first one. */
  const ATTACHING: seq<Event> := [Connect, SocketOpened(MOUNTED), AttachAck(true, true)]
  const RESIZING: seq<Event> := ATTACHING + [AfterPaint(FIRST, 1, Some(GEOMETRY), true)]

  lemma {:induction false} RunAppend(s: Link, a: seq<Event>, b: seq<Event>)
    ensures Run(s, a + b) == Run(Run(s, a), b)
    decreases |a|
  {
    if a == [] {
      assert a + b == b;
    } else {
      assert (a + b)[1..] == a[1..] + b;
      RunAppend(Step(s, a[0]), a[1..], b);
    }
  }

  lemma RunThree(s: Link, a: Event, b: Event, c: Event)
    ensures Run(s, [a, b, c]) == Step(Step(Step(s, a), b), c)
  {
    P.RunTwo(Step(s, a), b, c);
    assert [a, b, c][1..] == [b, c];
  }

  predicate IsAttached(s: Link, mode: PrefillMode) {
    && s.ws == FIRST && s.rz.ordered && s.rz.barrier && !s.rz.draining && s.rz.generation == 1
    && s.rz.tracker == Tracker(0, None) && s.rz.lastSent == Some(GEOMETRY) && s.rz.pending.None?
    && s.rz.settlement.None? && s.rz.effects == Log(Log(Start, LifecycleCancelled), SentAttach(GEOMETRY))
    && s.deferred == [] && s.deferredBytes == 0
    && s.prefill.mode == mode && s.prefill.awaiting == !mode.NoPrefill? && !s.prefill.sawViewport && s.prefill.chunks == []
  }

  lemma Opening(mode: PrefillMode)
    ensures var s := Step(Step(InitialLink(mode), Connect), SocketOpened(MOUNTED));
            s.ws == FIRST && !s.rz.ordered && IsAttached(s.(rz := s.rz.(ordered := true, barrier := true)), mode)
            && !s.rz.debounce && s.nextSocket == 1
  {
    var s := Step(InitialLink(mode), Connect);
    assert s == InitialLink(mode).(ws := Socket(0, Connecting), nextSocket := 1);
    var s1 := s.(ws := FIRST);
    assert Cancel(s1.rz) == INITIAL.(generation := 1, emitted := 1, effects := Log(Start, LifecycleCancelled));
  }

  lemma Attaching(mode: PrefillMode)
    ensures IsAttached(Run(InitialLink(mode), ATTACHING), mode)
  {
    Opening(mode);
    RunThree(InitialLink(mode), Connect, SocketOpened(MOUNTED), AttachAck(true, true));
  }

  /** The first ordered resize is on the wire. */
  predicate IsResizing(s: Link, mode: PrefillMode) {
    && s.ws == FIRST && s.rz.ordered && !s.rz.draining && s.rz.tracker == Tracker(1, Some(Request(1, GEOMETRY)))
    && s.rz.pending.None? && s.rz.settlement.Some? && s.rz.barrier && s.deferred == [] && s.deferredBytes == 0
    && s.prefill.mode == mode && s.prefill.awaiting == !mode.NoPrefill? && !s.prefill.sawViewport && s.prefill.chunks == []
  }

  lemma Resizing(mode: PrefillMode)
    ensures IsResizing(Run(InitialLink(mode), RESIZING), mode)
    ensures var s := Run(InitialLink(mode), RESIZING); Inv(s) && Held(s) && !s.rz.draining
  {
    var s, e := Run(InitialLink(mode), ATTACHING), AfterPaint(FIRST, 1, Some(GEOMETRY), true);
    Attaching(mode);
    RunAppend(InitialLink(mode), ATTACHING, [e]);
    P.RunTwo(s, e, e);
    RunKeeps(InitialLink(mode), ATTACHING);
    AttachedHolds(s, mode);
    StepKeeps(s, e);
    Requesting(s, mode);
  }

  lemma AttachedHolds(s: Link, mode: PrefillMode)
    requires IsAttached(s, mode)
    ensures Held(s)
  {
  }

  lemma Requesting(s: Link, mode: PrefillMode)
    requires IsAttached(s, mode)
    ensures IsResizing(Step(s, AfterPaint(FIRST, 1, Some(GEOMETRY), true)), mode)
  {
    var r := Emit(s.rz, Proposed(GEOMETRY, true)).(pending := Some(Proposal(GEOMETRY, true, true)));
    assert CanFlush(r, true);
    assert SendProposal(r) == Send(ClearQueued(r), GEOMETRY);
  }

  /** The capability is withdrawn in flight: output gets through. */
  lemma WithdrawalInFlight()
    ensures var events := RESIZING + [AttachAck(false, true), BinaryFrame([1], map[])];
            !H.OutputHeld(H.Effects(Run(InitialLink(NoPrefill), events).rz.effects))
  {
    var s, e, f := Run(InitialLink(NoPrefill), RESIZING), AttachAck(false, true), BinaryFrame([1], map[]);
    Resizing(NoPrefill);
    RunAppend(InitialLink(NoPrefill), RESIZING, [e, f]);
    P.RunTwo(s, e, f);
    StepKeeps(s, e);
    L.LetThrough(Step(s, e));
    P.RunTwo(Step(s, e), f, f);
  }

  /** The capability is withdrawn over held frames: a later frame overtakes them. */
  lemma WithdrawalReorders()
    ensures var events := ATTACHING + [BinaryFrame([1], map[]), AttachAck(false, true), BinaryFrame([2], map[])];
            C.Frames(Run(InitialLink(NoPrefill), events)) == [Binary([2]), Binary([1])]
  {
    var s, a, b, c := Run(InitialLink(NoPrefill), ATTACHING), BinaryFrame([1], map[]), AttachAck(false, true), BinaryFrame([2], map[]);
    Attaching(NoPrefill);
    RunAppend(InitialLink(NoPrefill), ATTACHING, [a, b, c]);
    RunThree(s, a, b, c);
    Overtaken(s);
  }

  lemma Overtaken(s: Link)
    requires IsAttached(s, NoPrefill)
    ensures var t := Step(Step(Step(s, BinaryFrame([1], map[])), AttachAck(false, true)), BinaryFrame([2], map[]));
            C.Frames(t) == [Binary([2]), Binary([1])]
  {
    var s1 := Step(s, BinaryFrame([1], map[]));
    assert s1 == s.(deferred := [Binary([1])], deferredBytes := 1);
    var s2 := Step(s1, AttachAck(false, true));
    var t := Step(s2, BinaryFrame([2], map[]));
    assert t == EmitOn(EmitOn(s2, Passed(Binary([2]))), Delivered([2]));
  }

  /** Two frames are buffered behind a prefill once the resize was acknowledged. */
  const BUFFERING: seq<Event> := RESIZING + [ResizeAck(Ack(1, 80, 24), map[]), BinaryFrame([1], map[]), BinaryFrame([2], map[])]

  lemma Acknowledging(s: Link)
    requires IsResizing(s, Viewport) && Inv(s)
    ensures var t := Step(s, ResizeAck(Ack(1, 80, 24), map[]));
            t.ws == FIRST && t.rz.ordered && !t.rz.barrier && Idle(t) && t.prefill == s.prefill
  {
    var m := Ack(1, 80, 24);
    var s0 := s.(rz := Acknowledge(s.rz, GEOMETRY));
    assert Callback(s0, map[]) == s0;
    var s1 := s0.(rz := s0.rz.(barrier := false), deferredBytes := 0);
    assert Release(s0, map[]) == s1;
    var r := s1.rz.(draining := false);
    assert Resume(s1.rz, true) == Settle(r, Acknowledged);
  }

  lemma Buffering()
    ensures var s := Run(InitialLink(Viewport), BUFFERING);
            && Inv(s) && !s.rz.draining && IsOpen(s) && Idle(s) && s.rz.ordered && !s.rz.barrier && s.prefill.chunks == [[1], [2]]
  {
    var s, a, b, c := Run(InitialLink(Viewport), RESIZING), ResizeAck(Ack(1, 80, 24), map[]), BinaryFrame([1], map[]), BinaryFrame([2], map[]);
    Resizing(Viewport);
    RunAppend(InitialLink(Viewport), RESIZING, [a, b, c]);
    RunThree(s, a, b, c);
    RunKeeps(InitialLink(Viewport), BUFFERING);
    Acknowledging(s);
    BuffersTwo(Step(s, a));
  }

  lemma BuffersTwo(s: Link)
    requires IsOpen(s) && !s.rz.barrier && Idle(s) && Buffers(s.prefill) && s.prefill.chunks == []
    ensures var t := Step(Step(s, BinaryFrame([1], map[])), BinaryFrame([2], map[]));
            t.ws == s.ws && t.rz.ordered == s.rz.ordered && !t.rz.barrier && Idle(t) && t.prefill.chunks == [[1], [2]]
  {
    var s1 := Step(s, BinaryFrame([1], map[]));
    assert s1 == EmitOn(s, Passed(Binary([1]))).(prefill := s.prefill.(chunks := [[1]]));
  }

  /** A callback of the flush resizes: the rest of the flush is handed over in flight. */
  lemma FlushLetsThrough() returns (cb: Callbacks)
    ensures var events := BUFFERING + [ControlFrame(PrefillDone, 0, cb)];
            !H.OutputHeld(H.Effects(Run(InitialLink(Viewport), events).rz.effects))
  {
    var s := Run(InitialLink(Viewport), BUFFERING);
    Buffering();
    cb := L.ResizeAt(s.rz.emitted + 2);
    var e := ControlFrame(PrefillDone, 0, cb);
    RunAppend(InitialLink(Viewport), BUFFERING, [e]);
    P.RunTwo(s, e, e);
    FlushedInFlight(s);
  }

  lemma FlushedInFlight(s: Link)
    requires Inv(s) && !s.rz.draining && IsOpen(s) && Idle(s) && s.rz.ordered && !s.rz.barrier && |s.prefill.chunks| >= 2
    ensures var e := ControlFrame(PrefillDone, 0, L.ResizeAt(s.rz.emitted + 2));
            !H.OutputHeld(H.Effects(Step(s, e).rz.effects))
  {
    var e := ControlFrame(PrefillDone, 0, L.ResizeAt(s.rz.emitted + 2));
    StepKeeps(s, e);
    L.PassControlBroken(s, PrefillDone, 0);
    assert Step(s, e) == PassControl(s, PrefillDone, 0, e.cb);
    H.HeldExact(Step(s, e).rz.effects);
  }

  /** A client whose attach was answered, and whose proposal became ready while
      its socket was closing. */
  const STALE: seq<Event> := [Connect, SocketOpened(MOUNTED), AttachAck(false, true)]
                             + [FitResize(OTHER, false, false), LocalClose, DebounceFired]

  /** On the next socket no timer is armed, the paint callback of the old one
      does nothing, and no attach is sent that could be answered: nothing but
      another proposal sends the one in the queue. */
  lemma StaleProposalStarves()
    ensures var t := Run(InitialLink(NoPrefill), STALE + [Connect, SocketOpened(UNMOUNTED)]);
            && IsOpen(t) && t.rz.pending == Some(Proposal(OTHER, false, true))
            && t.rz.effects == Run(InitialLink(NoPrefill), STALE).rz.effects
            && (forall g, fit, force :: Step(t, AfterPaint(FIRST, g, fit, force)) == t)
            && !P.Fed(t, false)
  {
    BecomesStale();
    RunAppend(InitialLink(NoPrefill), STALE, [Connect, SocketOpened(UNMOUNTED)]);
    P.RunTwo(Run(InitialLink(NoPrefill), STALE), Connect, SocketOpened(UNMOUNTED));
    Reopens(Run(InitialLink(NoPrefill), STALE));
  }

  predicate IsStale(s: Link) {
    && Inv(s) && !s.rz.draining && s.ws == Socket(0, Closing) && s.nextSocket == 1 && Idle(s) && !s.rz.debounce && !s.attach.ackTimer
    && s.rz.pending == Some(Proposal(OTHER, false, true))
  }

  lemma BecomesStale()
    ensures IsStale(Run(InitialLink(NoPrefill), STALE))
  {
    var s0 := InitialLink(NoPrefill);
    var a, b := [Connect, SocketOpened(MOUNTED), AttachAck(false, true)], [FitResize(OTHER, false, false), LocalClose, DebounceFired];
    Answering();
    RunKeeps(s0, STALE);
    RunAppend(s0, a, b);
    RunThree(Run(s0, a), b[0], b[1], b[2]);
    Stale(Run(s0, a));
  }

  lemma Answering()
    ensures var s := Run(InitialLink(NoPrefill), [Connect, SocketOpened(MOUNTED), AttachAck(false, true)]);
            && s.ws == FIRST && !s.rz.ordered && s.rz.pending.None? && !s.rz.debounce && Idle(s) && !s.rz.draining
            && s.rz.lastSent == Some(GEOMETRY) && s.nextSocket == 1 && !s.attach.ackTimer
  {
    Opening(NoPrefill);
    RunThree(InitialLink(NoPrefill), Connect, SocketOpened(MOUNTED), AttachAck(false, true));
  }

  lemma Reopens(s: Link)
    requires IsStale(s)
    ensures var t := Step(Step(s, Connect), SocketOpened(UNMOUNTED));
            && IsOpen(t) && t.ws.id == 1 && t.rz == s.rz && !P.Fed(t, false)
  {
    P.UnmountedOpenExact(Step(s, Connect), UNMOUNTED);
  }

  lemma Stale(s: Link)
    requires s.ws == FIRST && !s.rz.ordered && s.rz.pending.None? && !s.rz.debounce && Idle(s) && !s.rz.draining
    requires s.rz.lastSent == Some(GEOMETRY)
    ensures var t := Step(Step(Step(s, FitResize(OTHER, false, false)), LocalClose), DebounceFired);
            && t.ws == Socket(0, Closing) && t.rz.pending == Some(Proposal(OTHER, false, true)) && !t.rz.debounce && Idle(t)
            && t.attach == s.attach && t.nextSocket == s.nextSocket
  {
    var s1 := Step(s, FitResize(OTHER, false, false));
    assert s1.rz.pending == Some(Proposal(OTHER, false, false)) && s1.rz.debounce && s1.ws == FIRST && Idle(s1);
    var s2 := Step(s1, LocalClose);
  }

  /** The broker acknowledges another geometry, which a caller then proposes:
      it is told "acknowledged" although that geometry was never sent. */
  lemma WithoutEcho()
    ensures var events := RESIZING + [ResizeAck(Ack(1, 100, 30), map[]), FitResize(OTHER, false, false)];
            !H.Truthful(H.Effects(Run(InitialLink(NoPrefill), events).rz.effects))
  {
    var s, a, b := Run(InitialLink(NoPrefill), RESIZING), ResizeAck(Ack(1, 100, 30), map[]), FitResize(OTHER, false, false);
    Resizing(NoPrefill);
    RunAppend(InitialLink(NoPrefill), RESIZING, [a, b]);
    P.RunTwo(s, a, b);
    G.RunKeeps(InitialLink(NoPrefill), RESIZING);
    L.EchoExact(s, Ack(1, 100, 30), false);
  }
}
