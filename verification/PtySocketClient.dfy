/**
 The client as the source runs it: objects whose event handlers update their
 fields in place. The variables of the client are grouped by what they are for.
 Each handler is proved to take the step of `PtyClient` that stands for it, so
 any sequence of events takes this object through a run of `PtyClient`, of
 which the theorems are.
 */
module PtySocketClient {
  import opened Common
  import opened OrderedResize
  import opened OutputAck
  import opened PtyResize
  import opened PtyProtocol
  import P = PtyClient
  import H = PtyHistory
  import A = OutputAckSafety
  import Q = PtyClientSafety

  /** The geometry transaction: proposals, the request in flight, and who waits for it. */
  class ResizeState {
    const tracker: OrderedResizeTracker
    var resizeGeneration: nat
    var supportsOrderedResize: bool
    var orderedResizeBarrier: bool
    var lastSentResize: Option<Dims>
    var pendingProposal: Option<Proposal>
    var resizeDebounceTimer: bool
    var drainingOrderedResize: bool
    var resizeSettlement: Option<nat>
    var nextPromise: nat
    var emitted: nat
    ghost var effects: Log

    ghost function Rz(): Resize
      reads this, tracker
    {
      Resize(resizeGeneration, supportsOrderedResize, orderedResizeBarrier, tracker.View(), lastSentResize,
             pendingProposal, resizeDebounceTimer, drainingOrderedResize, resizeSettlement, nextPromise, emitted, effects)
    }

    constructor ()
      ensures Rz() == INITIAL && fresh(tracker)
    {
      tracker := new OrderedResizeTracker();
      resizeGeneration, supportsOrderedResize, orderedResizeBarrier := 0, false, false;
      lastSentResize, pendingProposal := None, None;
      resizeDebounceTimer, drainingOrderedResize, resizeSettlement, nextPromise := false, false, None, 0;
      emitted, effects := 0, Start;
    }

    method EmitEffect(e: Effect)
      modifies this
      ensures Rz() == Emit(old(Rz()), e)
    {
      emitted := emitted + 1;
      effects := Log(effects, e);
    }

    method SettleResize(outcome: Settlement)
      modifies this
      ensures Rz() == Settle(old(Rz()), outcome)
    {
      var pending := resizeSettlement;
      resizeSettlement := None;
      if pending.Some? { EmitEffect(Settled(pending.value, outcome, pendingProposal.Some?)); }
    }

    method ClearQueuedResizeRequest()
      modifies this
      ensures Rz() == ClearQueued(old(Rz()))
    {
      resizeDebounceTimer := false;
      pendingProposal := None;
    }

    method CancelResize()
      modifies this, tracker
      ensures Rz() == Cancel(old(Rz()))
    {
      resizeGeneration := resizeGeneration + 1;
      ClearQueuedResizeRequest();
      SettleResize(Cancelled);
      ghost var r1 := Rz();
      tracker.Clear();
      supportsOrderedResize := false;
      orderedResizeBarrier := false;
      EmitEffect(LifecycleCancelled);
      assert Rz() == Emit(r1.(tracker := Cleared(r1.tracker), ordered := false, barrier := false), LifecycleCancelled);
    }

    method SetCapability(ordered: bool)
      modifies this
      ensures Rz() == old(Rz()).(ordered := ordered, barrier := ordered)
    {
      supportsOrderedResize := ordered;
      orderedResizeBarrier := ordered;
    }

    method SendResizeRequest(dims: Dims)
      modifies this, tracker
      ensures Rz() == Send(old(Rz()), dims)
    {
      if supportsOrderedResize {
        var request := tracker.MakeRequest(dims);
        lastSentResize := Some(dims);
        orderedResizeBarrier := true;
        EmitEffect(SentOrdered(request));
      } else {
        lastSentResize := Some(dims);
        EmitEffect(SentPlain(dims));
      }
    }

    method FlushQueuedResize(open: bool)
      modifies this, tracker
      ensures Rz() == Flush(old(Rz()), open)
    {
      if pendingProposal.None? || !pendingProposal.value.ready || tracker.HasPending() || drainingOrderedResize { return; }
      if !open { return; }
      var proposal := pendingProposal.value;
      ClearQueuedResizeRequest();
      if ShouldSendResizeRequest(proposal.dims, lastSentResize, proposal.force) {
        SendResizeRequest(proposal.dims);
      }
      assert Rz() == SendProposal(old(Rz()));
      if !tracker.HasPending() { SettleResize(Acknowledged); }
    }

    method WaitForResizeSettlement() returns (answer: Answer)
      modifies this
      ensures (Rz(), answer) == Await(old(Rz()))
    {
      if pendingProposal.None? && !tracker.HasPending() {
        nextPromise := nextPromise + 1;
        EmitEffect(Settled(nextPromise - 1, Acknowledged, false));
        return Now(Acknowledged);
      }
      if resizeSettlement.None? {
        resizeSettlement := Some(nextPromise);
        nextPromise := nextPromise + 1;
      }
      return Later(resizeSettlement.value);
    }

    method EnqueueResize(dims: Dims, force: bool, immediate: bool, open: bool)
      modifies this, tracker
      ensures Rz() == Enqueue(old(Rz()), open, dims, force, immediate)
    {
      pendingProposal := Some(Proposal(dims, force, immediate || (pendingProposal.Some? && pendingProposal.value.ready)));
      if pendingProposal.value.ready {
        FlushQueuedResize(open);
      } else {
        resizeDebounceTimer := true;
      }
    }

    method ProposeResize(dims: Dims, force: bool, immediate: bool, open: bool)
      modifies this, tracker
      ensures Rz() == Propose(old(Rz()), open, dims, force, immediate)
    {
      var forced := force || (pendingProposal.Some? && pendingProposal.value.force);
      EmitEffect(Proposed(dims, force));
      if !forced && Some(dims) == lastSentResize {
        ClearQueuedResizeRequest();
        if !tracker.HasPending() { SettleResize(Acknowledged); }
      } else {
        EnqueueResize(dims, forced, immediate, open);
      }
    }

    method QueueResize(dims: Dims, force: bool, immediate: bool, open: bool) returns (answer: Answer)
      modifies this, tracker
      ensures (Rz(), answer) == Queue(old(Rz()), open, dims, force, immediate)
    {
      if !open { return Now(Cancelled); }
      ProposeResize(dims, force, immediate, open);
      if supportsOrderedResize {
        answer := WaitForResizeSettlement();
      } else {
        answer := Now(Acknowledged);
      }
    }

    method FireResizeDebounce(open: bool)
      modifies this, tracker
      ensures Rz() == FireDebounce(old(Rz()), open)
    {
      if !resizeDebounceTimer { return; }
      resizeDebounceTimer := false;
      if pendingProposal.None? { return; }
      pendingProposal := Some(pendingProposal.value.(ready := true));
      FlushQueuedResize(open);
    }

    method ResumeResize(open: bool)
      modifies this, tracker
      ensures Rz() == Resume(old(Rz()), open)
    {
      drainingOrderedResize := false;
      FlushQueuedResize(open);
      if pendingProposal.None? && !tracker.HasPending() { SettleResize(Acknowledged); }
    }

    /** Completes the pending request and starts the drain. */
    method BeginDrain(m: Ack)
      requires Completes(tracker.View(), m)
      modifies this, tracker
      ensures Rz() == Acknowledge(old(Rz()), Dims(m.cols, m.rows))
    {
      var id := tracker.pending.value.id;
      var dimensions := tracker.Acknowledge(m);
      lastSentResize := dimensions;
      drainingOrderedResize := true;
      EmitEffect(Acked(id, dimensions.value));
    }
  }

  /** The output acknowledgements. */
  class AckState {
    var supportsOutputAck: bool
    var receivedOutputBytes: nat
    var lastAckBytes: nat
    var outputAckTimer: bool
    var outputAckRetryTimer: bool
    var outputAckRetries: nat
    ghost var ledger: Ledger

    ghost function View(): Acks
      reads this
    {
      Acks(supportsOutputAck, receivedOutputBytes, lastAckBytes, outputAckTimer, outputAckRetryTimer, outputAckRetries, ledger)
    }

    constructor ()
      ensures View() == RESET
    {
      supportsOutputAck, receivedOutputBytes, lastAckBytes := false, 0, 0;
      outputAckTimer, outputAckRetryTimer, outputAckRetries := false, false, 0;
      ledger := Empty;
    }

    method ResetOutputAck()
      modifies this
      ensures View() == RESET
    {
      outputAckTimer, outputAckRetryTimer, outputAckRetries := false, false, 0;
      supportsOutputAck, receivedOutputBytes, lastAckBytes := false, 0, 0;
      ledger := Empty;
    }

    method SendOutputAck(retry: bool, open: bool)
      modifies this
      ensures View() == SendAck(old(View()), open, retry)
    {
      if retry { outputAckRetryTimer := false; }
      outputAckTimer := false;
      if !supportsOutputAck || !open || (!retry && receivedOutputBytes == lastAckBytes) { return; }
      ledger := Ledger(ledger, Sent(receivedOutputBytes, retry));
      lastAckBytes := receivedOutputBytes;
      if retry { outputAckRetries := outputAckRetries + 1; }
      if MayBeStalled(receivedOutputBytes) && outputAckRetries < ACK_RETRY_MAX_ATTEMPTS && !outputAckRetryTimer {
        outputAckRetryTimer := true;
      }
    }

    /** Counts an arriving frame; `closed` when the count would be inexact. */
    method ReceiveOutputBytes(bytes: nat, open: bool) returns (closed: bool)
      modifies this
      ensures View() == Receive(old(View()), open, bytes)
      ensures closed == Overflows(old(View()), bytes)
    {
      if !supportsOutputAck || bytes == 0 { return false; }
      outputAckRetryTimer := false;
      outputAckRetries := 0;
      if receivedOutputBytes + bytes > MAX_SAFE_INTEGER {
        ledger := Ledger(ledger, Arrived(0));
        return true;
      }
      receivedOutputBytes := receivedOutputBytes + bytes;
      ledger := Ledger(ledger, Arrived(bytes));
      if receivedOutputBytes >= lastAckBytes + ACK_EVERY_BYTES {
        SendOutputAck(false, open);
      } else {
        outputAckTimer := true;
      }
      return false;
    }
  }

  /** The prefill: what was buffered, and what still has to come. */
  class PrefillState {
    const prefillMode: PrefillMode
    var awaitingPrefillDone: bool
    var sawViewportPrefill: bool
    var prefillChunks: seq<seq<Byte>>
    var prefillDoneTimeout: Option<nat>

    ghost function View(): Prefill
      reads this
    {
      Prefill(prefillMode, awaitingPrefillDone, sawViewportPrefill, prefillChunks, prefillDoneTimeout)
    }

    constructor (mode: PrefillMode)
      ensures View() == Prefill(mode, false, false, [], None)
    {
      prefillMode := mode;
      awaitingPrefillDone, sawViewportPrefill, prefillChunks, prefillDoneTimeout := false, false, [], None;
    }

    method Clear()
      modifies this
      ensures View() == DropPrefill(old(View()))
    {
      awaitingPrefillDone, prefillChunks, sawViewportPrefill := false, [], false;
      prefillDoneTimeout := None;
    }

    method Begin(socket: nat)
      modifies this
      ensures var hasPrefill := !prefillMode.NoPrefill?;
              View() == Prefill(prefillMode, hasPrefill, false, [], if hasPrefill then Some(socket) else None)
    {
      prefillChunks := [];
      awaitingPrefillDone := !prefillMode.NoPrefill?;
      sawViewportPrefill := false;
      prefillDoneTimeout := if prefillMode.NoPrefill? then None else Some(socket);
    }

    /** Takes the buffered chunks. */
    method TakeChunks() returns (chunks: seq<seq<Byte>>)
      modifies this
      ensures chunks == old(prefillChunks) && View() == old(View()).(chunks := [])
    {
      chunks := prefillChunks;
      prefillChunks := [];
    }
  }

  /** The attach handshake. */
  class AttachState {
    var hasAttached: bool
    var attachAttempt: nat
    var attachRetry: bool
    var awaitingAttachAck: bool
    var attachAckReceived: bool
    var attachAckTimer: bool

    ghost function View(): Handshake
      reads this
    {
      Handshake(hasAttached, attachAttempt, attachRetry, awaitingAttachAck, attachAckReceived, attachAckTimer)
    }

    constructor ()
      ensures View() == Handshake(false, 0, false, false, false, false)
    {
      hasAttached, attachAttempt, attachRetry := false, 0, false;
      awaitingAttachAck, attachAckReceived, attachAckTimer := false, false, false;
    }

    method ClearRetry()
      modifies this
      ensures View() == old(View()).(attempt := 0, retry := false)
    {
      attachAttempt, attachRetry := 0, false;
    }

    method StopAwaiting()
      modifies this
      ensures View() == old(View()).(awaitingAck := false, ackTimer := false)
    {
      awaitingAttachAck, attachAckTimer := false, false;
    }

    method Begin()
      modifies this
      ensures View() == old(View()).(attempt := 0, retry := false, hasAttached := true, awaitingAck := true, ackReceived := false)
    {
      ClearRetry();
      hasAttached := true;
      awaitingAttachAck := true;
      attachAckReceived := false;
    }

    method Received()
      modifies this
      ensures View() == old(View()).(ackReceived := true, awaitingAck := false, ackTimer := false)
    {
      attachAckReceived := true;
      StopAwaiting();
    }
  }

  class Client {
    const resize: ResizeState
    const acks: AckState
    const prefill: PrefillState
    const attach: AttachState

    var ws: Socket
    var nextSocket: nat
    var deferredFrames: seq<Frame>
    var deferredBytes: nat

    ghost function LinkView(): Link
      reads this, resize, resize.tracker, prefill, attach
    {
      Link(ws, nextSocket, resize.Rz(), deferredFrames, deferredBytes, prefill.View(), attach.View())
    }

    ghost function View(): P.Client
      reads this, resize, resize.tracker, prefill, attach, acks
    {
      P.Client(LinkView(), acks.View())
    }

    /** Without a socket there is nothing to acknowledge. */
    ghost predicate Valid()
      reads this, acks
    {
      ws.NoSocket? ==> acks.View() == RESET
    }

    constructor (mode: PrefillMode)
      ensures View() == P.InitialClient(mode) && Valid()
      ensures fresh(resize) && fresh(resize.tracker) && fresh(acks) && fresh(prefill) && fresh(attach)
    {
      resize := new ResizeState();
      acks := new AckState();
      prefill := new PrefillState(mode);
      attach := new AttachState();
      ws, nextSocket, deferredFrames, deferredBytes := NoSocket, 0, [], 0;
    }

    predicate Open()
      reads this
    {
      ws.Socket? && ws.phase.Open?
    }

    // ----- resize

    method CancelResizeLifecycle()
      modifies this`deferredFrames, this`deferredBytes, resize, resize.tracker
      ensures LinkView() == CancelLifecycle(old(LinkView()))
    {
      resize.CancelResize();
      deferredFrames := [];
      deferredBytes := 0;
    }

    method DebounceFires()
      requires Valid()
      modifies resize, resize.tracker
      ensures View() == P.ClientStep(old(View()), DebounceFired) && Valid()
    {
      resize.FireResizeDebounce(Open());
    }

    method SendFitResize(dims: Dims, force: bool, immediate: bool) returns (answer: Answer)
      requires Valid()
      modifies resize, resize.tracker
      ensures View() == P.ClientStep(old(View()), FitResize(dims, force, immediate)) && Valid()
      ensures answer == Queue(old(resize.Rz()), old(Open()), dims, force, immediate).1
    {
      answer := resize.QueueResize(dims, force, immediate, Open());
    }

    // ----- output acknowledgement

    method AckTimerFires()
      requires Valid()
      modifies acks
      ensures View() == P.ClientStep(old(View()), AckTimerFired) && Valid()
    {
      if acks.outputAckTimer { acks.SendOutputAck(false, Open()); }
    }

    method AckRetryFires()
      requires Valid()
      modifies acks
      ensures View() == P.ClientStep(old(View()), AckRetryFired) && Valid()
    {
      if acks.outputAckRetryTimer { acks.SendOutputAck(true, Open()); }
    }

    // ----- lifecycle

    method ForgetAttach()
      modifies attach, prefill
      ensures prefill.View() == DropPrefill(old(prefill.View()))
      ensures attach.View() == old(attach.View()).(attempt := 0, retry := false, awaitingAck := false, ackTimer := false)
    {
      attach.ClearRetry();
      attach.StopAwaiting();
      prefill.Clear();
    }

    method ResetAttachLifecycle()
      modifies this`deferredFrames, this`deferredBytes, resize, resize.tracker, acks, prefill, attach
      ensures LinkView() == ResetAttach(old(LinkView())) && acks.View() == RESET
    {
      acks.ResetOutputAck();
      ForgetAttach();
      CancelResizeLifecycle();
    }

    /** close(), and the synchronous part of reconnect(). */
    method Close()
      modifies this, resize, resize.tracker, acks, prefill, attach
      ensures LinkView() == Retire(old(LinkView())) && acks.View() == RESET && Valid()
      ensures View() == P.ClientStep(old(View()), Retired)
    {
      ResetAttachLifecycle();
      ws := NoSocket;
    }

    method OnClose()
      requires Valid()
      modifies this, resize, resize.tracker, acks, prefill, attach
      ensures View() == P.ClientStep(old(View()), SocketClosed) && Valid()
    {
      if ws.Socket? {
        ws := NoSocket;
        ResetAttachLifecycle();
      }
    }

    method Connect()
      requires Valid()
      modifies this
      ensures View() == P.ClientStep(old(View()), Event.Connect) && Valid()
    {
      if ws.Socket? && !ws.phase.Closing? { return; }
      ws := Socket(nextSocket, Connecting);
      nextSocket := nextSocket + 1;
    }

    method CloseWebSocket()
      modifies this`ws
      ensures LinkView() == CloseSocket(old(LinkView()))
    {
      if ws.Socket? { ws := ws.(phase := Closing); }
    }

    // ----- callbacks

    /** The object after a handler ran: its link took a step, and its
        acknowledgements are untouched unless the socket was given up. */
    twostate predicate Became(t: Link)
      reads this, resize, resize.tracker, prefill, attach, acks
    {
      LinkView() == t && acks.View() == P.AckAfter(t, old(acks.View())) && (old(ws).NoSocket? ==> ws.NoSocket?)
    }

    method RunAction(action: Action)
      requires Valid()
      modifies this, resize, resize.tracker, acks, prefill, attach
      ensures Became(Act(old(LinkView()), action)) && Valid()
    {
      match action {
        case AskResize(d, f, i) => var _ := resize.QueueResize(d, f, i, Open());
        case Disconnect => Close();
      }
    }

    method RunActions(actions: seq<Action>)
      requires Valid()
      modifies this, resize, resize.tracker, acks, prefill, attach
      ensures Became(Acts(old(LinkView()), actions)) && Valid()
      decreases |actions|
    {
      if actions != [] {
        RunAction(actions[0]);
        RunActions(actions[1..]);
      }
    }

    method RunCallback(cb: Callbacks)
      requires Valid()
      modifies this, resize, resize.tracker, acks, prefill, attach
      ensures Became(Callback(old(LinkView()), cb)) && Valid()
    {
      if resize.emitted in cb.Keys { RunActions(cb[resize.emitted]); }
    }

    /** Calls back into the terminal, which may act on the client before it returns. */
    method CallBack(e: Effect, cb: Callbacks)
      requires Valid()
      modifies this, resize, resize.tracker, acks, prefill, attach
      ensures Became(Notify(old(LinkView()), e, cb)) && Valid()
    {
      resize.EmitEffect(e);
      RunCallback(cb);
    }

    method DeliverChunks(chunks: seq<seq<Byte>>, cb: Callbacks)
      requires Valid()
      modifies this, resize, resize.tracker, acks, prefill, attach
      ensures Became(DeliverAll(old(LinkView()), chunks, cb)) && Valid()
    {
      var i := 0;
      while i < |chunks|
        invariant 0 <= i <= |chunks| && Valid()
        invariant DeliverAll(LinkView(), chunks[i..], cb) == DeliverAll(old(LinkView()), chunks, cb)
        invariant acks.View() == P.AckAfter(LinkView(), old(acks.View())) && (old(ws).NoSocket? ==> ws.NoSocket?)
      {
        CallBack(Delivered(chunks[i]), cb);
        assert chunks[i..][1..] == chunks[i + 1..];
        i := i + 1;
      }
    }

    // ----- output

    method DeferFrame(f: Frame)
      modifies this`ws, this`deferredFrames, this`deferredBytes
      ensures LinkView() == Defer(old(LinkView()), f) && (old(ws).NoSocket? <==> ws.NoSocket?)
    {
      var size := FrameSize(f);
      if deferredBytes + size > ORDERED_RESIZE_BARRIER_MAX_BYTES {
        CloseWebSocket();
        return;
      }
      deferredBytes := deferredBytes + size;
      deferredFrames := deferredFrames + [f];
    }

    method HandleBinaryFrame(data: seq<Byte>, cb: Callbacks)
      requires Valid()
      modifies this, resize, resize.tracker, acks, prefill, attach
      ensures Became(HandleBinary(old(LinkView()), data, cb)) && Valid()
    {
      if resize.orderedResizeBarrier {
        DeferFrame(Binary(data));
        return;
      }
      resize.EmitEffect(Passed(Binary(data)));
      if prefill.awaitingPrefillDone && !(prefill.prefillMode.Full? && !prefill.sawViewportPrefill) {
        prefill.prefillChunks := prefill.prefillChunks + [data];
      } else {
        CallBack(Delivered(data), cb);
      }
    }

    method HandlePrefillViewport(cb: Callbacks)
      requires Valid()
      modifies this, resize, resize.tracker, acks, prefill, attach
      ensures Became(PassViewport(old(LinkView()), cb)) && Valid()
    {
      var viewportChunks := prefill.TakeChunks();
      DeliverChunks(viewportChunks, cb);
      prefill.awaitingPrefillDone := true;
      prefill.sawViewportPrefill := true;
    }

    method ReplacePrefill(discards: bool, cb: Callbacks)
      requires Valid()
      modifies this, resize, resize.tracker, acks, prefill, attach
      ensures Became(if discards then Notify(old(LinkView()), PrefillReplaced, cb) else old(LinkView())) && Valid()
    {
      if discards { CallBack(PrefillReplaced, cb); }
    }

    method HandlePrefillDone(cb: Callbacks)
      requires Valid()
      modifies this, resize, resize.tracker, acks, prefill, attach
      ensures Became(PassPrefillDone(old(LinkView()), cb)) && Valid()
    {
      prefill.awaitingPrefillDone := false;
      prefill.prefillDoneTimeout := None;
      var chunks := prefill.TakeChunks();
      ReplacePrefill(prefill.sawViewportPrefill && chunks != [], cb);
      prefill.sawViewportPrefill := false;
      DeliverChunks(chunks, cb);
      CallBack(PrefillCompleted, cb);
    }

    method HandleTerminalControl(kind: ControlKind, size: nat, cb: Callbacks)
      requires Valid()
      modifies this, resize, resize.tracker, acks, prefill, attach
      ensures Became(PassControl(old(LinkView()), kind, size, cb)) && Valid()
    {
      resize.EmitEffect(Passed(Control(kind, size)));
      match kind {
        case PrefillViewport => HandlePrefillViewport(cb);
        case PrefillDone => HandlePrefillDone(cb);
        case PtyReady => CallBack(Ready, cb);
      }
    }

    method ReplayFrame(f: Frame, cb: Callbacks)
      requires Valid()
      modifies this, resize, resize.tracker, acks, prefill, attach
      ensures Became(Replay(old(LinkView()), f, cb)) && Valid()
    {
      match f {
        case Binary(d) => HandleBinaryFrame(d, cb);
        case Control(k, n) => HandleTerminalControl(k, n, cb);
      }
    }

    method ReleaseOrderedResizeBarrier(cb: Callbacks)
      requires Valid()
      modifies this, resize, resize.tracker, acks, prefill, attach
      ensures Became(Release(old(LinkView()), cb)) && Valid()
    {
      resize.orderedResizeBarrier := false;
      var frames := deferredFrames;
      deferredFrames := [];
      deferredBytes := 0;
      var socket, generation := ws, resize.resizeGeneration;
      var i := 0;
      while i < |frames| && SameSocket(ws, socket) && resize.resizeGeneration == generation
        invariant 0 <= i <= |frames| && Valid()
        invariant Drain(LinkView(), frames[i..], socket, generation, cb) == Release(old(LinkView()), cb)
        invariant acks.View() == P.AckAfter(LinkView(), old(acks.View())) && (old(ws).NoSocket? ==> ws.NoSocket?)
      {
        ReplayFrame(frames[i], cb);
        assert frames[i..][1..] == frames[i + 1..];
        i := i + 1;
      }
    }

    method DrainAfterAck(cb: Callbacks)
      requires Valid()
      modifies this, resize, resize.tracker, acks, prefill, attach
      ensures Became(Release(Callback(old(LinkView()), cb), cb)) && Valid()
    {
      RunCallback(cb);
      ReleaseOrderedResizeBarrier(cb);
    }

    method HandleAck(m: Ack, cb: Callbacks)
      requires Valid()
      modifies this, resize, resize.tracker, acks, prefill, attach
      ensures Became(HandleResizeAck(old(LinkView()), m, cb)) && Valid()
    {
      if !resize.supportsOrderedResize || !Completes(resize.tracker.View(), m) { return; }
      resize.BeginDrain(m);
      ghost var s1 := LinkView();
      DrainAfterAck(cb);
      assert LinkView() == Release(Callback(s1, cb), cb);
      resize.ResumeResize(Open());
    }

    // ----- attach

    method SendStable(fit: Option<Dims>, force: bool)
      modifies resize, resize.tracker
      ensures LinkView() == SendLayoutStable(old(LinkView()), fit, force)
    {
      if !Open() || fit.None? { return; }
      if force || fit != resize.lastSentResize { var _ := resize.QueueResize(fit.value, force, true, Open()); }
    }

    method BeginAttach(dims: Dims)
      requires ws.Socket?
      modifies attach, prefill, resize
      ensures LinkView() == StartAttach(old(LinkView()), dims)
    {
      prefill.Begin(ws.id);
      attach.Begin();
      resize.lastSentResize := Some(dims);
      resize.EmitEffect(SentAttach(dims));
    }

    method AttachWith(dims: Dims, stable: Option<Dims>)
      requires Valid() && ws.Socket?
      modifies attach, prefill, resize, resize.tracker
      ensures Became(ArmAckTimer(SendLayoutStable(StartAttach(old(LinkView()), dims), stable, false))) && Valid()
    {
      BeginAttach(dims);
      SendStable(stable, false);
      attach.attachAckTimer := true;
    }

    method RetryAttach()
      requires Valid()
      modifies this`ws, attach
      ensures var s := old(LinkView());
              Became(if s.attach.attempt < ATTACH_DIMENSION_MAX_ATTEMPTS
                     then s.(attach := s.attach.(attempt := s.attach.attempt + 1, retry := true))
                     else CloseSocket(ClearAttachRetry(s))) && Valid()
    {
      if attach.attachAttempt < ATTACH_DIMENSION_MAX_ATTEMPTS {
        attach.attachAttempt := attach.attachAttempt + 1;
        attach.attachRetry := true;
      } else {
        attach.ClearRetry();
        CloseWebSocket();
      }
    }

    method SendAttachHandshake(a: Attach)
      requires Valid()
      modifies this, resize, resize.tracker, prefill, attach
      ensures Became(SendAttach(old(LinkView()), a)) && Valid()
    {
      if !Open() || !a.terminalReady { return; }
      CancelResizeLifecycle();
      match a.dims {
        case Some(d) => AttachWith(d, a.stable);
        case None => RetryAttach();
      }
    }

    method OnOpen(a: Attach)
      requires Valid()
      modifies this, resize, resize.tracker, prefill, attach
      ensures View() == P.ClientStep(old(View()), SocketOpened(a)) && Valid()
    {
      if ws.NoSocket? || !ws.phase.Connecting? { return; }
      ws := ws.(phase := Phase.Open);
      SendAttachHandshake(a);
    }

    method NotifyTerminalReady(a: Attach)
      requires Valid()
      modifies this, resize, resize.tracker, prefill, attach
      ensures View() == P.ClientStep(old(View()), TerminalReady(a)) && Valid()
    {
      if attach.hasAttached { return; }
      SendAttachHandshake(a);
    }

    method AttachRetryFires(a: Attach)
      requires Valid()
      modifies this, resize, resize.tracker, prefill, attach
      ensures View() == P.ClientStep(old(View()), AttachRetried(a)) && Valid()
    {
      if !attach.attachRetry { return; }
      attach.attachRetry := false;
      SendAttachHandshake(a);
    }

    /** The peer answers no attach: treat it as an older one. */
    method FallBackToFit(fit: Option<Dims>)
      requires Valid()
      modifies attach, resize, resize.tracker
      ensures Became(FireAckFallback(old(LinkView()), fit)) && Valid()
    {
      if !attach.attachAckTimer { return; }
      if attach.attachAckReceived || !attach.awaitingAttachAck {
        attach.attachAckTimer := false;
        return;
      }
      attach.StopAwaiting();
      resize.lastSentResize := None;
      ghost var s2 := LinkView();
      if fit.Some? { var _ := resize.QueueResize(fit.value, false, false, Open()); }
      assert LinkView() == if fit.Some? then ResizeRequest(s2, fit.value, false, false) else s2;
    }

    method AttachAckTimerFires(fit: Option<Dims>)
      requires Valid()
      modifies attach, resize, resize.tracker
      ensures View() == P.ClientStep(old(View()), AckFallback(fit)) && Valid()
    {
      FallBackToFit(fit);
    }

    method PrefillDeadlineFires()
      requires Valid()
      modifies this`ws, prefill
      ensures View() == P.ClientStep(old(View()), PrefillDeadline) && Valid()
    {
      if prefill.prefillDoneTimeout.None? { return; }
      var attached := prefill.prefillDoneTimeout.value;
      prefill.prefillDoneTimeout := None;
      if prefill.awaitingPrefillDone && Open() && ws.id == attached { CloseWebSocket(); }
    }

    method StableAfterPaint(socket: Socket, generation: nat, fit: Option<Dims>, force: bool)
      requires Valid()
      modifies resize, resize.tracker
      ensures View() == P.ClientStep(old(View()), AfterPaint(socket, generation, fit, force)) && Valid()
    {
      if !SameSocket(ws, socket) || resize.resizeGeneration != generation { return; }
      SendStable(fit, force);
    }

    // ----- frames

    method RejectFrame()
      requires Valid() && Open()
      modifies this`ws
      ensures LinkView() == Step(old(LinkView()), LocalClose) && Valid() && ws.Socket?
    {
      CloseWebSocket();
    }

    method OnBinary(data: seq<Byte>, cb: Callbacks)
      requires Valid()
      modifies this, resize, resize.tracker, acks, prefill, attach
      ensures View() == P.ClientStep(old(View()), BinaryFrame(data, cb)) && Valid()
    {
      if !Open() { return; }
      ghost var s, a := LinkView(), acks.View();
      var closed := acks.ReceiveOutputBytes(|data|, true);
      assert LinkView() == s;
      if closed {
        RejectFrame();
      } else {
        HandleBinaryFrame(data, cb);
        assert LinkView() == Step(s, BinaryFrame(data, cb));
      }
      assert acks.View() == P.AckAfter(LinkView(), Receive(a, true, |data|));
    }

    method OnControl(kind: ControlKind, size: nat, cb: Callbacks)
      requires Valid()
      modifies this, resize, resize.tracker, acks, prefill, attach
      ensures View() == P.ClientStep(old(View()), ControlFrame(kind, size, cb)) && Valid()
    {
      if !Open() { return; }
      if resize.orderedResizeBarrier {
        DeferFrame(Control(kind, size));
      } else {
        HandleTerminalControl(kind, size, cb);
      }
    }

    method OnAttachAck(ordered: bool, outputAck: bool)
      requires Valid()
      modifies acks, resize, attach
      ensures View() == P.ClientStep(old(View()), AttachAck(ordered, outputAck)) && Valid()
    {
      if !Open() { return; }
      acks.supportsOutputAck := outputAck;
      resize.SetCapability(ordered);
      attach.Received();
    }

    method OnResizeAck(m: Ack, cb: Callbacks)
      requires Valid()
      modifies this, resize, resize.tracker, acks, prefill, attach
      ensures View() == P.ClientStep(old(View()), ResizeAck(m, cb)) && Valid()
    {
      if Open() { HandleAck(m, cb); }
    }

    method OnViewerConflict()
      requires Valid()
      modifies attach, prefill, resize
      ensures View() == P.ClientStep(old(View()), ViewerConflict) && Valid()
    {
      if !Open() { return; }
      attach.StopAwaiting();
      prefill.Clear();
      resize.EmitEffect(Conflicted);
    }

    method OnControlGranted(a: Attach)
      requires Valid()
      modifies this, resize, resize.tracker, prefill, attach
      ensures View() == P.ClientStep(old(View()), ControlGranted(a)) && Valid()
    {
      if Open() { SendAttachHandshake(a); }
    }

    // ----- every run

    /** The event loop: one event. */
    method HandleLocal(e: Event)
      requires Valid() && !IsFrame(e)
      modifies this, resize, resize.tracker, acks, prefill, attach
      ensures View() == P.ClientStep(old(View()), e) && Valid()
    {
      match e
      case Connect => Connect();
      case SocketOpened(a) => OnOpen(a);
      case SocketClosed => OnClose();
      case Retired => Close();
      case LocalClose => CloseWebSocket();
      case TerminalReady(a) => NotifyTerminalReady(a);
      case AttachRetried(a) => AttachRetryFires(a);
      case AckFallback(fit) => AttachAckTimerFires(fit);
      case PrefillDeadline => PrefillDeadlineFires();
      case DebounceFired => DebounceFires();
      case AckTimerFired => AckTimerFires();
      case AckRetryFired => AckRetryFires();
      case FitResize(d, f, i) => var _ := SendFitResize(d, f, i);
      case AfterPaint(w, g, fit, f) => StableAfterPaint(w, g, fit, f);
    }

    method HandleFrame(e: Event)
      requires Valid() && IsFrame(e)
      modifies this, resize, resize.tracker, acks, prefill, attach
      ensures View() == P.ClientStep(old(View()), e) && Valid()
    {
      match e
      case BinaryFrame(d, cb) => OnBinary(d, cb);
      case ControlFrame(k, n, cb) => OnControl(k, n, cb);
      case AttachAck(o, a) => OnAttachAck(o, a);
      case ResizeAck(m, cb) => OnResizeAck(m, cb);
      case ViewerConflict => OnViewerConflict();
      case ControlGranted(a) => OnControlGranted(a);
    }

    /** Any sequence of events takes the object through the run of the model. */
    method HandleAll(events: seq<Event>)
      requires Valid()
      modifies this, resize, resize.tracker, acks, prefill, attach
      ensures View() == P.ClientRun(old(View()), events) && Valid()
    {
      for i := 0 to |events|
        invariant View() == P.ClientRun(old(View()), events[..i]) && Valid()
      {
        if IsFrame(events[i]) { HandleFrame(events[i]); } else { HandleLocal(events[i]); }
        RunSnoc(old(View()), events, i);
      }
      assert events[..|events|] == events;
    }
  }

  lemma RunSnoc(c: P.Client, events: seq<Event>, i: nat)
    requires i < |events|
    ensures P.ClientRun(c, events[..i + 1]) == P.ClientStep(P.ClientRun(c, events[..i]), events[i])
  {
    assert events[..i + 1] == events[..i] + [events[i]];
    Q.ClientRunAppend(c, events[..i], [events[i]]);
    var s := P.ClientRun(c, events[..i]);
    assert [events[i]][1..] == [];
    assert P.ClientRun(P.ClientStep(s, events[i]), []) == P.ClientStep(s, events[i]);
  }

  /** A new client, whatever happens to it: its history is sound, every promise
      it made was settled or is held for something queued or in flight, and its
      acknowledgements never run ahead of the output. */
  method RunNewClient(mode: PrefillMode, events: seq<Event>) returns (client: Client)
    ensures fresh(client) && client.Valid() && client.View() == P.ClientRun(P.InitialClient(mode), events)
    ensures var t := client.LinkView();
            H.Sound(H.Effects(t.rz.effects)) && forall p: nat :: p < t.rz.nextPromise ==> H.IsKept(t, p)
    ensures A.AcksGrow(A.Entries(client.acks.ledger)) && A.AcksCovered(A.Entries(client.acks.ledger))
  {
    client := new Client(mode);
    client.HandleAll(events);
    Q.LinkRuns(P.InitialClient(mode), events);
    H.EveryRunIsSound(mode, Q.LinkEvents(P.InitialClient(mode), events));
    Q.EveryRunAcknowledges(mode, events);
  }
}
