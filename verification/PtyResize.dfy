/**
 The resize half of public/pty-socket-client.ts: proposals are coalesced, at
 most one numbered request is on the wire, and callers share one promise that
 settles when the latest geometry has been acknowledged.
 */
module PtyResize {
  import opened Common
  import opened OrderedResize

  datatype Proposal = Proposal(dims: Dims, force: bool, ready: bool)

  /** The control messages that an output barrier holds back. */
  datatype ControlKind = PrefillViewport | PrefillDone | PtyReady

  /** `size` is the encoded length of a control message. */
  datatype Frame = Binary(data: seq<Byte>) | Control(kind: ControlKind, size: nat)

  datatype Settlement = Acknowledged | Cancelled

  /** What the client does, in order. `queued` tells whether a proposal was
      waiting to be sent when a promise was settled; all else is visible to
      another party. */
  datatype Effect =
    | SentAttach(dims: Dims)
    | SentPlain(dims: Dims)
    | SentOrdered(request: Request)
    | Acked(id: nat, dims: Dims)              // onResizeAck
    | LifecycleCancelled
    | Proposed(dims: Dims, force: bool)
    | Settled(promise: nat, outcome: Settlement, queued: bool)
    | Passed(frame: Frame)                    // a frame got past the barrier
    | Delivered(data: seq<Byte>)              // onBinaryData
    | PrefillReplaced                         // onReplacePrefill
    | PrefillCompleted                        // onPrefillDone
    | Ready                                   // onPtyReady
    | Conflicted                              // onViewerConflict

  /** The effects so far, newest last. */
  datatype Log = Start | Log(before: Log, last: Effect)

  datatype Resize = Resize(
    generation: nat,
    ordered: bool,
    barrier: bool,
    tracker: Tracker,
    lastSent: Option<Dims>,
    pending: Option<Proposal>,
    debounce: bool,
    draining: bool,
    settlement: Option<nat>,
    nextPromise: nat,
    emitted: nat,                             // how many effects there are
    effects: Log)

  const INITIAL: Resize := Resize(0, false, false, Tracker(0, None), None, None, false, false, None, 0, 0, Start)

  function Emit(r: Resize, e: Effect): Resize {
    r.(emitted := r.emitted + 1, effects := Log(r.effects, e))
  }

  function Settle(r: Resize, outcome: Settlement): Resize {
    match r.settlement
    case None => r
    case Some(p) => Emit(r.(settlement := None), Settled(p, outcome, r.pending.Some?))
  }

  function ClearQueued(r: Resize): Resize {
    r.(debounce := false, pending := None)
  }

  function Cancel(r: Resize): Resize {
    var r1 := Settle(ClearQueued(r.(generation := r.generation + 1)), Cancelled);
    Emit(r1.(tracker := Cleared(r1.tracker), ordered := false, barrier := false), LifecycleCancelled)
  }

  function Send(r: Resize, dims: Dims): Resize {
    if r.ordered then
      var t := Requested(r.tracker, dims);
      Emit(r.(tracker := t, lastSent := Some(dims), barrier := true), SentOrdered(t.pending.value))
    else
      Emit(r.(lastSent := Some(dims)), SentPlain(dims))
  }

  predicate CanFlush(r: Resize, open: bool) {
    r.pending.Some? && r.pending.value.ready && r.tracker.pending.None? && !r.draining && open
  }

  function SendProposal(r: Resize): Resize
    requires r.pending.Some?
  {
    var p := r.pending.value;
    if ShouldSendResizeRequest(p.dims, r.lastSent, p.force) then Send(ClearQueued(r), p.dims) else ClearQueued(r)
  }

  function SettleIfIdle(r: Resize): Resize {
    if r.tracker.pending.None? then Settle(r, Acknowledged) else r
  }

  function Flush(r: Resize, open: bool): Resize {
    if CanFlush(r, open) then SettleIfIdle(SendProposal(r)) else r
  }

  /** What queueResize returns: a settled promise, or the shared one. */
  datatype Answer = Now(outcome: Settlement) | Later(promise: nat)

  /** waitForResizeSettlement: a promise that is settled at once counts as one of its own. */
  function Await(r: Resize): (Resize, Answer) {
    if r.pending.None? && r.tracker.pending.None? then
      (Emit(r.(nextPromise := r.nextPromise + 1), Settled(r.nextPromise, Acknowledged, false)), Now(Acknowledged))
    else match r.settlement
      case Some(p) => (r, Later(p))
      case None => (r.(settlement := Some(r.nextPromise), nextPromise := r.nextPromise + 1), Later(r.nextPromise))
  }

  function Answered(r: Resize): (Resize, Answer) {
    if r.ordered then Await(r) else (r, Now(Acknowledged))
  }

  function Enqueue(r: Resize, open: bool, dims: Dims, force: bool, immediate: bool): Resize {
    var ready := immediate || (r.pending.Some? && r.pending.value.ready);
    var r1 := r.(pending := Some(Proposal(dims, force, ready)));
    if ready then Flush(r1, open) else r1.(debounce := true)
  }

  predicate Forced(r: Resize, force: bool) {
    force || (r.pending.Some? && r.pending.value.force)
  }

  /** queueResize without its return value. */
  function Propose(r: Resize, open: bool, dims: Dims, force: bool, immediate: bool): Resize {
    var r0 := Emit(r, Proposed(dims, force));
    if !Forced(r, force) && Some(dims) == r.lastSent then SettleIfIdle(ClearQueued(r0))
    else Enqueue(r0, open, dims, Forced(r, force), immediate)
  }

  function Queue(r: Resize, open: bool, dims: Dims, force: bool, immediate: bool): (Resize, Answer) {
    if !open then (r, Now(Cancelled)) else Answered(Propose(r, open, dims, force, immediate))
  }

  function FireDebounce(r: Resize, open: bool): Resize {
    if !r.debounce then r else
    var r1 := r.(debounce := false);
    if r1.pending.None? then r1 else Flush(r1.(pending := Some(r1.pending.value.(ready := true))), open)
  }

  /** handleResizeAck before its drain: the request is complete, sends are blocked. */
  function Acknowledge(r: Resize, dims: Dims): Resize
    requires r.tracker.pending.Some?
  {
    Emit(r.(tracker := Cleared(r.tracker), lastSent := Some(dims), draining := true),
         Acked(r.tracker.pending.value.id, dims))
  }

  /** handleResizeAck after its drain. */
  function Resume(r: Resize, open: bool): Resize {
    var r1 := Flush(r.(draining := false), open);
    if r1.pending.None? then SettleIfIdle(r1) else r1
  }
}
