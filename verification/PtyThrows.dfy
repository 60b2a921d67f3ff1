/**
 Callbacks that throw. The exception leaves the frame handler; what the handler
 had still to do is skipped, except that an ack no longer counts as being
 drained (handleResizeAck's finally). The handlers below stop behind the
 callback of the client's `bad`-th effect, and are those of `PtyProtocol`
 where that callback is not reached.
 */
module PtyThrows {
  import opened Common
  import opened Sequences
  import opened OrderedResize
  import opened PtyResize
  import opened PtyProtocol
  import opened PtySafety
  import R = PtyResizeSafety
  import C = PtyConservation
  import H = PtyHistory
  import P = PtyProgress
  import F = PtyFailures

  /** Where a handler stopped, and whether a callback threw out of it. */
  datatype Outcome = Outcome(link: Link, thrown: bool)

  function NotifyOrThrow(s: Link, e: Effect, cb: Callbacks, bad: nat): Outcome {
    Outcome(Notify(s, e, cb), s.rz.emitted + 1 == bad)
  }

  function DeliverOrThrow(s: Link, chunks: seq<seq<Byte>>, cb: Callbacks, bad: nat): Outcome
    decreases |chunks|
  {
    if chunks == [] then Outcome(s, false) else
    var o := NotifyOrThrow(s, Delivered(chunks[0]), cb, bad);
    if o.thrown then o else DeliverOrThrow(o.link, chunks[1..], cb, bad)
  }

  function BinaryOrThrow(s: Link, data: seq<Byte>, cb: Callbacks, bad: nat): Outcome {
    var s1 := EmitOn(s, Passed(Binary(data)));
    if Buffers(s.prefill) then Outcome(s1.(prefill := s.prefill.(chunks := s.prefill.chunks + [data])), false)
    else NotifyOrThrow(s1, Delivered(data), cb, bad)
  }

  function ViewportOrThrow(s: Link, cb: Callbacks, bad: nat): Outcome {
    var o := DeliverOrThrow(s.(prefill := s.prefill.(chunks := [])), s.prefill.chunks, cb, bad);
    if o.thrown then o else Outcome(o.link.(prefill := o.link.prefill.(awaiting := true, sawViewport := true)), false)
  }

  function ReplaceOrThrow(s: Link, discards: bool, cb: Callbacks, bad: nat): Outcome {
    if discards then NotifyOrThrow(s, PrefillReplaced, cb, bad) else Outcome(s, false)
  }

  function CompleteOrThrow(s: Link, chunks: seq<seq<Byte>>, cb: Callbacks, bad: nat): Outcome {
    var o := DeliverOrThrow(s, chunks, cb, bad);
    if o.thrown then o else NotifyOrThrow(o.link, PrefillCompleted, cb, bad)
  }

  function PrefillDoneOrThrow(s: Link, cb: Callbacks, bad: nat): Outcome {
    var s1 := s.(prefill := s.prefill.(awaiting := false, timer := None, chunks := []));
    var o := ReplaceOrThrow(s1, s.prefill.sawViewport && s.prefill.chunks != [], cb, bad);
    if o.thrown then o
    else CompleteOrThrow(o.link.(prefill := o.link.prefill.(sawViewport := false)), s.prefill.chunks, cb, bad)
  }

  function ControlOrThrow(s: Link, kind: ControlKind, size: nat, cb: Callbacks, bad: nat): Outcome {
    var s1 := EmitOn(s, Passed(Control(kind, size)));
    match kind
    case PrefillViewport => ViewportOrThrow(s1, cb, bad)
    case PrefillDone => PrefillDoneOrThrow(s1, cb, bad)
    case PtyReady => NotifyOrThrow(s1, Ready, cb, bad)
  }

  function FrameOrThrow(s: Link, f: Frame, cb: Callbacks, bad: nat): Outcome {
    match f
    case Binary(d) => if s.rz.barrier then Outcome(Defer(s, f), false) else BinaryOrThrow(s, d, cb, bad)
    case Control(k, n) => ControlOrThrow(s, k, n, cb, bad)
  }

  function DrainOrThrow(s: Link, frames: seq<Frame>, ws: Socket, generation: nat, cb: Callbacks, bad: nat): Outcome
    decreases |frames|
  {
    if frames == [] || !SameSocket(s.ws, ws) || s.rz.generation != generation then Outcome(s, false) else
    var o := FrameOrThrow(s, frames[0], cb, bad);
    if o.thrown then o else DrainOrThrow(o.link, frames[1..], ws, generation, cb, bad)
  }

  function ReleaseOrThrow(s: Link, cb: Callbacks, bad: nat): Outcome {
    DrainOrThrow(s.(rz := s.rz.(barrier := false), deferred := [], deferredBytes := 0), s.deferred, s.ws, s.rz.generation, cb, bad)
  }

  /** The part of handleResizeAck inside its try. */
  function TryAck(s: Link, m: Ack, cb: Callbacks, bad: nat): Outcome
    requires Completes(s.rz.tracker, m)
  {
    var s0 := s.(rz := Acknowledge(s.rz, Dims(m.cols, m.rows)));
    var s1 := Callback(s0, cb);
    if s0.rz.emitted == bad then Outcome(s1, true) else ReleaseOrThrow(s1, cb, bad)
  }

  function AckOrThrow(s: Link, m: Ack, cb: Callbacks, bad: nat): Link {
    if !s.rz.ordered || !Completes(s.rz.tracker, m) then s else
    var o := TryAck(s, m, cb, bad);
    if o.thrown then o.link.(rz := o.link.rz.(draining := false)) else o.link.(rz := Resume(o.link.rz, IsOpen(o.link)))
  }

  function StepOrThrow(s: Link, e: Event, bad: nat): Link {
    if IsFrame(e) && !IsOpen(s) then s else
    match e
    case BinaryFrame(d, cb) => FrameOrThrow(s, Binary(d), cb, bad).link
    case ControlFrame(k, n, cb) => if s.rz.barrier then Defer(s, Control(k, n)) else ControlOrThrow(s, k, n, cb, bad).link
    case ResizeAck(m, cb) => AckOrThrow(s, m, cb, bad)
    case _ => Step(s, e)
  }

  /** An event, and the effect whose callback throws. */
  datatype Throwing = Throwing(event: Event, bad: nat)

  function RunOrThrow(s: Link, events: seq<Throwing>): Link
    decreases |events|
  {
    if events == [] then s else RunOrThrow(StepOrThrow(s, events[0].event, events[0].bad), events[1..])
  }

  // ----- without a throw it is the handler

  lemma {:induction false} DeliverQuietly(s: Link, chunks: seq<seq<Byte>>, cb: Callbacks, bad: nat)
    requires !DeliverOrThrow(s, chunks, cb, bad).thrown
    ensures DeliverOrThrow(s, chunks, cb, bad).link == DeliverAll(s, chunks, cb)
    decreases |chunks|
  {
    if chunks != [] { DeliverQuietly(Notify(s, Delivered(chunks[0]), cb), chunks[1..], cb, bad); }
  }

  lemma FrameQuietly(s: Link, f: Frame, cb: Callbacks, bad: nat)
    requires !FrameOrThrow(s, f, cb, bad).thrown
    ensures FrameOrThrow(s, f, cb, bad).link == Replay(s, f, cb)
  {
    match f {
      case Binary(_) =>
      case Control(k, n) =>
        var s1 := EmitOn(s, Passed(f));
        match k {
          case PrefillViewport => DeliverQuietly(s1.(prefill := s1.prefill.(chunks := [])), s1.prefill.chunks, cb, bad);
          case PrefillDone => PrefillDoneQuietly(s1, cb, bad);
          case PtyReady =>
        }
    }
  }

  lemma PrefillDoneQuietly(s: Link, cb: Callbacks, bad: nat)
    requires !PrefillDoneOrThrow(s, cb, bad).thrown
    ensures PrefillDoneOrThrow(s, cb, bad).link == PassPrefillDone(s, cb)
  {
    var s1 := s.(prefill := s.prefill.(awaiting := false, timer := None, chunks := []));
    var o := ReplaceOrThrow(s1, s.prefill.sawViewport && s.prefill.chunks != [], cb, bad);
    DeliverQuietly(o.link.(prefill := o.link.prefill.(sawViewport := false)), s.prefill.chunks, cb, bad);
  }

  lemma {:induction false} DrainQuietly(s: Link, frames: seq<Frame>, ws: Socket, generation: nat, cb: Callbacks, bad: nat)
    requires !DrainOrThrow(s, frames, ws, generation, cb, bad).thrown
    ensures DrainOrThrow(s, frames, ws, generation, cb, bad).link == Drain(s, frames, ws, generation, cb)
    decreases |frames|
  {
    if !(frames == [] || !SameSocket(s.ws, ws) || s.rz.generation != generation) {
      FrameQuietly(s, frames[0], cb, bad);
      DrainQuietly(Replay(s, frames[0], cb), frames[1..], ws, generation, cb, bad);
    }
  }

  /** An ack whose callbacks do not throw. */
  lemma AckQuietly(s: Link, m: Ack, cb: Callbacks, bad: nat)
    requires s.rz.ordered && Completes(s.rz.tracker, m) && !TryAck(s, m, cb, bad).thrown
    ensures AckOrThrow(s, m, cb, bad) == HandleResizeAck(s, m, cb)
  {
    var s1 := Callback(s.(rz := Acknowledge(s.rz, Dims(m.cols, m.rows))), cb);
    DrainQuietly(s1.(rz := s1.rz.(barrier := false), deferred := [], deferredBytes := 0), s1.deferred, s1.ws, s1.rz.generation, cb, bad);
  }

  // ----- what a throw cannot break

  lemma {:induction false} DeliverStops(s: Link, chunks: seq<seq<Byte>>, cb: Callbacks, bad: nat)
    requires Inv(s)
    ensures var t := DeliverOrThrow(s, chunks, cb, bad).link; Inv(t) && Follows(s, t)
    decreases |chunks|
  {
    if chunks != [] {
      NotifyKeeps(s, Delivered(chunks[0]), cb);
      DeliverStops(Notify(s, Delivered(chunks[0]), cb), chunks[1..], cb, bad);
    }
  }

  lemma CompleteStops(s: Link, chunks: seq<seq<Byte>>, cb: Callbacks, bad: nat)
    requires Inv(s)
    ensures var t := CompleteOrThrow(s, chunks, cb, bad).link; Inv(t) && Follows(s, t)
  {
    DeliverStops(s, chunks, cb, bad);
    NotifyKeeps(DeliverOrThrow(s, chunks, cb, bad).link, PrefillCompleted, cb);
  }

  lemma PrefillDoneStops(s: Link, cb: Callbacks, bad: nat)
    requires Inv(s)
    ensures var t := PrefillDoneOrThrow(s, cb, bad).link; Inv(t) && Follows(s, t)
  {
    var s1 := s.(prefill := s.prefill.(awaiting := false, timer := None, chunks := []));
    NotifyKeeps(s1, PrefillReplaced, cb);
    var o := ReplaceOrThrow(s1, s.prefill.sawViewport && s.prefill.chunks != [], cb, bad);
    assert Inv(o.link) && Follows(s, o.link);
    CompleteStops(o.link.(prefill := o.link.prefill.(sawViewport := false)), s.prefill.chunks, cb, bad);
  }

  lemma ControlStops(s: Link, kind: ControlKind, size: nat, cb: Callbacks, bad: nat)
    requires Inv(s)
    ensures var t := ControlOrThrow(s, kind, size, cb, bad).link; Inv(t) && Follows(s, t)
  {
    R.NeutralKeeps(s.rz, Passed(Control(kind, size)));
    var s1 := EmitOn(s, Passed(Control(kind, size)));
    assert Follows(s, s1);
    match kind {
      case PrefillViewport => ViewportStops(s1, cb, bad);
      case PrefillDone => PrefillDoneStops(s1, cb, bad);
      case PtyReady => NotifyKeeps(s1, Ready, cb);
    }
  }

  lemma ViewportStops(s: Link, cb: Callbacks, bad: nat)
    requires Inv(s)
    ensures var t := ViewportOrThrow(s, cb, bad).link; Inv(t) && Follows(s, t)
  {
    DeliverStops(s.(prefill := s.prefill.(chunks := [])), s.prefill.chunks, cb, bad);
  }

  lemma FrameStops(s: Link, f: Frame, cb: Callbacks, bad: nat)
    requires Inv(s)
    ensures var t := FrameOrThrow(s, f, cb, bad).link; Inv(t) && R.Follows(s.rz, t.rz) && (!s.rz.barrier && s.deferred == [] ==> t.deferred == [])
  {
    match f {
      case Binary(d) =>
        if s.rz.barrier {
          DeferKeeps(s, f);
        } else {
          R.NeutralKeeps(s.rz, Passed(f));
          NotifyKeeps(EmitOn(s, Passed(f)), Delivered(d), cb);
        }
      case Control(k, n) => ControlStops(s, k, n, cb, bad);
    }
  }

  lemma {:induction false} DrainStops(s: Link, frames: seq<Frame>, ws: Socket, generation: nat, cb: Callbacks, bad: nat)
    requires Inv(s) && s.rz.draining && !s.rz.barrier && s.deferred == []
    ensures var t := DrainOrThrow(s, frames, ws, generation, cb, bad).link;
            Inv(t) && t.rz.draining && s.rz.nextPromise <= t.rz.nextPromise
    decreases |frames|
  {
    if !(frames == [] || !SameSocket(s.ws, ws) || s.rz.generation != generation) {
      FrameStops(s, frames[0], cb, bad);
      DrainStops(FrameOrThrow(s, frames[0], cb, bad).link, frames[1..], ws, generation, cb, bad);
    }
  }

  lemma TryStops(s: Link, m: Ack, cb: Callbacks, bad: nat)
    requires Inv(s) && !s.rz.draining && Completes(s.rz.tracker, m)
    ensures var t := TryAck(s, m, cb, bad).link; Inv(t) && t.rz.draining && s.rz.nextPromise <= t.rz.nextPromise
  {
    R.AcknowledgeKeeps(s.rz, Dims(m.cols, m.rows));
    var s0 := s.(rz := Acknowledge(s.rz, Dims(m.cols, m.rows)));
    CallbackKeeps(s0, cb);
    var s1 := Callback(s0, cb);
    DrainStops(s1.(rz := s1.rz.(barrier := false), deferred := [], deferredBytes := 0), s1.deferred, s1.ws, s1.rz.generation, cb, bad);
  }

  /** An exception leaves the books of transactions, promises and held bytes
      right; only one out of an ack can strand a promise. */
  lemma StepOrThrowKeeps(s: Link, e: Event, bad: nat)
    requires Inv(s) && !s.rz.draining
    ensures var t := StepOrThrow(s, e, bad);
            Inv(t) && !t.rz.draining && (NotStranded(s) && !e.ResizeAck? ==> NotStranded(t))
  {
    if IsFrame(e) && !IsOpen(s) {
    } else {
      match e {
        case BinaryFrame(d, cb) => FrameStops(s, Binary(d), cb, bad);
        case ControlFrame(k, n, cb) => if s.rz.barrier { DeferKeeps(s, Control(k, n)); } else { ControlStops(s, k, n, cb, bad); }
        case ResizeAck(m, cb) => AckStops(s, m, cb, bad);
        case _ => StepKeeps(s, e);
      }
    }
  }

  lemma AckStops(s: Link, m: Ack, cb: Callbacks, bad: nat)
    requires Inv(s) && !s.rz.draining
    ensures Inv(AckOrThrow(s, m, cb, bad)) && !AckOrThrow(s, m, cb, bad).rz.draining
  {
    if s.rz.ordered && Completes(s.rz.tracker, m) {
      var o := TryAck(s, m, cb, bad);
      TryStops(s, m, cb, bad);
      if o.thrown { DrainEnds(o.link.rz); } else { R.ResumeKeeps(o.link.rz, IsOpen(o.link)); }
    }
  }

  lemma DrainEnds(r: Resize)
    requires R.Inv(r) && r.draining
    ensures R.Inv(r.(draining := false))
  {
  }

  lemma {:induction false} RunOrThrowKeeps(s: Link, events: seq<Throwing>)
    requires Inv(s) && !s.rz.draining
    ensures Inv(RunOrThrow(s, events)) && !RunOrThrow(s, events).rz.draining
    decreases |events|
  {
    if events != [] {
      StepOrThrowKeeps(s, events[0].event, events[0].bad);
      RunOrThrowKeeps(StepOrThrow(s, events[0].event, events[0].bad), events[1..]);
    }
  }

  /** Whatever callbacks throw, over every run from creation. */
  lemma EveryThrowingRunIsSound(mode: PrefillMode, events: seq<Throwing>)
    ensures var t := RunOrThrow(InitialLink(mode), events);
            && H.Sound(H.Effects(t.rz.effects))
            && (forall p: nat :: p < t.rz.nextPromise ==> H.WasSettled(H.Effects(t.rz.effects), p) || t.rz.settlement == Some(p))
            && t.deferredBytes == TotalSize(t.deferred) <= ORDERED_RESIZE_BARRIER_MAX_BYTES
  {
    var t := RunOrThrow(InitialLink(mode), events);
    RunOrThrowKeeps(InitialLink(mode), events);
    H.SoundLog(t.rz.effects);
    H.SummaryExplains(t.rz.effects);
  }

  // ----- what it can

  /** Callbacks that do nothing but throw leave the promise where it was. */
  lemma DrainKeepsPromise(s: Link, m: Ack, bad: nat)
    requires s.rz.ordered && Completes(s.rz.tracker, m)
    ensures var r := TryAck(s, m, map[], bad).link.rz;
            r.settlement == s.rz.settlement && r.pending == s.rz.pending && r.tracker.pending.None?
  {
    var s0 := s.(rz := Acknowledge(s.rz, Dims(m.cols, m.rows)));
    DrainStopsPlain(s0.(rz := s0.rz.(barrier := false), deferred := [], deferredBytes := 0), s0.deferred, s0.ws, s0.rz.generation, bad);
  }

  lemma {:induction false} DeliverStopsPlain(s: Link, chunks: seq<seq<Byte>>, bad: nat)
    ensures P.Plain(s, DeliverOrThrow(s, chunks, map[], bad).link)
    decreases |chunks|
  {
    if chunks != [] {
      P.EmitPlain(s, Delivered(chunks[0]));
      DeliverStopsPlain(EmitOn(s, Delivered(chunks[0])), chunks[1..], bad);
    }
  }

  lemma CompleteStopsPlain(s: Link, chunks: seq<seq<Byte>>, bad: nat)
    ensures P.Plain(s, CompleteOrThrow(s, chunks, map[], bad).link)
  {
    DeliverStopsPlain(s, chunks, bad);
    P.EmitPlain(DeliverOrThrow(s, chunks, map[], bad).link, PrefillCompleted);
  }

  lemma PrefillDoneStopsPlain(s: Link, bad: nat)
    ensures P.Plain(s, PrefillDoneOrThrow(s, map[], bad).link)
  {
    var s1 := s.(prefill := s.prefill.(awaiting := false, timer := None, chunks := []));
    P.EmitPlain(s1, PrefillReplaced);
    var o := ReplaceOrThrow(s1, s.prefill.sawViewport && s.prefill.chunks != [], map[], bad);
    assert P.Plain(s, o.link);
    CompleteStopsPlain(o.link.(prefill := o.link.prefill.(sawViewport := false)), s.prefill.chunks, bad);
  }

  lemma FrameStopsPlain(s: Link, f: Frame, bad: nat)
    requires !s.rz.barrier
    ensures P.Plain(s, FrameOrThrow(s, f, map[], bad).link)
  {
    P.EmitPlain(s, Passed(f));
    var s1 := EmitOn(s, Passed(f));
    match f {
      case Binary(d) => P.EmitPlain(s1, Delivered(d));
      case Control(k, n) =>
        match k {
          case PrefillViewport => DeliverStopsPlain(s1.(prefill := s1.prefill.(chunks := [])), s1.prefill.chunks, bad);
          case PrefillDone => PrefillDoneStopsPlain(s1, bad);
          case PtyReady => P.EmitPlain(s1, Ready);
        }
    }
  }

  lemma {:induction false} DrainStopsPlain(s: Link, frames: seq<Frame>, ws: Socket, generation: nat, bad: nat)
    requires !s.rz.barrier
    ensures P.Plain(s, DrainOrThrow(s, frames, ws, generation, map[], bad).link)
    decreases |frames|
  {
    if !(frames == [] || !SameSocket(s.ws, ws) || s.rz.generation != generation) {
      FrameStopsPlain(s, frames[0], bad);
      DrainStopsPlain(FrameOrThrow(s, frames[0], map[], bad).link, frames[1..], ws, generation, bad);
    }
  }

  /** An exception out of an ack strands a promise exactly when the client holds
      one and no further proposal is queued. */
  lemma StrandedExact(s: Link, m: Ack, bad: nat)
    requires Inv(s) && !s.rz.draining && s.rz.ordered && Completes(s.rz.tracker, m)
    ensures NotStranded(AckOrThrow(s, m, map[], bad))
            <==> !TryAck(s, m, map[], bad).thrown || s.rz.settlement.None? || s.rz.pending.Some?
  {
    DrainKeepsPromise(s, m, bad);
    TryStops(s, m, map[], bad);
    var t := TryAck(s, m, map[], bad).link;
    R.ResumeKeeps(t.rz, IsOpen(t));
  }

  /** The next proposal on an open socket brings a stranded promise back. */
  lemma ProposalRecovers(s: Link, dims: Dims, force: bool, immediate: bool)
    requires Inv(s) && IsOpen(s)
    ensures NotStranded(ResizeRequest(s, dims, force, immediate))
  {
    R.ProposeKeeps(s.rz, IsOpen(s), dims, force, immediate);
    R.AnsweredKeeps(Propose(s.rz, IsOpen(s), dims, force, immediate));
  }

  lemma {:induction false} NeverDelivers(s: Link, chunks: seq<seq<Byte>>, cb: Callbacks)
    ensures !DeliverOrThrow(s, chunks, cb, 0).thrown
    decreases |chunks|
  {
    if chunks != [] { NeverDelivers(Notify(s, Delivered(chunks[0]), cb), chunks[1..], cb); }
  }

  lemma NeverFrame(s: Link, f: Frame, cb: Callbacks)
    ensures !FrameOrThrow(s, f, cb, 0).thrown
  {
    match f {
      case Binary(_) =>
      case Control(k, n) =>
        var s1 := EmitOn(s, Passed(f));
        match k {
          case PrefillViewport => NeverDelivers(s1.(prefill := s1.prefill.(chunks := [])), s1.prefill.chunks, cb);
          case PrefillDone =>
            var s2 := s1.(prefill := s1.prefill.(awaiting := false, timer := None, chunks := []));
            var o := ReplaceOrThrow(s2, s1.prefill.sawViewport && s1.prefill.chunks != [], cb, 0);
            NeverDelivers(o.link.(prefill := o.link.prefill.(sawViewport := false)), s1.prefill.chunks, cb);
          case PtyReady =>
        }
    }
  }

  lemma {:induction false} NeverDrains(s: Link, frames: seq<Frame>, ws: Socket, generation: nat, cb: Callbacks)
    ensures !DrainOrThrow(s, frames, ws, generation, cb, 0).thrown
    decreases |frames|
  {
    if !(frames == [] || !SameSocket(s.ws, ws) || s.rz.generation != generation) {
      NeverFrame(s, frames[0], cb);
      NeverDrains(FrameOrThrow(s, frames[0], cb, 0).link, frames[1..], ws, generation, cb);
    }
  }

  /** No effect is the 0th: without an exception a step is a step of the protocol. */
  lemma StepIsQuiet(s: Link, e: Event)
    ensures StepOrThrow(s, e, 0) == Step(s, e)
  {
    match e {
      case BinaryFrame(d, cb) => NeverFrame(s, Binary(d), cb); FrameQuietly(s, Binary(d), cb, 0);
      case ControlFrame(k, n, cb) => NeverFrame(s, Control(k, n), cb); FrameQuietly(s, Control(k, n), cb, 0);
      case ResizeAck(m, cb) =>
        if s.rz.ordered && Completes(s.rz.tracker, m) {
          var s1 := Callback(s.(rz := Acknowledge(s.rz, Dims(m.cols, m.rows))), cb);
          NeverDrains(s1.(rz := s1.rz.(barrier := false), deferred := [], deferredBytes := 0), s1.deferred, s1.ws, s1.rz.generation, cb);
          AckQuietly(s, m, cb, 0);
        }
      case _ =>
    }
  }

  // ----- frames behind an exception

  lemma {:induction false} DeliverPassesNone(s: Link, chunks: seq<seq<Byte>>, bad: nat)
    ensures var t := DeliverOrThrow(s, chunks, map[], bad).link;
            C.PassedFrames(t.rz.effects) == C.PassedFrames(s.rz.effects) && t.deferred == s.deferred
    decreases |chunks|
  {
    if chunks != [] {
      P.EmitPlain(s, Delivered(chunks[0]));
      DeliverPassesNone(EmitOn(s, Delivered(chunks[0])), chunks[1..], bad);
    }
  }

  lemma PrefillDonePassesNone(s: Link, bad: nat)
    ensures var t := PrefillDoneOrThrow(s, map[], bad).link;
            C.PassedFrames(t.rz.effects) == C.PassedFrames(s.rz.effects) && t.deferred == s.deferred
  {
    var s1 := s.(prefill := s.prefill.(awaiting := false, timer := None, chunks := []));
    P.EmitPlain(s1, PrefillReplaced);
    var o := ReplaceOrThrow(s1, s.prefill.sawViewport && s.prefill.chunks != [], map[], bad);
    assert C.PassedFrames(o.link.rz.effects) == C.PassedFrames(s.rz.effects) && o.link.deferred == s.deferred;
    var s3 := o.link.(prefill := o.link.prefill.(sawViewport := false));
    DeliverPassesNone(s3, s.prefill.chunks, bad);
    P.EmitPlain(DeliverOrThrow(s3, s.prefill.chunks, map[], bad).link, PrefillCompleted);
  }

  lemma FramePassesOne(s: Link, f: Frame, bad: nat)
    requires !s.rz.barrier
    ensures var t := FrameOrThrow(s, f, map[], bad).link;
            C.PassedFrames(t.rz.effects) == C.PassedFrames(s.rz.effects) + [f] && t.deferred == s.deferred
  {
    var s1 := EmitOn(s, Passed(f));
    assert C.PassedFrames(s1.rz.effects) == C.PassedFrames(s.rz.effects) + [f];
    match f {
      case Binary(d) => P.EmitPlain(s1, Delivered(d));
      case Control(k, n) =>
        match k {
          case PrefillViewport => DeliverPassesNone(s1.(prefill := s1.prefill.(chunks := [])), s1.prefill.chunks, bad);
          case PrefillDone => PrefillDonePassesNone(s1, bad);
          case PtyReady => P.EmitPlain(s1, Ready);
        }
    }
  }

  /** The frames that were replayed when a drain ended: all of them exactly when
      no frame but the last one let an exception out. */
  lemma {:induction false} DrainPasses(s: Link, frames: seq<Frame>, bad: nat) returns (k: nat)
    requires !s.rz.barrier
    ensures var o := DrainOrThrow(s, frames, s.ws, s.rz.generation, map[], bad);
            && k <= |frames| && C.PassedFrames(o.link.rz.effects) == C.PassedFrames(s.rz.effects) + frames[..k] && o.link.deferred == s.deferred
            && (k == |frames| <==> frames == [] || !DrainOrThrow(s, frames[..|frames| - 1], s.ws, s.rz.generation, map[], bad).thrown)
    decreases |frames|
  {
    if frames == [] {
      k := 0;
    } else {
      var f, rest := frames[0], frames[1..];
      var o := FrameOrThrow(s, f, map[], bad);
      FramePassesOne(s, f, bad);
      FrameStopsPlain(s, f, bad);
      FrontDrains(s, frames, bad);
      if o.thrown {
        k := 1;
        assert frames[..1] == [f];
      } else {
        var j := DrainPasses(o.link, rest, bad);
        k := j + 1;
        assert frames[..k] == [f] + rest[..j];
        ConcatAssociates(C.PassedFrames(s.rz.effects), [f], rest[..j]);
      }
    }
  }

  /** All frames but the last, one frame on. */
  lemma FrontDrains(s: Link, frames: seq<Frame>, bad: nat)
    requires !s.rz.barrier && frames != []
    ensures var o := FrameOrThrow(s, frames[0], map[], bad);
            var front := DrainOrThrow(s, frames[..|frames| - 1], s.ws, s.rz.generation, map[], bad);
            front.thrown <==> |frames| > 1 && (o.thrown || DrainOrThrow(o.link, frames[1..][..|frames| - 2], o.link.ws, o.link.rz.generation, map[], bad).thrown)
  {
    FrameStopsPlain(s, frames[0], bad);
    if |frames| > 1 {
      assert frames[..|frames| - 1][0] == frames[0] && frames[..|frames| - 1][1..] == frames[1..][..|frames| - 2];
    }
  }

  /** The client inside an ack, when the replay begins. */
  function Replaying(s: Link, m: Ack): Link
    requires Completes(s.rz.tracker, m)
  {
    var s0 := s.(rz := Acknowledge(s.rz, Dims(m.cols, m.rows)));
    s0.(rz := s0.rz.(barrier := false), deferred := [], deferredBytes := 0)
  }

  /** An ack keeps every held frame exactly when its own callback throws, so that
      none is replayed, or no frame but the last one lets an exception out. */
  lemma FramesExact(s: Link, m: Ack, bad: nat)
    requires s.rz.ordered && Completes(s.rz.tracker, m)
    ensures C.Frames(AckOrThrow(s, m, map[], bad)) == C.Frames(s)
            <==> s.rz.emitted + 1 == bad || s.deferred == []
                 || !DrainOrThrow(Replaying(s, m), s.deferred[..|s.deferred| - 1], s.ws, s.rz.generation, map[], bad).thrown
  {
    var s1 := Replaying(s, m);
    var k := DrainPasses(s1, s.deferred, bad);
    var o := DrainOrThrow(s1, s.deferred, s.ws, s.rz.generation, map[], bad);
    assert C.PassedFrames(s1.rz.effects) == C.PassedFrames(s.rz.effects);
    C.ResumeQuiet(o.link.rz, IsOpen(o.link));
    if s.rz.emitted + 1 != bad {
      assert C.Frames(AckOrThrow(s, m, map[], bad)) == C.PassedFrames(s.rz.effects) + s.deferred[..k];
      assert |C.Frames(s)| == |C.PassedFrames(s.rz.effects)| + |s.deferred|;
      if k == |s.deferred| { assert s.deferred[..k] == s.deferred; }
    }
  }

  // ----- runs from creation

  /** The same events, with callbacks that do not throw. */
  function Quietly(events: seq<Event>): seq<Throwing> {
    seq(|events|, i requires 0 <= i < |events| => Throwing(events[i], 0))
  }

  lemma {:induction false} RunThenThrow(s: Link, events: seq<Event>, e: Event, bad: nat)
    ensures RunOrThrow(s, Quietly(events) + [Throwing(e, bad)]) == StepOrThrow(Run(s, events), e, bad)
    decreases |events|
  {
    var all := Quietly(events) + [Throwing(e, bad)];
    if events == [] {
      assert all[1..] == [];
      assert RunOrThrow(StepOrThrow(s, e, bad), []) == StepOrThrow(s, e, bad);
    } else {
      StepIsQuiet(s, events[0]);
      assert all[1..] == Quietly(events[1..]) + [Throwing(e, bad)];
      RunThenThrow(Step(s, events[0]), events[1..], e, bad);
    }
  }

  /** onResizeAck throws: the promise of the first ordered resize waits for
      nothing, and the barrier stays up with nothing in flight. */
  lemma AckCallbackStrands() returns (bad: nat)
    ensures var t := RunOrThrow(InitialLink(NoPrefill), Quietly(F.RESIZING) + [Throwing(ResizeAck(Ack(1, 80, 24), map[]), bad)]);
            IsOpen(t) && !NotStranded(t) && t.rz.barrier && Idle(t)
  {
    var s, m := Run(InitialLink(NoPrefill), F.RESIZING), Ack(1, 80, 24);
    F.Resizing(NoPrefill);
    bad := s.rz.emitted + 1;
    RunThenThrow(InitialLink(NoPrefill), F.RESIZING, ResizeAck(m, map[]), bad);
    CallbackStrands(s, m);
  }

  lemma CallbackStrands(s: Link, m: Ack)
    requires Inv(s) && !s.rz.draining && IsOpen(s) && s.rz.ordered && s.rz.barrier && Completes(s.rz.tracker, m)
    requires s.rz.settlement.Some? && s.rz.pending.None?
    ensures var t := StepOrThrow(s, ResizeAck(m, map[]), s.rz.emitted + 1);
            IsOpen(t) && !NotStranded(t) && t.rz.barrier && Idle(t)
  {
    assert TryAck(s, m, map[], s.rz.emitted + 1).thrown;
    StrandedExact(s, m, s.rz.emitted + 1);
  }

  /** A delivery throws: the frames held behind it are lost. */
  lemma DeliveryLosesFrames() returns (bad: nat)
    ensures var events := F.RESIZING + [BinaryFrame([1], map[]), BinaryFrame([2], map[])];
            var s := Run(InitialLink(NoPrefill), events);
            var t := RunOrThrow(InitialLink(NoPrefill), Quietly(events) + [Throwing(ResizeAck(Ack(1, 80, 24), map[]), bad)]);
            IsOpen(t) && t.rz.generation == s.rz.generation && C.Frames(s) == C.Frames(t) + [Binary([2])]
  {
    var s0, a, b, m := Run(InitialLink(NoPrefill), F.RESIZING), BinaryFrame([1], map[]), BinaryFrame([2], map[]), Ack(1, 80, 24);
    F.Resizing(NoPrefill);
    F.RunAppend(InitialLink(NoPrefill), F.RESIZING, [a, b]);
    P.RunTwo(s0, a, b);
    var s := Run(InitialLink(NoPrefill), F.RESIZING + [a, b]);
    HoldsTwo(s0);
    bad := s.rz.emitted + 3;
    RunThenThrow(InitialLink(NoPrefill), F.RESIZING + [a, b], ResizeAck(m, map[]), bad);
    FirstDeliveryThrows(s, m);
  }

  lemma HoldsTwo(s: Link)
    requires IsOpen(s) && s.rz.barrier && s.deferred == [] && s.deferredBytes == 0
    ensures Step(Step(s, BinaryFrame([1], map[])), BinaryFrame([2], map[])) == s.(deferred := [Binary([1]), Binary([2])], deferredBytes := 2)
  {
    assert Step(s, BinaryFrame([1], map[])) == s.(deferred := [Binary([1])], deferredBytes := 1);
  }

  lemma FirstDeliveryThrows(s: Link, m: Ack)
    requires IsOpen(s) && s.rz.ordered && Completes(s.rz.tracker, m) && !Buffers(s.prefill) && s.deferred == [Binary([1]), Binary([2])]
    ensures var t := StepOrThrow(s, ResizeAck(m, map[]), s.rz.emitted + 3);
            IsOpen(t) && t.rz.generation == s.rz.generation && C.Frames(s) == C.Frames(t) + [Binary([2])]
  {
    var s0 := s.(rz := Acknowledge(s.rz, Dims(m.cols, m.rows)));
    var s1 := s0.(rz := s0.rz.(barrier := false), deferred := [], deferredBytes := 0);
    var s2 := EmitOn(EmitOn(s1, Passed(Binary([1]))), Delivered([1]));
    assert FrameOrThrow(s1, Binary([1]), map[], s.rz.emitted + 3) == Outcome(s2, true);
    assert TryAck(s, m, map[], s.rz.emitted + 3) == Outcome(s2, true);
    assert C.PassedFrames(s1.rz.effects) == C.PassedFrames(s.rz.effects);
    assert C.PassedFrames(EmitOn(s1, Passed(Binary([1]))).rz.effects) == C.PassedFrames(s.rz.effects) + [Binary([1])];
    assert C.PassedFrames(s2.rz.effects) == C.PassedFrames(s.rz.effects) + [Binary([1])];
  }
}
