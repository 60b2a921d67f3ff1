/**
 The guarantees of a run, read off the sequence of its effects.
 */
module PtyHistory {
  import opened Common
  import opened OrderedResize
  import opened PtyResize
  import opened PtyProtocol
  import opened PtyResizeSafety
  import S = PtySafety
  import G = PtyGeometry

  function Effects(log: Log): seq<Effect> {
    match log
    case Start => []
    case Log(before, e) => Effects(before) + [e]
  }

  /** The ordered resize at `i` is acknowledged, or its lifecycle cancelled, before `j`. */
  predicate ClosedBefore(h: seq<Effect>, i: nat, j: nat)
    requires i < j <= |h| && h[i].SentOrdered?
  {
    exists k :: i < k < j && (h[k].LifecycleCancelled? || (h[k].Acked? && h[k].id == h[i].request.id))
  }

  /** Nothing closes the transaction at `i` before `j`, and no other is opened. */
  predicate OpenUntil(h: seq<Effect>, i: nat, j: nat)
    requires i < j <= |h|
  {
    forall k :: i < k < j ==> !h[k].LifecycleCancelled? && !h[k].Acked? && !h[k].SentOrdered?
  }

  predicate IsForced(e: Effect) {
    e.Proposed? && e.force
  }

  /** A resize is sent, or the lifecycle cancelled, after `i` and before `j`. */
  predicate SentBetween(h: seq<Effect>, i: nat, j: nat)
    requires i < j <= |h|
  {
    exists k :: i < k < j && (h[k].SentPlain? || h[k].SentOrdered? || h[k].LifecycleCancelled?)
  }

  predicate WasSettled(h: seq<Effect>, p: int) {
    exists j :: 0 <= j < |h| && h[j].Settled? && h[j].promise == p
  }

  /** What `Summary` knows, in terms of positions. */
  predicate Explains(h: seq<Effect>, m: Seen) {
    && (forall i :: 0 <= i < |h| && h[i].SentOrdered? ==>
          h[i].request.id <= m.newestId && (ClosedBefore(h, i, |h|) || m.inFlight == Some(h[i].request.id)))
    && (m.inFlight.Some? ==> exists i :: 0 <= i < |h| && h[i].SentOrdered? && h[i].request.id == m.inFlight.value && OpenUntil(h, i, |h|))
    && (forall i :: 0 <= i < |h| && h[i].Settled? ==> h[i].promise <= m.newestPromise)
    && (forall p :: 0 <= p <= m.newestPromise ==> WasSettled(h, p))
    && (forall i :: 0 <= i < |h| && IsForced(h[i]) ==> m.owed || SentBetween(h, i, |h|))
  }

  lemma ClosedLater(h: seq<Effect>, e: Effect, i: nat)
    requires i < |h| && h[i].SentOrdered? && ClosedBefore(h, i, |h|)
    ensures ClosedBefore(h + [e], i, |h| + 1)
  {
    var k :| i < k < |h| && (h[k].LifecycleCancelled? || (h[k].Acked? && h[k].id == h[i].request.id));
    assert (h + [e])[k] == h[k];
  }

  lemma ExplainsSent(h: seq<Effect>, m: Seen, e: Effect)
    requires Explains(h, m) && Allowed(m, e)
    ensures forall i :: 0 <= i < |h| + 1 && (h + [e])[i].SentOrdered? ==>
              (h + [e])[i].request.id <= Observe(m, e).newestId
              && (ClosedBefore(h + [e], i, |h| + 1) || Observe(m, e).inFlight == Some((h + [e])[i].request.id))
  {
    var g := h + [e];
    forall i | 0 <= i < |g| && g[i].SentOrdered?
      ensures g[i].request.id <= Observe(m, e).newestId
      ensures ClosedBefore(g, i, |g|) || Observe(m, e).inFlight == Some(g[i].request.id)
    {
      if i < |h| {
        if ClosedBefore(h, i, |h|) {
          ClosedLater(h, e, i);
        } else if e.LifecycleCancelled? || e.Acked? {
          assert g[|h|] == e;
        }
      }
    }
  }

  lemma ExplainsInFlight(h: seq<Effect>, m: Seen, e: Effect)
    requires Explains(h, m) && Allowed(m, e)
    ensures Observe(m, e).inFlight.Some? ==>
              exists i :: 0 <= i < |h| + 1 && (h + [e])[i].SentOrdered?
                && (h + [e])[i].request.id == Observe(m, e).inFlight.value && OpenUntil(h + [e], i, |h| + 1)
  {
    var g := h + [e];
    if e.SentOrdered? {
      assert g[|h|] == e && OpenUntil(g, |h|, |g|);
    } else if Observe(m, e).inFlight.Some? {
      var i :| 0 <= i < |h| && h[i].SentOrdered? && h[i].request.id == m.inFlight.value && OpenUntil(h, i, |h|);
      assert g[i] == h[i] && OpenUntil(g, i, |g|);
    }
  }

  lemma ExplainsSettled(h: seq<Effect>, m: Seen, e: Effect)
    requires Explains(h, m) && Allowed(m, e)
    ensures forall p :: 0 <= p <= Observe(m, e).newestPromise ==> WasSettled(h + [e], p)
  {
    var g := h + [e];
    forall p | 0 <= p <= Observe(m, e).newestPromise ensures WasSettled(g, p) {
      if p <= m.newestPromise {
        assert WasSettled(h, p);
        var j :| 0 <= j < |h| && h[j].Settled? && h[j].promise == p;
        assert g[j] == h[j];
      } else {
        assert g[|h|] == e;
      }
    }
  }

  lemma ExplainsAppend(h: seq<Effect>, m: Seen, e: Effect)
    requires Explains(h, m) && Allowed(m, e)
    ensures Explains(h + [e], Observe(m, e))
  {
    ExplainsSent(h, m, e);
    ExplainsInFlight(h, m, e);
    ExplainsSettled(h, m, e);
    ExplainsPromises(h, m, e);
    ExplainsOwed(h, m, e);
  }

  lemma ExplainsOwed(h: seq<Effect>, m: Seen, e: Effect)
    requires Explains(h, m) && Allowed(m, e)
    ensures forall i :: 0 <= i < |h + [e]| && IsForced((h + [e])[i]) ==> Observe(m, e).owed || SentBetween(h + [e], i, |h| + 1)
  {
    var g := h + [e];
    assert g[|h|] == e;
    forall i | 0 <= i < |g| && IsForced(g[i]) ensures Observe(m, e).owed || SentBetween(g, i, |g|) {
      if i < |h| {
        assert g[i] == h[i];
        if SentBetween(h, i, |h|) { SentPrefix(h, e, i, |h|); }
      }
    }
  }

  lemma SentPrefix(h: seq<Effect>, e: Effect, i: nat, j: nat)
    requires i < j <= |h|
    ensures SentBetween(h + [e], i, j) <==> SentBetween(h, i, j)
    ensures SentBetween(h, i, j) ==> SentBetween(h + [e], i, |h| + 1)
  {
    var g := h + [e];
    assert forall k :: 0 <= k < |h| ==> g[k] == h[k];
    if SentBetween(h, i, j) {
      var k :| i < k < j && (h[k].SentPlain? || h[k].SentOrdered? || h[k].LifecycleCancelled?);
      assert g[k] == h[k];
    }
  }

  lemma ExplainsPromises(h: seq<Effect>, m: Seen, e: Effect)
    requires Explains(h, m) && Allowed(m, e)
    ensures forall i :: 0 <= i < |h + [e]| && (h + [e])[i].Settled? ==> (h + [e])[i].promise <= Observe(m, e).newestPromise
  {
    assert forall i :: 0 <= i < |h| ==> (h + [e])[i] == h[i];
  }

  lemma {:induction false} SummaryExplains(log: Log)
    requires Summary(log).sound
    ensures Explains(Effects(log), Summary(log))
  {
    match log {
      case Start =>
      case Log(before, e) =>
        SummaryExplains(before);
        ExplainsAppend(Effects(before), Summary(before), e);
    }
  }

  // ----- the guarantees

  predicate IsAcknowledgement(e: Effect) {
    e.Settled? && e.outcome.Acknowledged?
  }

  /** No output is handed over while an ordered resize is open. */
  predicate OutputHeld(h: seq<Effect>) {
    forall i, j :: 0 <= i < j < |h| && h[i].SentOrdered? && h[j].Delivered? ==> ClosedBefore(h, i, j)
  }

  /** One transaction at a time, under ever larger ids. */
  predicate OneAtATime(h: seq<Effect>) {
    forall i, j :: 0 <= i < j < |h| && h[i].SentOrdered? && h[j].SentOrdered? ==>
      h[i].request.id < h[j].request.id && ClosedBefore(h, i, j)
  }

  /** An acknowledgement completes the one open transaction, sent in the same lifecycle. */
  predicate AcksMatch(h: seq<Effect>) {
    forall j :: 0 <= j < |h| && h[j].Acked? ==>
      exists i :: 0 <= i < j && h[i].SentOrdered? && h[i].request.id == h[j].id && OpenUntil(h, i, j)
  }

  /** No promise is settled twice: they are settled in the order they were made. */
  predicate SettledInOrder(h: seq<Effect>) {
    forall i, j :: 0 <= i < j < |h| && h[i].Settled? && h[j].Settled? ==> h[i].promise < h[j].promise
  }

  /** A promise is acknowledged only when no proposal is queued and no ordered resize is open. */
  predicate AcknowledgedWhenIdle(h: seq<Effect>) {
    && (forall j :: 0 <= j < |h| && IsAcknowledgement(h[j]) ==> !h[j].queued)
    && (forall i, j :: 0 <= i < j < |h| && h[i].SentOrdered? && IsAcknowledgement(h[j]) ==> ClosedBefore(h, i, j))
  }

  /** A forced proposal is sent, or its lifecycle cancelled, before any promise is acknowledged. */
  predicate ForcedIsSent(h: seq<Effect>) {
    forall i, j :: 0 <= i < j < |h| && IsForced(h[i]) && IsAcknowledgement(h[j]) ==> SentBetween(h, i, j)
  }

  predicate Sound(h: seq<Effect>) {
    OneAtATime(h) && AcksMatch(h) && SettledInOrder(h) && AcknowledgedWhenIdle(h) && ForcedIsSent(h)
  }

  lemma ClosedPrefix(h: seq<Effect>, e: Effect, i: nat, j: nat)
    requires i < j <= |h| && h[i].SentOrdered?
    ensures ClosedBefore(h + [e], i, j) <==> ClosedBefore(h, i, j)
    ensures OpenUntil(h + [e], i, j) <==> OpenUntil(h, i, j)
  {
    var g := h + [e];
    assert forall k :: 0 <= k < |h| ==> g[k] == h[k];
  }

  /** What is sent or acknowledged next finds every earlier request closed. */
  lemma ClosedNext(h: seq<Effect>, m: Seen, e: Effect, i: nat)
    requires Explains(h, m) && Allowed(m, e) && (e.SentOrdered? || IsAcknowledgement(e)) && i < |h| && h[i].SentOrdered?
    ensures ClosedBefore(h + [e], i, |h|) && (e.SentOrdered? ==> h[i].request.id < e.request.id)
  {
    assert ClosedBefore(h, i, |h|);
    ClosedPrefix(h, e, i, |h|);
  }

  lemma OneAtATimeAppend(h: seq<Effect>, m: Seen, e: Effect)
    requires OneAtATime(h) && Explains(h, m) && Allowed(m, e)
    ensures OneAtATime(h + [e])
  {
    var g := h + [e];
    forall i, j | 0 <= i < j < |g| && g[i].SentOrdered? && g[j].SentOrdered? ensures g[i].request.id < g[j].request.id && ClosedBefore(g, i, j) {
      assert g[i] == h[i];
      if j == |h| {
        ClosedNext(h, m, e, i);
      } else {
        assert g[j] == h[j];
        ClosedPrefix(h, e, i, j);
      }
    }
  }

  lemma AcksMatchAppend(h: seq<Effect>, m: Seen, e: Effect)
    requires AcksMatch(h) && Explains(h, m) && Allowed(m, e)
    ensures AcksMatch(h + [e])
  {
    var g := h + [e];
    assert forall k :: 0 <= k < |h| ==> g[k] == h[k];
    forall j | 0 <= j < |g| && g[j].Acked?
      ensures exists i :: 0 <= i < j && g[i].SentOrdered? && g[i].request.id == g[j].id && OpenUntil(g, i, j)
    {
      var i :| 0 <= i < j && h[i].SentOrdered? && h[i].request.id == g[j].id && OpenUntil(h, i, j);
      ClosedPrefix(h, e, i, j);
      assert g[i] == h[i];
    }
  }

  lemma AcknowledgedAppend(h: seq<Effect>, m: Seen, e: Effect)
    requires AcknowledgedWhenIdle(h) && Explains(h, m) && Allowed(m, e)
    ensures AcknowledgedWhenIdle(h + [e])
  {
    var g := h + [e];
    forall j | 0 <= j < |g| && IsAcknowledgement(g[j]) ensures !g[j].queued { if j < |h| { assert g[j] == h[j]; } }
    forall i, j | 0 <= i < j < |g| && g[i].SentOrdered? && IsAcknowledgement(g[j]) ensures ClosedBefore(g, i, j) {
      assert g[i] == h[i];
      if j == |h| {
        ClosedNext(h, m, e, i);
      } else {
        assert g[j] == h[j];
        ClosedPrefix(h, e, i, j);
      }
    }
  }

  lemma SettledAppend(h: seq<Effect>, m: Seen, e: Effect)
    requires SettledInOrder(h) && Explains(h, m) && Allowed(m, e)
    ensures SettledInOrder(h + [e])
  {
    assert forall k :: 0 <= k < |h| ==> (h + [e])[k] == h[k];
  }

  lemma ForcedAppend(h: seq<Effect>, m: Seen, e: Effect)
    requires ForcedIsSent(h) && Explains(h, m) && Allowed(m, e)
    ensures ForcedIsSent(h + [e])
  {
    var g := h + [e];
    forall i, j | 0 <= i < j < |g| && IsForced(g[i]) && IsAcknowledgement(g[j]) ensures SentBetween(g, i, j) {
      assert g[i] == h[i] && (j < |h| ==> g[j] == h[j]);
      assert SentBetween(h, i, j);
      SentPrefix(h, e, i, j);
    }
  }

  lemma SoundAppend(h: seq<Effect>, m: Seen, e: Effect)
    requires Sound(h) && Explains(h, m) && Allowed(m, e)
    ensures Sound(h + [e])
  {
    OneAtATimeAppend(h, m, e);
    AcksMatchAppend(h, m, e);
    SettledAppend(h, m, e);
    AcknowledgedAppend(h, m, e);
    ForcedAppend(h, m, e);
  }

  lemma {:induction false} SoundLog(log: Log)
    requires Summary(log).sound
    ensures Sound(Effects(log))
  {
    match log {
      case Start =>
      case Log(before, e) =>
        SoundLog(before);
        SummaryExplains(before);
        SoundAppend(Effects(before), Summary(before), e);
    }
  }

  lemma HeldAppend(h: seq<Effect>, m: Seen, e: Effect)
    requires Explains(h, m)
    ensures OutputHeld(h + [e]) <==> OutputHeld(h) && (e.Delivered? ==> m.inFlight.None?)
  {
    var g := h + [e];
    assert forall k :: 0 <= k < |h| ==> g[k] == h[k];
    forall i, j | 0 <= i < j < |h| && h[i].SentOrdered? ensures ClosedBefore(g, i, j) <==> ClosedBefore(h, i, j) {
      ClosedPrefix(h, e, i, j);
    }
    forall i | 0 <= i < |h| && h[i].SentOrdered? ensures ClosedBefore(g, i, |h|) <==> ClosedBefore(h, i, |h|) {
      ClosedPrefix(h, e, i, |h|);
    }
    if e.Delivered? && m.inFlight.Some? {
      var i :| 0 <= i < |h| && h[i].SentOrdered? && h[i].request.id == m.inFlight.value && OpenUntil(h, i, |h|);
      assert !ClosedBefore(g, i, |h|) && g[|h|].Delivered? && g[i].SentOrdered?;
    }
  }

  /** The summary knows exactly whether output was held back. */
  lemma {:induction false} HeldExact(log: Log)
    requires Summary(log).sound
    ensures Summary(log).held <==> OutputHeld(Effects(log))
  {
    match log {
      case Start =>
      case Log(before, e) =>
        HeldExact(before);
        SummaryExplains(before);
        HeldAppend(Effects(before), Summary(before), e);
    }
  }

  // ----- every run of the client from its creation

  /** The promise was settled, or is the one the client holds, which then
      waits for a queued proposal or a request in flight. */
  predicate IsKept(t: Link, p: nat) {
    WasSettled(Effects(t.rz.effects), p)
    || (t.rz.settlement == Some(p) && (t.rz.pending.Some? || t.rz.tracker.pending.Some?))
  }

  lemma PromisesAreKept(t: Link, p: nat)
    requires S.Inv(t) && S.NotStranded(t) && !t.rz.draining && p < t.rz.nextPromise
    ensures IsKept(t, p)
  {
    SummaryExplains(t.rz.effects);
  }

  /** A forced proposal was sent or cancelled, or is queued and still forced,
      whatever was proposed since. */
  predicate ForcedIsKept(t: Link) {
    var h := Effects(t.rz.effects);
    forall i :: 0 <= i < |h| && IsForced(h[i]) ==> SentBetween(h, i, |h|) || (t.rz.pending.Some? && t.rz.pending.value.force)
  }

  /** In any environment. */
  lemma EveryRunIsSound(mode: PrefillMode, events: seq<Event>)
    ensures var t := Run(InitialLink(mode), events);
            && Sound(Effects(t.rz.effects))
            && (forall p: nat :: p < t.rz.nextPromise ==> IsKept(t, p))
            && ForcedIsKept(t) && (t.rz.barrier ==> t.rz.ordered)
            && (t.rz.pending.Some? && !t.rz.pending.value.ready ==> t.rz.debounce)
            && t.deferredBytes == S.TotalSize(t.deferred) <= ORDERED_RESIZE_BARRIER_MAX_BYTES
  {
    var t := Run(InitialLink(mode), events);
    S.RunKeeps(InitialLink(mode), events);
    SoundLog(t.rz.effects);
    SummaryExplains(t.rz.effects);
    forall p: nat | p < t.rz.nextPromise ensures IsKept(t, p) { PromisesAreKept(t, p); }
  }

  /** A promise that a caller was handed is settled in the log some time, or
      still held for something queued or in flight, however the run goes on. */
  lemma HandedOutIsKept(mode: PrefillMode, before: seq<Event>, dims: Dims, force: bool, immediate: bool, after: seq<Event>, p: nat)
    requires var s := Run(InitialLink(mode), before);
             Queue(s.rz, IsOpen(s), dims, force, immediate).1 == Later(p)
    ensures IsKept(Run(Step(Run(InitialLink(mode), before), FitResize(dims, force, immediate)), after), p)
  {
    S.RunKeeps(InitialLink(mode), before);
    AnswerIsKept(Run(InitialLink(mode), before), dims, force, immediate, after, p);
  }

  lemma AnswerIsKept(s: Link, dims: Dims, force: bool, immediate: bool, after: seq<Event>, p: nat)
    requires S.Inv(s) && S.NotStranded(s) && !s.rz.draining && Queue(s.rz, IsOpen(s), dims, force, immediate).1 == Later(p)
    ensures IsKept(Run(Step(s, FitResize(dims, force, immediate)), after), p)
  {
    var t := Step(s, FitResize(dims, force, immediate));
    AnswerIsHeld(s, dims, force, immediate, p);
    S.RunKeeps(t, after);
    PromisesAreKept(Run(t, after), p);
  }

  lemma AnswerIsHeld(s: Link, dims: Dims, force: bool, immediate: bool, p: nat)
    requires S.Inv(s) && S.NotStranded(s) && !s.rz.draining && Queue(s.rz, IsOpen(s), dims, force, immediate).1 == Later(p)
    ensures var t := Step(s, FitResize(dims, force, immediate)); S.Inv(t) && S.NotStranded(t) && !t.rz.draining && p < t.rz.nextPromise
  {
    assert Step(s, FitResize(dims, force, immediate)) == ResizeRequest(s, dims, force, immediate);
    QueueKeeps(s.rz, IsOpen(s), dims, force, immediate);
    S.RequestKeeps(s, dims, force, immediate);
  }

  /** As long as the capability is not withdrawn in flight, and no callback
      resizes in the middle of a prefill flush. */
  lemma EveryRunHoldsOutput(mode: PrefillMode, events: seq<Event>)
    requires S.HoldsOutputRun(InitialLink(mode), events)
    ensures var t := Run(InitialLink(mode), events);
            OutputHeld(Effects(t.rz.effects)) && (t.rz.tracker.pending.Some? ==> t.rz.barrier && t.rz.ordered)
  {
    S.RunKeeps(InitialLink(mode), events);
    HeldExact(Run(InitialLink(mode), events).rz.effects);
  }

  /** As long as no socket opens under an unmounted terminal over a stale proposal. */
  lemma EveryRunFeedsProposals(mode: PrefillMode, events: seq<Event>)
    requires S.MountedRun(InitialLink(mode), events)
    ensures var t := Run(InitialLink(mode), events);
            t.rz.pending.Some? && IsOpen(t) ==> if t.rz.pending.value.ready then t.rz.tracker.pending.Some? else t.rz.debounce
  {
    S.RunKeeps(InitialLink(mode), events);
  }

  // ----- what an acknowledged promise says

  function WireDims(e: Effect): Option<Dims> {
    match e
    case SentAttach(d) => Some(d)
    case SentPlain(d) => Some(d)
    case SentOrdered(r) => Some(r.dims)
    case _ => None
  }

  /** `d` is the last geometry proposed before `j` in the lifecycle of `j`. */
  predicate LatestAt(h: seq<Effect>, j: nat, d: Dims)
    requires j <= |h|
  {
    exists a :: 0 <= a < j && h[a].Proposed? && h[a].dims == d && forall k :: a < k < j ==> !h[k].Proposed? && !h[k].LifecycleCancelled?
  }

  /** `d` is the last geometry put on the wire before `j`. */
  predicate OnWireAt(h: seq<Effect>, j: nat, d: Dims)
    requires j <= |h|
  {
    exists b :: 0 <= b < j && WireDims(h[b]) == Some(d) && forall k :: b < k < j ==> WireDims(h[k]).None?
  }

  /** Some geometry is both. */
  ghost predicate AgreedAt(h: seq<Effect>, j: nat)
    requires j <= |h|
  {
    exists d :: LatestAt(h, j, d) && OnWireAt(h, j, d)
  }

  /** If a promise is acknowledged at `j`, the latest geometry is on the wire. */
  ghost predicate TruthfulAt(h: seq<Effect>, j: nat)
    requires j < |h|
  {
    IsAcknowledgement(h[j]) ==> AgreedAt(h, j)
  }

  ghost predicate Truthful(h: seq<Effect>) {
    forall j :: 0 <= j < |h| ==> TruthfulAt(h, j)
  }

  ghost predicate Locates(h: seq<Effect>, g: G.Geometry) {
    && (forall d :: LatestAt(h, |h|, d) <==> g.latest == Some(d))
    && (forall d :: OnWireAt(h, |h|, d) <==> g.wire == Some(d))
  }

  lemma PositionsPrefix(h: seq<Effect>, e: Effect, j: nat, d: Dims)
    requires j <= |h|
    ensures LatestAt(h, j, d) <==> LatestAt(h + [e], j, d)
    ensures OnWireAt(h, j, d) <==> OnWireAt(h + [e], j, d)
  {
    var h' := h + [e];
    assert forall k :: 0 <= k < |h| ==> h'[k] == h[k];
  }

  lemma LatestAppend(h: seq<Effect>, e: Effect, d: Dims)
    ensures LatestAt(h + [e], |h| + 1, d)
            <==> (e.Proposed? && e.dims == d) || (!e.Proposed? && !e.LifecycleCancelled? && LatestAt(h, |h|, d))
  {
    var g := h + [e];
    assert g[|h|] == e && forall k :: 0 <= k < |h| ==> g[k] == h[k];
    if LatestAt(h, |h|, d) && !e.Proposed? && !e.LifecycleCancelled? {
      var a :| 0 <= a < |h| && h[a].Proposed? && h[a].dims == d && forall k :: a < k < |h| ==> !h[k].Proposed? && !h[k].LifecycleCancelled?;
      assert g[a] == h[a];
    }
  }

  lemma WireAppend(h: seq<Effect>, e: Effect, d: Dims)
    ensures OnWireAt(h + [e], |h| + 1, d) <==> WireDims(e) == Some(d) || (WireDims(e).None? && OnWireAt(h, |h|, d))
  {
    var g := h + [e];
    assert g[|h|] == e && forall k :: 0 <= k < |h| ==> g[k] == h[k];
    if OnWireAt(h, |h|, d) && WireDims(e).None? {
      var b :| 0 <= b < |h| && WireDims(h[b]) == Some(d) && forall k :: b < k < |h| ==> WireDims(h[k]).None?;
      assert WireDims(g[b]) == Some(d);
    }
  }

  lemma LocatesAppend(h: seq<Effect>, g: G.Geometry, e: Effect)
    requires Locates(h, g)
    ensures Locates(h + [e], G.Track(g, e))
  {
    forall d ensures LatestAt(h + [e], |h + [e]|, d) <==> G.Track(g, e).latest == Some(d) { LatestAppend(h, e, d); }
    forall d ensures OnWireAt(h + [e], |h + [e]|, d) <==> G.Track(g, e).wire == Some(d) { WireAppend(h, e, d); }
  }

  lemma TruthfulAppend(h: seq<Effect>, g: G.Geometry, e: Effect)
    requires Locates(h, g)
    ensures Truthful(h + [e]) <==> Truthful(h) && (IsAcknowledgement(e) ==> g.latest.Some? && g.latest == g.wire)
  {
    TruthfulNow(h, g, e);
    TruthfulSnoc(h, e);
  }

  lemma TruthfulSnoc(h: seq<Effect>, e: Effect)
    ensures Truthful(h + [e]) <==> Truthful(h) && TruthfulAt(h + [e], |h|)
  {
    var h' := h + [e];
    if Truthful(h') {
      forall j | 0 <= j < |h| ensures TruthfulAt(h, j) {
        assert TruthfulAt(h', j);
        TruthfulPrefix(h, e, j);
      }
    }
    if Truthful(h) && TruthfulAt(h', |h|) {
      forall j | 0 <= j < |h'| ensures TruthfulAt(h', j) {
        if j < |h| { TruthfulPrefix(h, e, j); }
      }
    }
  }

  lemma TruthfulPrefix(h: seq<Effect>, e: Effect, j: nat)
    requires j < |h|
    ensures TruthfulAt(h + [e], j) <==> TruthfulAt(h, j)
  {
    assert (h + [e])[j] == h[j];
    AgreedPrefix(h, e, j);
  }

  lemma TruthfulNow(h: seq<Effect>, g: G.Geometry, e: Effect)
    requires Locates(h, g)
    ensures TruthfulAt(h + [e], |h|) <==> (IsAcknowledgement(e) ==> g.latest.Some? && g.latest == g.wire)
  {
    assert (h + [e])[|h|] == e;
    AgreedPrefix(h, e, |h|);
    AgreedNow(h, g);
  }

  lemma AgreedPrefix(h: seq<Effect>, e: Effect, j: nat)
    requires j <= |h|
    ensures AgreedAt(h + [e], j) <==> AgreedAt(h, j)
  {
    forall d ensures (LatestAt(h, j, d) <==> LatestAt(h + [e], j, d)) && (OnWireAt(h, j, d) <==> OnWireAt(h + [e], j, d)) {
      PositionsPrefix(h, e, j, d);
    }
  }

  lemma AgreedNow(h: seq<Effect>, g: G.Geometry)
    requires Locates(h, g)
    ensures AgreedAt(h, |h|) <==> g.latest.Some? && g.latest == g.wire
  {
    if g.latest.Some? && g.latest == g.wire { assert LatestAt(h, |h|, g.latest.value) && OnWireAt(h, |h|, g.latest.value); }
  }

  /** The geometry that is tracked is the geometry of the history, and it knows
      exactly whether every acknowledged promise told the truth. */
  lemma {:induction false} TruthfulExact(log: Log)
    ensures Locates(Effects(log), G.GeometryOf(log))
    ensures G.GeometryOf(log).truthful <==> Truthful(Effects(log))
  {
    match log {
      case Start =>
      case Log(before, e) =>
        TruthfulExact(before);
        var h, g := Effects(before), G.GeometryOf(before);
        LocatesAppend(h, g, e);
        TruthfulAppend(h, g, e);
    }
  }

  /** With an echoing broker, in any environment: the geometry behind every
      acknowledged promise is the latest proposed and the last one sent. */
  lemma EveryEchoedRunIsTruthful(mode: PrefillMode, events: seq<Event>)
    requires G.EchoRun(InitialLink(mode), events)
    ensures Truthful(Effects(Run(InitialLink(mode), events).rz.effects))
  {
    G.RunKeeps(InitialLink(mode), events);
    TruthfulExact(Run(InitialLink(mode), events).rz.effects);
  }
}
