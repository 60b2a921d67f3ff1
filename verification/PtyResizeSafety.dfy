/** What the resize half keeps over every sequence of calls. */
module PtyResizeSafety {
  import opened Common
  import opened OrderedResize
  import opened PtyResize

  /** What the effects so far amount to.
      - inFlight: the ordered resize sent and neither acknowledged nor cancelled since
      - newestId, newestPromise: the last ordered id sent and the last promise settled
      - owed: a forced proposal was made, and nothing sent or cancelled since
      - sound: every effect but a delivery was allowed where it happened
      - held: nothing was delivered with a resize in flight */
  datatype Seen = Seen(sound: bool, held: bool, inFlight: Option<nat>, owed: bool, newestId: nat, newestPromise: int)

  /** Promises are settled one after the other, in the order they were made. */
  predicate Allowed(m: Seen, e: Effect) {
    match e
    case SentOrdered(r) => m.inFlight.None? && m.newestId < r.id
    case Acked(id, _) => m.inFlight == Some(id)
    case Settled(p, o, queued) => p == m.newestPromise + 1 && (o.Acknowledged? ==> m.inFlight.None? && !m.owed && !queued)
    case _ => true
  }

  function Observe(m: Seen, e: Effect): Seen {
    var m1 := m.(sound := m.sound && Allowed(m, e));
    match e
    case Proposed(_, force) => m1.(owed := m.owed || force)
    case SentPlain(_) => m1.(owed := false)
    case SentOrdered(r) => m1.(inFlight := Some(r.id), owed := false, newestId := r.id)
    case Acked(_, _) => m1.(inFlight := None)
    case LifecycleCancelled => m1.(inFlight := None, owed := false)
    case Settled(p, _, _) => m1.(newestPromise := p)
    case Delivered(_) => m1.(held := m.held && m.inFlight.None?)
    case _ => m1
  }

  function Summary(log: Log): Seen {
    match log
    case Start => Seen(true, true, None, false, 0, -1)
    case Log(before, e) => Observe(Summary(before), e)
  }

  // ----- what holds of every run

  predicate TransactionInv(r: Resize, m: Seen) {
    && m.sound
    && m.inFlight == (if r.tracker.pending.Some? then Some(r.tracker.pending.value.id) else None)
    && m.newestId <= r.tracker.nextId
    && (r.tracker.pending.Some? ==> !r.draining && 0 < r.tracker.pending.value.id <= r.tracker.nextId)
  }

  /** All promises are settled but the last, which the client then still holds. */
  predicate PromisesInv(r: Resize, m: Seen) {
    if r.settlement.Some? then r.settlement.value == m.newestPromise + 1 && r.nextPromise == m.newestPromise + 2
    else r.nextPromise == m.newestPromise + 1
  }

  /** An unready proposal has its timer. */
  predicate Queued(r: Resize) {
    && (r.pending.None? ==> !r.debounce)
    && (r.pending.Some? && !r.pending.value.ready ==> r.debounce)
  }

  /** An unsettled promise has something that will settle it. */
  predicate NotStranded(r: Resize) {
    r.settlement.Some? ==> r.pending.Some? || r.tracker.pending.Some? || r.draining
  }

  /** With nothing queued or in flight there is no promise left over, even during a drain. */
  predicate NoLeftover(r: Resize) {
    r.pending.None? && r.tracker.pending.None? ==> r.settlement.None?
  }

  /** Also, the barrier is up only while resizes are ordered. */
  predicate Books(r: Resize) {
    TransactionInv(r, Summary(r.effects)) && PromisesInv(r, Summary(r.effects)) && (r.barrier ==> r.ordered)
  }

  predicate Owed(r: Resize) {
    Summary(r.effects).owed
  }

  /** A forced proposal that was not sent is queued, and still forced. */
  predicate Owing(r: Resize) {
    Owed(r) ==> r.pending.Some? && r.pending.value.force
  }

  predicate Inv(r: Resize) {
    Books(r) && Queued(r) && Owing(r)
  }

  // ----- what holds where the environment lets it

  /** Nothing was delivered in flight, and a request in flight keeps its barrier. */
  predicate Held(r: Resize) {
    Summary(r.effects).held && (r.tracker.pending.Some? ==> r.barrier && r.ordered)
  }

  /** A ready proposal on an open socket waits for a request in flight. */
  predicate NotStarved(r: Resize, open: bool) {
    r.pending.Some? && r.pending.value.ready && open && !r.draining ==> r.tracker.pending.Some?
  }

  /** What no call changes. */
  predicate Follows(r: Resize, t: Resize) {
    && t.draining == r.draining
    && r.generation <= t.generation && r.nextPromise <= t.nextPromise
    && (t.ordered ==> r.ordered)
    && (r.draining && !r.barrier ==> !t.barrier)
    && (r.barrier && t.generation == r.generation ==> t.barrier)
    && (NotStranded(r) ==> NotStranded(t))
  }

  predicate Keeps(r: Resize, t: Resize) {
    Follows(r, t) && (Held(r) ==> Held(t))
  }

  // ----- the calls

  lemma SettleKeeps(r: Resize, outcome: Settlement)
    requires Books(r)
    requires outcome.Acknowledged? ==> r.tracker.pending.None? && r.pending.None? && !Owed(r)
    ensures Owed(Settle(r, outcome)) == Owed(r) && Books(Settle(r, outcome)) && Keeps(r, Settle(r, outcome)) && Settle(r, outcome).settlement.None?
  {
    if r.settlement.Some? {
      var m := Summary(r.effects);
      assert Allowed(m, Settled(r.settlement.value, outcome, r.pending.Some?));
    }
  }

  lemma CancelKeeps(r: Resize)
    requires Books(r)
    ensures Inv(Cancel(r)) && Keeps(r, Cancel(r)) && Cancel(r).tracker.pending.None? && NotStarved(Cancel(r), true)
    ensures Cancel(r).pending.None? && Cancel(r).settlement.None?
  {
    SettleKeeps(ClearQueued(r.(generation := r.generation + 1)), Cancelled);
  }

  lemma SendKeeps(r: Resize, dims: Dims)
    requires Books(r) && r.tracker.pending.None? && !r.draining
    ensures Books(Send(r, dims)) && Keeps(r, Send(r, dims)) && (Send(r, dims).tracker.pending.Some? <==> r.ordered)
    ensures !Owed(Send(r, dims))
  {
  }

  lemma SettleIfIdleKeeps(r: Resize)
    requires Books(r) && r.pending.None? && !r.debounce && !Owed(r)
    ensures Inv(SettleIfIdle(r)) && Keeps(r, SettleIfIdle(r)) && NoLeftover(SettleIfIdle(r))
    ensures SettleIfIdle(r).tracker == r.tracker && SettleIfIdle(r).pending.None?
  {
    if r.tracker.pending.None? { SettleKeeps(r, Acknowledged); }
  }

  /** A flush repairs a ready proposal that nothing else would send. */
  lemma FlushKeeps(r: Resize, open: bool)
    requires Inv(r)
    ensures Inv(Flush(r, open)) && Keeps(r, Flush(r, open)) && NotStarved(Flush(r, open), open)
    ensures NoLeftover(r) ==> NoLeftover(Flush(r, open))
    ensures r.draining || !r.ordered ==> Flush(r, open).tracker.pending == r.tracker.pending
  {
    if CanFlush(r, open) {
      if ShouldSendResizeRequest(r.pending.value.dims, r.lastSent, r.pending.value.force) {
        SendKeeps(ClearQueued(r), r.pending.value.dims);
      }
      SettleIfIdleKeeps(SendProposal(r));
    }
  }

  /** What a caller is told: a promise of its own, settled when nothing is
      queued or in flight, or the one the client holds. */
  predicate Answers(t: Resize, answer: Answer) {
    match answer
    case Later(p) => t.settlement == Some(p) && p < t.nextPromise
    case Now(o) => o.Acknowledged? && t.ordered ==> t.pending.None? && t.tracker.pending.None?
  }

  lemma AnsweredKeeps(r: Resize)
    requires Inv(r) && NoLeftover(r)
    ensures var (t, answer) := Answered(r);
            Inv(t) && Keeps(r, t) && Answers(t, answer) && t.tracker == r.tracker && t.pending == r.pending
  {
  }

  predicate IsNeutral(e: Effect) {
    || e.SentAttach? || e.Passed? || e.Delivered? || e.PrefillReplaced? || e.PrefillCompleted? || e.Ready? || e.Conflicted?
  }

  lemma NeutralKeeps(r: Resize, e: Effect)
    requires Inv(r) && IsNeutral(e)
    ensures Inv(Emit(r, e)) && Follows(r, Emit(r, e))
    ensures (e.Delivered? ==> r.tracker.pending.None?) ==> Keeps(r, Emit(r, e))
  {
  }

  lemma EnqueueKeeps(r: Resize, open: bool, dims: Dims, force: bool, immediate: bool)
    requires Books(r) && Queued(r) && (Owed(r) ==> force)
    ensures var t := Enqueue(r, open, dims, force, immediate);
            && Inv(t) && Keeps(r, t) && NoLeftover(t) && NotStarved(t, open)
            && (r.draining || !r.ordered ==> t.tracker.pending == r.tracker.pending)
  {
    var ready := immediate || (r.pending.Some? && r.pending.value.ready);
    var r1 := r.(pending := Some(Proposal(dims, force, ready)));
    if ready { FlushKeeps(r1, open); }
  }

  lemma ProposedKeeps(r: Resize, dims: Dims, force: bool)
    requires Inv(r)
    ensures var t := Emit(r, Proposed(dims, force));
            Books(t) && Queued(t) && Keeps(r, t) && (Owed(t) ==> force || (r.pending.Some? && r.pending.value.force))
  {
  }

  /** A proposal of the geometry last sent drops the queue. */
  lemma DropKeeps(r: Resize)
    requires Books(r) && !Owed(r)
    ensures var t := SettleIfIdle(ClearQueued(r));
            Inv(t) && Keeps(r, t) && NoLeftover(t) && t.pending.None? && t.generation == r.generation && t.tracker == r.tracker
  {
    assert Books(ClearQueued(r));
    SettleIfIdleKeeps(ClearQueued(r));
  }

  lemma ProposeKeeps(r: Resize, open: bool, dims: Dims, force: bool, immediate: bool)
    requires Inv(r)
    ensures var t := Propose(r, open, dims, force, immediate);
            && Inv(t) && Keeps(r, t) && NoLeftover(t) && NotStarved(t, open) && t.generation == r.generation
            && (r.draining || !r.ordered ==> t.tracker.pending == r.tracker.pending)
  {
    ProposedKeeps(r, dims, force);
    var r0, t := Emit(r, Proposed(dims, force)), Propose(r, open, dims, force, immediate);
    if !Forced(r, force) && Some(dims) == r.lastSent {
      DropKeeps(r0);
      assert t == SettleIfIdle(ClearQueued(r0));
    } else {
      EnqueueKeeps(r0, open, dims, Forced(r, force), immediate);
      EnqueueGeneration(r0, open, dims, Forced(r, force), immediate);
    }
    KeepsJoin(r, r0, t);
  }

  lemma EnqueueGeneration(r: Resize, open: bool, dims: Dims, force: bool, immediate: bool)
    ensures Enqueue(r, open, dims, force, immediate).generation == r.generation
  {
  }

  lemma KeepsJoin(r: Resize, m: Resize, t: Resize)
    requires Keeps(r, m) && Keeps(m, t)
    ensures Keeps(r, t)
  {
  }

  lemma QueueKeeps(r: Resize, open: bool, dims: Dims, force: bool, immediate: bool)
    requires Inv(r)
    ensures var (t, answer) := Queue(r, open, dims, force, immediate);
            && Inv(t) && Keeps(r, t) && Answers(t, answer) && t.generation == r.generation
            && (open || NotStarved(r, open) ==> NotStarved(t, open))
            && (r.draining || !r.ordered ==> t.tracker.pending == r.tracker.pending)
  {
    if open {
      ProposeKeeps(r, open, dims, force, immediate);
      AnsweredKeeps(Propose(r, open, dims, force, immediate));
    }
  }

  lemma FireDebounceKeeps(r: Resize, open: bool)
    requires Inv(r)
    ensures Inv(FireDebounce(r, open)) && Keeps(r, FireDebounce(r, open))
    ensures NotStarved(r, open) ==> NotStarved(FireDebounce(r, open), open)
  {
    if r.debounce {
      FlushKeeps(r.(debounce := false, pending := Some(r.pending.value.(ready := true))), open);
    }
  }

  lemma AcknowledgeKeeps(r: Resize, dims: Dims)
    requires Inv(r) && r.tracker.pending.Some?
    ensures var t := Acknowledge(r, dims);
            Inv(t) && t.draining && t.tracker.pending.None? && t.nextPromise == r.nextPromise && (Held(r) ==> Held(t))
  {
  }

  lemma ResumeKeeps(r: Resize, open: bool)
    requires Inv(r) && r.draining
    ensures var t := Resume(r, open);
            && Inv(t) && !t.draining && NotStranded(t) && NotStarved(t, open) && r.nextPromise <= t.nextPromise && (Held(r) ==> Held(t))
  {
    var r0 := r.(draining := false);
    if r0.pending.Some? {
      FlushKeeps(r0, open);
      if Flush(r0, open).pending.None? { SettleIfIdleKeeps(Flush(r0, open)); }
    } else {
      SettleIfIdleKeeps(r0);
    }
  }

  // ----- what a proposal does

  /** The geometries asked for on the wire, oldest first. */
  function SentDims(log: Log): seq<Dims> {
    match log
    case Start => []
    case Log(before, e) =>
      SentDims(before) + (match e case SentPlain(d) => [d] case SentOrdered(r) => [r.dims] case _ => [])
  }

  /** A proposal is forced if it or the one it replaces is, and ready likewise.
      One that is not forced and asks for the geometry last sent empties the
      queue; a ready one is sent unless a request is in flight or drained; any
      other replaces the queue. */
  lemma ProposalExact(r: Resize, dims: Dims, force: bool, immediate: bool)
    requires Inv(r)
    ensures var t := Propose(r, true, dims, force, immediate);
            var forced := force || (r.pending.Some? && r.pending.value.force);
            var ready := immediate || (r.pending.Some? && r.pending.value.ready);
            if !forced && r.lastSent == Some(dims) then
              t.pending.None? && SentDims(t.effects) == SentDims(r.effects)
            else if ready && r.tracker.pending.None? && !r.draining then
              t.pending.None? && SentDims(t.effects) == SentDims(r.effects) + [dims]
            else
              && t.pending == Some(Proposal(dims, forced, ready)) && SentDims(t.effects) == SentDims(r.effects)
              && (!ready ==> t.debounce)
  {
    var r0 := Emit(r, Proposed(dims, force));
    assert SentDims(r0.effects) == SentDims(r.effects);
    var forced := force || (r.pending.Some? && r.pending.value.force);
    var ready := immediate || (r.pending.Some? && r.pending.value.ready);
    if !forced && r.lastSent == Some(dims) {
      SettleSendsNothing(ClearQueued(r0));
    } else if ready {
      FlushExact(r0.(pending := Some(Proposal(dims, forced, true))), true);
    }
  }

  lemma SettleSendsNothing(r: Resize)
    ensures SentDims(SettleIfIdle(r).effects) == SentDims(r.effects) && SettleIfIdle(r).pending == r.pending
  {
  }

  /** A flush takes a ready proposal out of the queue on an open socket with
      nothing in flight or drained, and sends it if it is forced or asks for
      another geometry; any other flush does nothing. */
  lemma FlushExact(r: Resize, open: bool)
    ensures var t := Flush(r, open);
            if r.pending.Some? && r.pending.value.ready && open && r.tracker.pending.None? && !r.draining then
              var p := r.pending.value;
              t.pending.None? && SentDims(t.effects) == SentDims(r.effects) + (if p.force || r.lastSent != Some(p.dims) then [p.dims] else [])
            else t == r
  {
    if CanFlush(r, open) {
      var p := r.pending.value;
      var s := SendProposal(r);
      assert SentDims(s.effects) == SentDims(r.effects) + (if p.force || r.lastSent != Some(p.dims) then [p.dims] else []);
      SettleSendsNothing(s);
    }
  }
}
