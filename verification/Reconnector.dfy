/** The reconnect budget of public/reconnector.ts. */
module Reconnector {
  import opened Common
  import opened Sequences

  const BUDGET_MS := 120000
  const BASE_DELAY_MS := 500
  const MAX_DELAY_MS := 5000
  const MAX_ATTEMPTS := 27

  function Min(a: int, b: int): int {
    if a <= b then a else b
  }

  /** floor(delay * 1.8), capped. */
  function Backoff(delay: nat): nat {
    Min(delay * 9 / 5, MAX_DELAY_MS)
  }

  /** The delay before jitter of attempt `n` + 1 of a budget. */
  function BaseDelay(n: nat): nat {
    if n == 0 then BASE_DELAY_MS else Backoff(BaseDelay(n - 1))
  }

  /** The least time that `n` attempts take. */
  function Pace(n: nat): nat {
    if n == 0 then 0 else Pace(n - 1) + BaseDelay(n - 1)
  }

  /** After four attempts every further one takes the full delay. */
  lemma {:induction false} PaceIs(n: nat)
    ensures BaseDelay(0) == 500 && BaseDelay(1) == 900 && BaseDelay(2) == 1620 && BaseDelay(3) == 2916 && Pace(4) == 5936
    ensures n >= 4 ==> BaseDelay(n) == MAX_DELAY_MS && Pace(n) == 5936 + MAX_DELAY_MS * (n - 4)
    decreases n
  {
    assert BaseDelay(1) == 900;
    assert BaseDelay(2) == 1620;
    assert BaseDelay(3) == 2916;
    assert Pace(2) == 1400 && Pace(3) == 3020;
    if n > 4 { PaceIs(n - 1); }
  }

  lemma {:induction false} PaceGrows(m: nat, n: nat)
    requires m <= n
    ensures Pace(m) <= Pace(n)
    decreases n
  {
    if m < n { PaceGrows(m, n - 1); }
  }

  /** Attempts that keep the pace use up the budget with the 27th. */
  lemma PaceBoundsAttempts(n: nat)
    requires Pace(n) < BUDGET_MS
    ensures n < MAX_ATTEMPTS
  {
    PaceIs(MAX_ATTEMPTS);
    if n >= MAX_ATTEMPTS { PaceGrows(MAX_ATTEMPTS, n); }
  }

  lemma DelayBounds(n: nat)
    ensures BASE_DELAY_MS <= BaseDelay(n) <= MAX_DELAY_MS
  {
    PaceIs(n);
  }

  /** A pending retry: when it fires, and the start of the budget it was scheduled in. */
  datatype Retry = Retry(due: int, start: int)

  /** `wait` is the time since the last event, or since a timer was due. */
  datatype Event =
    | Schedules(wait: nat, jitter: nat, should: bool)
    | Fires(wait: nat, should: bool)
    | Cancels
    | Resets
    | Blocks
    | Connects

  class Reconnector {
    var timer: Option<Retry>
    var delay: nat
    var startedAt: int
    var attempt: nat
    var blocked: bool
    /** The latest reading of the clock. */
    var clock: int
    /** How often the budget was reset, and the budgets whose exhaustion was reported. */
    var epoch: nat
    var exhausted: seq<nat>
    /** A pending retry of this budget was cancelled. */
    ghost var interrupted: bool

    ghost predicate Valid()
      reads this
    {
      && clock > 0 && 0 <= startedAt <= clock && delay == BaseDelay(attempt)
      && (startedAt == 0 ==> attempt == 0)
      && (timer.Some? ==> 0 < timer.value.start <= clock && timer.value.due <= timer.value.start + BUDGET_MS)
      && Distinct(exhausted) && (forall e :: e in exhausted ==> e < epoch || (e == epoch && blocked))
      && (interrupted || Paced())
    }

    /** The attempts of this budget took their time. */
    ghost predicate Paced()
      reads this
    {
      && (attempt > 0 && timer.Some? ==> timer.value.due - startedAt >= Min(BUDGET_MS, Pace(attempt)))
      && (attempt > 0 && timer.None? ==> clock - startedAt >= Min(BUDGET_MS, Pace(attempt)))
      && attempt <= MAX_ATTEMPTS
    }

    /** A call of schedule does nothing. */
    predicate Idle()
      reads this
    {
      timer.Some? || blocked
    }

    constructor (now: int)
      requires now > 0
      ensures Valid() && timer == None && attempt == 0 && !blocked && clock == now && exhausted == [] && !interrupted
    {
      timer, delay, startedAt, attempt, blocked := None, BASE_DELAY_MS, 0, 0, false;
      clock, epoch, exhausted, interrupted := now, 0, [], false;
    }

    /** The budget is used up: no further retry, and one report. */
    method Exhaust()
      requires Valid() && !blocked
      modifies `blocked, `exhausted
      ensures Valid() && blocked && exhausted == old(exhausted) + [epoch]
    {
      assert epoch !in exhausted;
      blocked, exhausted := true, exhausted + [epoch];
    }

    /** One more attempt, within what remains of the budget. */
    method Arm(jitter: nat, remaining: int)
      requires Valid() && timer.None? && 0 < startedAt && 0 < remaining == BUDGET_MS - (clock - startedAt)
      modifies `timer, `delay, `attempt
      ensures Valid() && attempt == old(attempt) + 1
      ensures timer == Some(Retry(clock + Min(Min(BaseDelay(old(attempt)) + jitter, MAX_DELAY_MS), remaining), startedAt))
      ensures timer.value.due > clock
    {
      DelayBounds(attempt);
      var delayMs := Min(Min(delay + jitter, MAX_DELAY_MS), remaining);
      if !interrupted { KeepsPace(attempt, clock - startedAt, delayMs); }
      attempt := attempt + 1;
      timer := Some(Retry(clock + delayMs, startedAt));
      delay := Backoff(delay);
    }

    /** schedule: at most one pending retry, which fires within the budget. */
    method Schedule(now: int, jitter: nat, shouldReconnect: bool)
      requires Valid() && now >= clock && jitter < 200
      modifies `timer, `delay, `startedAt, `attempt, `blocked, `clock, `exhausted
      ensures Valid() && clock == now
      ensures old(Idle()) || !shouldReconnect ==>
                timer == old(timer) && attempt == old(attempt) && startedAt == old(startedAt)
                && blocked == old(blocked) && exhausted == old(exhausted)
      ensures !old(Idle()) && shouldReconnect ==> startedAt == if old(startedAt) == 0 then now else old(startedAt)
      ensures !old(Idle()) && shouldReconnect && now - startedAt >= BUDGET_MS ==>
                blocked && timer == None && attempt == old(attempt) && exhausted == old(exhausted) + [epoch]
      ensures !old(Idle()) && shouldReconnect && now - startedAt < BUDGET_MS ==>
                && !blocked && attempt == old(attempt) + 1 && exhausted == old(exhausted)
                && timer == Some(Retry(now + Min(Min(BaseDelay(old(attempt)) + jitter, MAX_DELAY_MS), BUDGET_MS - (now - startedAt)), startedAt))
                && timer.value.due > now
    {
      clock := now;
      if timer.Some? || blocked || !shouldReconnect { return; }
      if startedAt == 0 { startedAt := now; }
      var remaining := BUDGET_MS - (now - startedAt);
      if remaining <= 0 {
        Exhaust();
        return;
      }
      Arm(jitter, remaining);
    }

    /** The timer fires, when it is due or later. */
    method Fire(now: int, shouldReconnect: bool) returns (connects: bool)
      requires Valid() && timer.Some? && now >= clock && now >= timer.value.due
      modifies `timer, `clock
      ensures Valid() && timer == None && clock == now
      ensures connects <==> shouldReconnect
    {
      clock, timer := now, None;
      connects := shouldReconnect;
    }

    /** cancel: only a pending retry can lose the pace. */
    method Cancel()
      requires Valid()
      modifies `timer, `interrupted
      ensures Valid() && timer == None
      ensures interrupted <==> old(interrupted) || (old(timer).Some? && attempt > 0)
    {
      interrupted := interrupted || (timer.Some? && attempt > 0);
      timer := None;
    }

    method Reset()
      requires Valid()
      modifies `blocked, `startedAt, `attempt, `delay, `epoch, `interrupted
      ensures Valid() && !blocked && startedAt == 0 && attempt == 0 && epoch == old(epoch) + 1 && !interrupted
    {
      blocked, startedAt, attempt, delay := false, 0, 0, BASE_DELAY_MS;
      epoch, interrupted := epoch + 1, false;
    }

    method Block()
      requires Valid()
      modifies `blocked
      ensures Valid() && blocked
    {
      blocked := true;
    }

    method Connected() returns (wasReconnecting: bool)
      requires Valid()
      modifies `blocked, `startedAt, `attempt, `delay, `epoch, `interrupted
      ensures Valid() && !blocked && startedAt == 0 && attempt == 0 && epoch == old(epoch) + 1 && !interrupted
      ensures wasReconnecting <==> old(startedAt) > 0
    {
      wasReconnecting := startedAt > 0;
      Reset();
    }

    /** One event; the clock never runs backwards, and a timer never fires early. */
    method Step(event: Event)
      requires Valid()
      modifies this
      ensures Valid() && clock >= old(clock) && epoch >= old(epoch)
      ensures interrupted ==> old(interrupted) || (event.Cancels? && old(timer).Some? && old(attempt) > 0)
    {
      match event
      case Schedules(wait, jitter, should) => Schedule(clock + wait, jitter % 200, should);
      case Fires(wait, should) =>
        if timer.Some? {
          var due := if timer.value.due > clock then timer.value.due else clock;
          var _ := Fire(due + wait, should);
        }
      case Cancels => Cancel();
      case Resets => Reset();
      case Blocks => Block();
      case Connects => var _ := Connected();
    }

    /** Over every run: a pending retry fires within its budget, the exhaustion
        of a budget is reported once, and a budget of which no pending retry is
        cancelled makes at most 27 attempts. */
    method Run(events: seq<Event>)
      requires Valid()
      modifies this
      ensures Valid()
      ensures timer.Some? ==> timer.value.due <= timer.value.start + BUDGET_MS
      ensures Distinct(exhausted)
      ensures !interrupted ==> attempt <= MAX_ATTEMPTS
      ensures !old(interrupted) && (forall e :: e in events ==> !e.Cancels?) ==> !interrupted
    {
      for i := 0 to |events|
        invariant Valid()
        invariant !old(interrupted) && (forall e :: e in events ==> !e.Cancels?) ==> !interrupted
      {
        assert events[i] in events;
        Step(events[i]);
      }
    }

    /** Without jitter or lateness all 27 attempts are made before exhaustion. */
    method UseUpBudget()
      requires Valid() && timer == None && !blocked && startedAt == 0
      modifies this
      ensures attempt == MAX_ATTEMPTS && blocked && exhausted == old(exhausted) + [epoch]
      ensures clock == old(clock) + BUDGET_MS
    {
      ghost var start := clock;
      for i := 0 to MAX_ATTEMPTS
        invariant Valid() && timer == None && !blocked && attempt == i && exhausted == old(exhausted)
        invariant startedAt == (if i == 0 then 0 else start) && clock - start == Min(BUDGET_MS, Pace(i))
      {
        PaceIs(MAX_ATTEMPTS - 1);
        PaceGrows(i, MAX_ATTEMPTS - 1);
        DelayBounds(i);
        Schedule(clock, 0, true);
        var _ := Fire(timer.value.due, true);
      }
      PaceIs(MAX_ATTEMPTS);
      Schedule(clock, 0, true);
    }

    /** Scheduling and cancelling in turn makes any number of attempts. */
    method CancelEachTime(n: nat)
      requires Valid() && timer == None && !blocked && startedAt == 0
      modifies this
      ensures attempt == n && !blocked && exhausted == old(exhausted)
      ensures n > 0 ==> interrupted
    {
      for i := 0 to n
        invariant Valid() && timer == None && !blocked && attempt == i && exhausted == old(exhausted)
        invariant startedAt == 0 || startedAt == clock
        invariant i > 0 ==> interrupted
      {
        Schedule(clock, 0, true);
        Cancel();
      }
    }
  }

  /** One more attempt keeps the pace, whatever the jitter. */
  lemma KeepsPace(n: nat, elapsed: int, delayMs: int)
    requires 0 <= elapsed < BUDGET_MS && (n > 0 ==> elapsed >= Min(BUDGET_MS, Pace(n)))
    requires delayMs >= Min(BaseDelay(n), BUDGET_MS - elapsed)
    ensures elapsed + delayMs >= Min(BUDGET_MS, Pace(n + 1)) && n + 1 <= MAX_ATTEMPTS
  {
    PaceBoundsAttempts(n);
  }
}
