/**
 SharedDocumentPoller of public/extension-document-polling.ts: one cadence and
 one read in flight per document, shared by subscribers and one-shot readers.
 Listeners may call back into the poller while they are notified.
 */
module DocumentPoller {
  import opened Common

  type SubscriptionId = nat
  type ReaderId = nat

  datatype Document = Document(content: int, revision: int)

  datatype Outcome = Resolved(document: Document) | Rejected

  datatype Settlement = Settlement(reader: ReaderId, outcome: Outcome)

  datatype Delivery = Delivery(subscription: SubscriptionId, revision: int)

  /** What code outside does with the poller. `initial` is what a new listener
      does when it is first called, and `throws` whether it then throws. */
  datatype Action =
    | Subscribe(initial: seq<Action>, throws: bool)
    | Unsubscribe(subscription: SubscriptionId)
    | ReadOnce(aborted: bool)
    | AbortReader(reader: ReaderId)
    | SetPaused(paused: bool)
    | Dispose

  datatype Event =
    | Act(action: Action)
    | TimerFires
    /** `reactions` is what the listeners do, one per notification. */
    | ReadResolves(next: Document, reactions: seq<seq<Action>>)
    | ReadRejects

  // ----- settlement

  predicate WasSettled(settled: seq<Settlement>, r: ReaderId) {
    exists i :: 0 <= i < |settled| && settled[i].reader == r
  }

  /** Every reader is pending, or was settled exactly once. */
  ghost predicate Accounted(readers: set<ReaderId>, settled: seq<Settlement>, next: nat) {
    && (forall i, j :: 0 <= i < j < |settled| ==> settled[i].reader != settled[j].reader)
    && forall r: ReaderId :: (r < next <==> r in readers || WasSettled(settled, r)) && !(r in readers && WasSettled(settled, r))
  }

  lemma SettledSnoc(settled: seq<Settlement>, s: Settlement)
    ensures forall r: ReaderId :: WasSettled(settled + [s], r) <==> WasSettled(settled, r) || r == s.reader
  {
    var all := settled + [s];
    assert all[|settled|] == s;
    forall r: ReaderId ensures WasSettled(all, r) <==> WasSettled(settled, r) || r == s.reader {
      if WasSettled(settled, r) {
        var i :| 0 <= i < |settled| && settled[i].reader == r;
        assert all[i].reader == r;
      }
      if WasSettled(all, r) {
        var i :| 0 <= i < |all| && all[i].reader == r;
        assert i < |settled| ==> settled[i].reader == r;
      }
    }
  }

  lemma SettleOne(readers: set<ReaderId>, settled: seq<Settlement>, next: nat, r: ReaderId, outcome: Outcome)
    requires Accounted(readers, settled, next) && r in readers
    ensures Accounted(readers - {r}, settled + [Settlement(r, outcome)], next)
  {
    SettledSnoc(settled, Settlement(r, outcome));
    forall i | 0 <= i < |settled| ensures settled[i].reader != r { assert WasSettled(settled, settled[i].reader); }
  }

  /** A reader that is settled as it is made, or that is added. */
  lemma NewReader(readers: set<ReaderId>, settled: seq<Settlement>, next: nat)
    requires Accounted(readers, settled, next)
    ensures Accounted(readers + {next}, settled, next + 1)
    ensures Accounted(readers, settled + [Settlement(next, Rejected)], next + 1)
  {
    SettleOne(readers + {next}, settled, next + 1, next, Rejected);
    assert readers + {next} - {next} == readers;
  }

  /** One settlement for each of the readers below `n`, oldest first. */
  function Settlements(readers: set<ReaderId>, n: nat, outcome: Outcome): seq<Settlement> {
    if n == 0 then [] else
    Settlements(readers, n - 1, outcome) + (if n - 1 in readers then [Settlement(n - 1, outcome)] else [])
  }

  lemma {:induction false} SettlementsExact(readers: set<ReaderId>, n: nat, outcome: Outcome)
    ensures var all := Settlements(readers, n, outcome);
            && (forall r: ReaderId :: r in readers && r < n <==> Settlement(r, outcome) in all)
            && (forall i :: 0 <= i < |all| ==> all[i].outcome == outcome && all[i].reader < n)
            && (forall i, j :: 0 <= i < j < |all| ==> all[i].reader < all[j].reader)
  {
    if n > 0 { SettlementsExact(readers, n - 1, outcome); }
  }

  /** What was settled from `from` on was rejected. */
  predicate RejectedFrom(settled: seq<Settlement>, from: nat) {
    forall i :: from <= i < |settled| ==> settled[i].outcome.Rejected?
  }

  /** Readers get documents whose revisions never decrease, none ahead of `revision`. */
  ghost predicate Answered(settled: seq<Settlement>, revision: int) {
    && (forall i, j :: 0 <= i < j < |settled| && settled[i].outcome.Resolved? && settled[j].outcome.Resolved?
          ==> settled[i].outcome.document.revision <= settled[j].outcome.document.revision)
    && (forall i :: 0 <= i < |settled| && settled[i].outcome.Resolved? ==> settled[i].outcome.document.revision <= revision)
  }

  lemma {:induction false} NoSettlements(n: nat, outcome: Outcome)
    ensures Settlements({}, n, outcome) == []
  {
    if n > 0 { NoSettlements(n - 1, outcome); }
  }

  lemma AnsweredAppend(settled: seq<Settlement>, readers: set<ReaderId>, n: nat, outcome: Outcome, revision: int)
    requires Answered(settled, revision) && (outcome.Resolved? ==> outcome.document.revision == revision)
    ensures Answered(settled + Settlements(readers, n, outcome), revision)
  {
    SettlementsExact(readers, n, outcome);
    var more := Settlements(readers, n, outcome);
    var all := settled + more;
    assert forall i :: 0 <= i < |all| ==> all[i] == if i < |settled| then settled[i] else more[i - |settled|];
  }

  lemma RejectedAppend(settled: seq<Settlement>, readers: set<ReaderId>, n: nat)
    ensures RejectedFrom(settled + Settlements(readers, n, Rejected), |settled|)
  {
    SettlementsExact(readers, n, Rejected);
    var more := Settlements(readers, n, Rejected);
    var all := settled + more;
    assert forall i :: |settled| <= i < |all| ==> all[i] == more[i - |settled|];
  }

  // ----- what listeners may take back

  /** The action, or one nested in it, gives up the reader. */
  predicate Withdraws(action: Action, r: ReaderId) {
    match action
    case Subscribe(initial, _) => exists i :: 0 <= i < |initial| && Withdraws(initial[i], r)
    case AbortReader(x) => x == r
    case Dispose => true
    case _ => false
  }

  predicate SomeWithdraws(actions: seq<Action>, r: ReaderId) {
    exists i :: 0 <= i < |actions| && Withdraws(actions[i], r)
  }

  /** The action, or one nested in it, gives up the subscription. */
  predicate Cancels(action: Action, s: SubscriptionId) {
    match action
    case Subscribe(initial, _) => exists i :: 0 <= i < |initial| && Cancels(initial[i], s)
    case Unsubscribe(x) => x == s
    case Dispose => true
    case _ => false
  }

  predicate SomeCancels(actions: seq<Action>, s: SubscriptionId) {
    exists i :: 0 <= i < |actions| && Cancels(actions[i], s)
  }

  /** No listener does anything. */
  predicate Silent(reactions: seq<seq<Action>>) {
    forall k :: 0 <= k < |reactions| ==> reactions[k] == []
  }

  predicate GivesUpReader(reactions: seq<seq<Action>>, r: ReaderId) {
    exists k :: 0 <= k < |reactions| && SomeWithdraws(reactions[k], r)
  }

  predicate GivesUpSubscription(reactions: seq<seq<Action>>, s: SubscriptionId) {
    exists k :: 0 <= k < |reactions| && SomeCancels(reactions[k], s)
  }

  // ----- deliveries

  /** One delivery to each of the subscriptions below `n`, oldest first. */
  function Round(subscribers: set<SubscriptionId>, n: nat, revision: int): seq<Delivery> {
    if n == 0 then [] else
    Round(subscribers, n - 1, revision) + (if n - 1 in subscribers then [Delivery(n - 1, revision)] else [])
  }

  lemma {:induction false} RoundExact(subscribers: set<SubscriptionId>, n: nat, revision: int)
    ensures var all := Round(subscribers, n, revision);
            && (forall s: SubscriptionId :: s in subscribers && s < n <==> Delivery(s, revision) in all)
            && (forall i :: 0 <= i < |all| ==> all[i].revision == revision && all[i].subscription < n)
            && (forall i, j :: 0 <= i < j < |all| ==> all[i].subscription < all[j].subscription)
  {
    if n > 0 { RoundExact(subscribers, n - 1, revision); }
  }

  /** The subscription was told of the revision from `from` on. */
  predicate Told(deliveries: seq<Delivery>, from: nat, s: SubscriptionId, revision: int) {
    exists i :: from <= i < |deliveries| && deliveries[i] == Delivery(s, revision)
  }

  lemma ToldLater(before: seq<Delivery>, after: seq<Delivery>, from: nat, s: SubscriptionId, revision: int)
    requires before <= after && Told(before, from, s, revision)
    ensures Told(after, from, s, revision)
  {
    var i :| from <= i < |before| && before[i] == Delivery(s, revision);
    assert after[i] == before[i];
  }

  /** Revisions never decrease from one delivery to the next, and none is ahead of `revision`. */
  ghost predicate InOrder(deliveries: seq<Delivery>, revision: int) {
    && (forall i, j :: 0 <= i < j < |deliveries| ==> deliveries[i].revision <= deliveries[j].revision)
    && (forall i :: 0 <= i < |deliveries| ==> deliveries[i].revision <= revision)
  }

  function Max(a: nat, b: nat): nat {
    if a >= b then a else b
  }

  function Power2(n: nat): nat {
    if n == 0 then 1 else 2 * Power2(n - 1)
  }

  /** How long the poller waits after that many failures in a row. */
  function Wait(intervalMs: nat, maxBackoffMs: nat, failures: nat): nat {
    var backoff := intervalMs * Power2(failures);
    if backoff <= maxBackoffMs then backoff else maxBackoffMs
  }

  /** The interval at first, and twice as long after each failure, up to the limit. */
  lemma WaitDoubles(intervalMs: nat, maxBackoffMs: nat, failures: nat)
    requires intervalMs <= maxBackoffMs
    ensures Wait(intervalMs, maxBackoffMs, 0) == intervalMs
    ensures var before, after := Wait(intervalMs, maxBackoffMs, failures), Wait(intervalMs, maxBackoffMs, failures + 1);
            after == if 2 * before <= maxBackoffMs then 2 * before else maxBackoffMs
  {
    assert Power2(failures + 1) == 2 * Power2(failures);
    assert intervalMs * Power2(failures + 1) == 2 * (intervalMs * Power2(failures));
  }

  class Poller {
    const intervalMs: nat
    const maxBackoffMs: nat
    var subscribers: set<SubscriptionId>
    var readers: set<ReaderId>
    /** Abort controllers are numbered; `controller` is the poller's, `reading` the one of the read in flight. */
    var controller: Option<nat>
    var reading: Option<nat>
    var aborted: set<nat>
    var timer: Option<nat>
    var paused: bool
    var disposed: bool
    var inFlight: bool
    var failures: nat
    var current: Document
    /** Counters for new objects, and what was delivered and settled so far. */
    var nextSubscription: nat
    var nextReader: nat
    var nextController: nat
    var deliveries: seq<Delivery>
    var settled: seq<Settlement>

    predicate HasConsumers()
      reads this
    {
      subscribers != {} || readers != {}
    }

    /** Something keeps the cadence going. */
    predicate Busy()
      reads this
    {
      timer.Some? || inFlight
    }

    ghost predicate Exclusive()
      reads this
    {
      && !(timer.Some? && inFlight) && (inFlight <==> reading.Some?)
      && (timer.Some? ==> timer.value <= maxBackoffMs && HasConsumers() && !paused && !disposed)
    }

    /** With a consumer, apart from those in `acquiring`, an active poller is busy. */
    ghost predicate Alive(acquiring: set<SubscriptionId>)
      reads this
    {
      (subscribers - acquiring != {} || readers != {}) && !paused && !disposed ==> Busy()
    }

    ghost predicate Tidy()
      reads this
    {
      && intervalMs <= maxBackoffMs
      && (forall s :: s in subscribers ==> s < nextSubscription)
      && (disposed ==> subscribers == {} && readers == {} && timer.None?)
      && Accounted(readers, settled, nextReader) && InOrder(deliveries, current.revision) && Answered(settled, current.revision)
    }

    ghost predicate ValidIn(acquiring: set<SubscriptionId>)
      reads this
    {
      Exclusive() && Alive(acquiring) && Tidy()
    }

    ghost predicate Valid()
      reads this
    {
      ValidIn({})
    }

    constructor (interval: nat, maxBackoff: nat)
      ensures Valid() && !disposed && !paused && subscribers == {} && readers == {} && !Busy() && failures == 0
      ensures intervalMs == (if interval < 250 then 250 else interval)
      ensures maxBackoffMs == if maxBackoff < intervalMs then intervalMs else maxBackoff
    {
      intervalMs := Max(250, interval);
      maxBackoffMs := Max(Max(250, interval), maxBackoff);
      subscribers, readers, controller, reading, aborted, timer := {}, {}, None, None, {}, None;
      paused, disposed, inFlight, failures, current := false, false, false, 0, Document(0, 0);
      nextSubscription, nextReader, nextController, deliveries, settled := 0, 0, 0, [], [];
    }

    // ----- stopping and scheduling

    method Abort()
      modifies `aborted
      ensures aborted == if controller.Some? then old(aborted) + {controller.value} else old(aborted)
    {
      if controller.Some? { aborted := aborted + {controller.value}; }
    }

    /** What stop aborts. */
    ghost function Controlled(): set<nat>
      reads this
    {
      if controller.Some? then {controller.value} else {}
    }

    method Stop()
      modifies `aborted, `timer, `controller
      ensures timer == None && controller == None && aborted == old(aborted) + old(Controlled())
    {
      timer := None;
      Abort();
      controller := None;
    }

    /** schedule: arms the timer if nothing else keeps the cadence. */
    method Schedule(delay: nat)
      requires Exclusive() && Tidy() && delay <= maxBackoffMs
      modifies `timer
      ensures Valid()
      ensures timer == if disposed || paused || inFlight || !HasConsumers() || old(timer).Some? then old(timer) else Some(delay)
    {
      if disposed || paused || inFlight || !HasConsumers() || timer.Some? { return; }
      timer := Some(delay);
    }

    // ----- consumers

    /** What code outside can do to settlements and deliveries: it adds to them,
        and settles readers only by rejecting them. */
    twostate predicate Grown()
      reads this
    {
      && nextSubscription >= old(nextSubscription) && nextReader >= old(nextReader)
      && old(settled) <= settled && RejectedFrom(settled, |old(settled)|) && old(deliveries) <= deliveries
    }

    /** Settles a pending reader. */
    method Settle(r: ReaderId, outcome: Outcome)
      requires Accounted(readers, settled, nextReader) && r in readers
      modifies `readers, `settled
      ensures Accounted(readers, settled, nextReader) && readers == old(readers) - {r}
      ensures settled == old(settled) + [Settlement(r, outcome)]
    {
      SettleOne(readers, settled, nextReader, r, outcome);
      readers := readers - {r};
      settled := settled + [Settlement(r, outcome)];
    }

    /** resolveReaders and rejectReaders: every pending reader gets the outcome. */
    method SettleAll(outcome: Outcome)
      requires Accounted(readers, settled, nextReader) && Answered(settled, current.revision)
      requires outcome.Resolved? ==> outcome.document == current
      modifies `readers, `settled
      ensures Accounted(readers, settled, nextReader) && readers == {} && Answered(settled, current.revision)
      ensures settled == old(settled) + Settlements(old(readers), nextReader, outcome)
    {
      for r := 0 to nextReader
        invariant Accounted(readers, settled, nextReader)
        invariant readers == set k | k in old(readers) && r <= k
        invariant settled == old(settled) + Settlements(old(readers), r, outcome)
      {
        if r in readers { Settle(r, outcome); }
      }
      assert forall k :: k in readers ==> k < nextReader;
      assert readers == {};
      AnsweredAppend(old(settled), old(readers), nextReader, outcome, current.revision);
    }

    /** What a consumer leaves behind. */
    method Release(ghost acquiring: set<SubscriptionId>)
      requires !(timer.Some? && inFlight) && (inFlight <==> reading.Some?) && Alive(acquiring) && Tidy()
      requires timer.Some? ==> timer.value <= maxBackoffMs && !paused && !disposed
      modifies `aborted, `timer, `controller
      ensures ValidIn(acquiring)
      ensures if HasConsumers() then timer == old(timer) && controller == old(controller) && aborted == old(aborted)
              else timer == None && controller == None && aborted == old(aborted) + old(Controlled())
    {
      if !HasConsumers() { Stop(); }
    }

    method DoReadOnce(isAborted: bool, ghost acquiring: set<SubscriptionId>) returns (reader: ReaderId)
      requires ValidIn(acquiring)
      modifies `readers, `settled, `nextReader, `timer
      ensures ValidIn(acquiring) && reader == old(nextReader) && nextReader == reader + 1
      ensures if disposed || isAborted then settled == old(settled) + [Settlement(reader, Rejected)] && readers == old(readers)
              else settled == old(settled) && readers == old(readers) + {reader}
      ensures !disposed && !isAborted && !paused && !inFlight && old(timer).None? ==> timer == Some(0)
      ensures Grown()
    {
      reader := nextReader;
      NewReader(readers, settled, nextReader);
      nextReader := nextReader + 1;
      if disposed || isAborted {
        settled := settled + [Settlement(reader, Rejected)];
      } else {
        readers := readers + {reader};
        Schedule(0);
      }
    }

    /** onAbort: registered as long as the reader is pending. */
    method DoAbortReader(r: ReaderId, ghost acquiring: set<SubscriptionId>)
      requires ValidIn(acquiring)
      modifies `readers, `settled, `aborted, `timer, `controller
      ensures ValidIn(acquiring) && r !in readers && readers == old(readers) - {r}
      ensures settled == if r in old(readers) then old(settled) + [Settlement(r, Rejected)] else old(settled)
      ensures Grown()
      ensures r in old(readers) && !HasConsumers() ==> controller == None && aborted == old(aborted) + old(Controlled())
    {
      if r in readers {
        Settle(r, Rejected);
        Release(acquiring);
      }
    }

    method DoUnsubscribe(s: SubscriptionId, ghost acquiring: set<SubscriptionId>)
      requires ValidIn(acquiring)
      modifies `subscribers, `aborted, `timer, `controller
      ensures ValidIn(acquiring) && subscribers == old(subscribers) - {s}
      ensures !HasConsumers() ==> controller == None && aborted == old(aborted) + old(Controlled())
    {
      subscribers := subscribers - {s};
      Release(acquiring);
    }

    /** Pausing aborts the read in flight; resuming polls at once. */
    method DoSetPaused(value: bool, ghost acquiring: set<SubscriptionId>)
      requires ValidIn(acquiring)
      modifies `paused, `timer, `aborted
      ensures ValidIn(acquiring) && paused == if disposed then old(paused) else value
      ensures !old(paused) && paused ==> timer == None && aborted == old(aborted) + Controlled()
      ensures old(paused) && !paused && HasConsumers() && !inFlight ==> timer == Some(0)
      ensures old(paused) || !paused ==> aborted == old(aborted)
    {
      if disposed || paused == value { return; }
      paused := value;
      if paused {
        timer := None;
        Abort();
      } else if HasConsumers() {
        Schedule(0);
      }
    }

    method DoDispose(ghost acquiring: set<SubscriptionId>)
      requires ValidIn(acquiring)
      modifies `disposed, `subscribers, `readers, `settled, `aborted, `timer, `controller
      ensures ValidIn(acquiring) && disposed && subscribers == {} && readers == {}
      ensures Grown() && settled == old(settled) + Settlements(old(readers), nextReader, Rejected)
      ensures !old(disposed) ==> controller == None && aborted == old(aborted) + old(Controlled())
    {
      if disposed {
        NoSettlements(nextReader, Rejected);
      } else {
        Empty();
        Stop();
      }
    }

    /** dispose, before it stops. */
    method Empty()
      requires Tidy()
      modifies `disposed, `subscribers, `readers, `settled
      ensures disposed && subscribers == {} && readers == {} && Grown()
      ensures Accounted(readers, settled, nextReader) && Answered(settled, current.revision)
      ensures settled == old(settled) + Settlements(old(readers), nextReader, Rejected)
    {
      RejectedAppend(settled, readers, nextReader);
      disposed := true;
      subscribers := {};
      SettleAll(Rejected);
    }

    method Deliver(s: SubscriptionId)
      requires InOrder(deliveries, current.revision)
      modifies `deliveries
      ensures InOrder(deliveries, current.revision) && deliveries == old(deliveries) + [Delivery(s, current.revision)]
    {
      deliveries := deliveries + [Delivery(s, current.revision)];
    }

    // ----- calls from outside and from listeners

    /** What runs during a delivery leaves alone. */
    ghost predicate Kept(flight: bool, read: Option<nat>, document: Document, failed: nat)
      reads this
    {
      inFlight == flight && reading == read && current == document && failures == failed
    }

    /** subscribe: the listener is called at once, and may call back before the poll is scheduled. */
    method DoSubscribe(initial: seq<Action>, throws: bool, ghost acquiring: set<SubscriptionId>)
      requires ValidIn(acquiring) && forall a :: a in acquiring ==> a < nextSubscription
      modifies this
      ensures ValidIn(acquiring) && Kept(old(inFlight), old(reading), old(current), old(failures)) && Grown()
      ensures forall r :: r in old(readers) && !SomeWithdraws(initial, r) ==> r in readers
      ensures forall s :: s in old(subscribers) && !SomeCancels(initial, s) ==> s in subscribers
      ensures var s := old(nextSubscription);
              if old(disposed) then deliveries == old(deliveries) && subscribers == old(subscribers)
              else old(deliveries) + [Delivery(s, current.revision)] <= deliveries
                   && (throws ==> s !in subscribers) && (!throws && !SomeCancels(initial, s) ==> s in subscribers)
      decreases initial, 1
    {
      if disposed { return; }
      var s := BeginSubscribe(acquiring);
      Perform(initial, acquiring + {s});
      EndSubscribe(s, throws, acquiring);
    }

    method BeginSubscribe(ghost acquiring: set<SubscriptionId>) returns (s: SubscriptionId)
      requires ValidIn(acquiring) && !disposed
      modifies `nextSubscription, `subscribers, `deliveries
      ensures s == old(nextSubscription) && nextSubscription == s + 1 && subscribers == old(subscribers) + {s}
      ensures ValidIn(acquiring + {s}) && deliveries == old(deliveries) + [Delivery(s, current.revision)]
    {
      s := nextSubscription;
      nextSubscription := nextSubscription + 1;
      subscribers := subscribers + {s};
      Deliver(s);
      assert subscribers - (acquiring + {s}) == old(subscribers) - acquiring;
    }

    /** The subscription stays, unless its listener threw. */
    method EndSubscribe(s: SubscriptionId, throws: bool, ghost acquiring: set<SubscriptionId>)
      requires ValidIn(acquiring + {s})
      modifies `subscribers, `aborted, `timer, `controller
      ensures ValidIn(acquiring) && subscribers == if throws then old(subscribers) - {s} else old(subscribers)
      ensures !throws && HasConsumers() && !paused && !disposed && !inFlight && old(timer).None? ==> timer == Some(0)
    {
      if throws {
        assert subscribers - {s} - acquiring == subscribers - (acquiring + {s});
        subscribers := subscribers - {s};
        Release(acquiring);
      } else {
        Schedule(0);
      }
    }

    method PerformOne(action: Action, ghost acquiring: set<SubscriptionId>)
      requires ValidIn(acquiring) && forall a :: a in acquiring ==> a < nextSubscription
      modifies this
      ensures ValidIn(acquiring) && Kept(old(inFlight), old(reading), old(current), old(failures)) && Grown()
      ensures forall r :: r in old(readers) && !Withdraws(action, r) ==> r in readers
      ensures forall s :: s in old(subscribers) && !Cancels(action, s) ==> s in subscribers
      ensures action == Dispose ==> disposed
      decreases action
    {
      match action
      case Subscribe(initial, throws) => DoSubscribe(initial, throws, acquiring);
      case Unsubscribe(s) => DoUnsubscribe(s, acquiring);
      case SetPaused(value) => DoSetPaused(value, acquiring);
      case Dispose => DoDispose(acquiring);
      case _ => PerformReading(action, acquiring);
    }

    method PerformReading(action: Action, ghost acquiring: set<SubscriptionId>)
      requires ValidIn(acquiring) && (action.ReadOnce? || action.AbortReader?)
      modifies `readers, `settled, `nextReader, `timer, `aborted, `controller
      ensures ValidIn(acquiring) && Grown()
      ensures forall r :: r in old(readers) && !Withdraws(action, r) ==> r in readers
    {
      match action
      case ReadOnce(isAborted) => var _ := DoReadOnce(isAborted, acquiring);
      case AbortReader(r) => DoAbortReader(r, acquiring);
    }

    method Perform(actions: seq<Action>, ghost acquiring: set<SubscriptionId>)
      requires ValidIn(acquiring) && forall a :: a in acquiring ==> a < nextSubscription
      modifies this
      ensures ValidIn(acquiring) && Kept(old(inFlight), old(reading), old(current), old(failures)) && Grown()
      ensures forall r :: r in old(readers) && !SomeWithdraws(actions, r) ==> r in readers
      ensures forall s :: s in old(subscribers) && !SomeCancels(actions, s) ==> s in subscribers
      ensures actions == [] ==> unchanged(this)
      decreases actions, 0
    {
      for i := 0 to |actions|
        invariant ValidIn(acquiring) && Kept(old(inFlight), old(reading), old(current), old(failures)) && Grown()
        invariant forall r :: r in old(readers) && !SomeWithdraws(actions, r) ==> r in readers
        invariant forall s :: s in old(subscribers) && !SomeCancels(actions, s) ==> s in subscribers
        invariant i == 0 ==> unchanged(this)
      {
        PerformOne(actions[i], acquiring);
      }
    }

    // ----- polling

    /** The timer fires: the read starts. */
    method FireTimer()
      requires Valid() && timer.Some?
      modifies `timer, `inFlight, `controller, `reading, `nextController
      ensures Valid() && timer == None && inFlight && reading == controller == Some(old(nextController))
    {
      timer := None;
      if disposed || paused || inFlight || !HasConsumers() { return; }
      inFlight := true;
      controller, reading := Some(nextController), Some(nextController);
      nextController := nextController + 1;
    }

    /** One listener is called. */
    method Tell(s: SubscriptionId, actions: seq<Action>)
      requires Valid()
      modifies this
      ensures Valid() && Kept(old(inFlight), old(reading), old(current), old(failures)) && Grown()
      ensures old(deliveries) + [Delivery(s, current.revision)] <= deliveries
      ensures forall r :: r in old(readers) && !SomeWithdraws(actions, r) ==> r in readers
      ensures forall x :: x in old(subscribers) && !SomeCancels(actions, x) ==> x in subscribers
      ensures actions == [] ==>
                && deliveries == old(deliveries) + [Delivery(s, current.revision)] && nextSubscription == old(nextSubscription)
                && readers == old(readers) && settled == old(settled) && subscribers == old(subscribers)
    {
      Deliver(s);
      Perform(actions, {});
    }

    /** The loop over the subscribers, which may grow and shrink meanwhile. */
    method Notify(reactions: seq<seq<Action>>)
      requires Valid() && inFlight
      modifies this
      ensures Valid() && Kept(true, old(reading), old(current), old(failures)) && Grown()
      ensures forall r :: r in old(readers) && !GivesUpReader(reactions, r) ==> r in readers
      ensures forall s :: s in old(subscribers) && !GivesUpSubscription(reactions, s) ==>
                s in subscribers && Told(deliveries, |old(deliveries)|, s, current.revision)
      ensures Silent(reactions) ==>
                readers == old(readers) && settled == old(settled) && subscribers == old(subscribers)
                && deliveries == old(deliveries) + Round(subscribers, nextSubscription, current.revision)
    {
      var s, done := 0, 0;
      while s < nextSubscription
        invariant Valid() && Kept(true, old(reading), old(current), old(failures)) && Grown()
        invariant s <= nextSubscription && done <= |reactions|
        invariant forall r :: r in old(readers) && !GivesUpReader(reactions, r) ==> r in readers
        invariant forall x :: x in old(subscribers) && !GivesUpSubscription(reactions, x) ==> x in subscribers
        invariant forall x :: x in old(subscribers) && !GivesUpSubscription(reactions, x) && x < s ==>
                    Told(deliveries, |old(deliveries)|, x, current.revision)
        invariant Silent(reactions) ==>
                    readers == old(readers) && settled == old(settled) && subscribers == old(subscribers)
                    && nextSubscription == old(nextSubscription)
                    && deliveries == old(deliveries) + Round(subscribers, s, current.revision)
        decreases |reactions| - done, nextSubscription - s
      {
        if s in subscribers {
          ghost var before := deliveries;
          var reaction := if done < |reactions| then reactions[done] else [];
          Tell(s, reaction);
          if done < |reactions| { done := done + 1; }
          assert deliveries[|before|] == Delivery(s, current.revision);
          forall x: SubscriptionId | x < s && Told(before, |old(deliveries)|, x, current.revision)
            ensures Told(deliveries, |old(deliveries)|, x, current.revision)
          {
            ToldLater(before, deliveries, |old(deliveries)|, x, current.revision);
          }
        }
        s := s + 1;
      }
    }

    /** The end of poll, whatever came of the read. */
    method FinishPoll()
      requires Exclusive() && Tidy() && inFlight
      modifies `controller, `inFlight, `reading, `timer
      ensures Valid() && !inFlight && controller == if old(controller) == old(reading) then None else old(controller)
      ensures timer == if HasConsumers() && !paused && !disposed then Some(Wait(intervalMs, maxBackoffMs, failures)) else None
    {
      if controller == reading { controller := None; }
      inFlight, reading := false, None;
      Schedule(Wait(intervalMs, maxBackoffMs, failures));
    }

    /** What poll does with a document: listeners are told, then readers. What
        listeners did to settle readers is `taken`, and `served` are the readers
        that get the document. */
    method Publish(reactions: seq<seq<Action>>) returns (ghost taken: seq<Settlement>, ghost served: set<ReaderId>)
      requires Valid() && inFlight
      modifies this
      ensures Exclusive() && Tidy() && Kept(true, old(reading), old(current), old(failures)) && readers == {}
      ensures settled == old(settled) + taken + Settlements(served, nextReader, Resolved(current)) && RejectedFrom(taken, 0)
      ensures forall r :: r in old(readers) && !GivesUpReader(reactions, r) ==> r in served
      ensures forall s :: s in old(subscribers) && !GivesUpSubscription(reactions, s) ==>
                Told(deliveries, |old(deliveries)|, s, current.revision)
      ensures old(deliveries) <= deliveries
      ensures Silent(reactions) ==>
                && taken == [] && served == old(readers)
                && deliveries == old(deliveries) + Round(subscribers, nextSubscription, current.revision)
    {
      Notify(reactions);
      taken, served := settled[|old(settled)|..], readers;
      assert settled == old(settled) + taken;
      SettleAll(Resolved(current));
    }

    /** The read resolves: an older revision never replaces the current one. */
    method ResolveRead(next: Document, reactions: seq<seq<Action>>)
      returns (ghost taken: seq<Settlement>, ghost served: set<ReaderId>)
      requires Valid() && inFlight
      modifies this
      ensures Valid() && !inFlight && current.revision >= old(current.revision) && old(settled) <= settled
      ensures !old(disposed) && !old(paused) && old(controller) == old(reading) ==>
                && failures == 0 && current == (if next.revision >= old(current.revision) then next else old(current))
                && readers == {} && RejectedFrom(taken, 0)
                && settled == old(settled) + taken + Settlements(served, nextReader, Resolved(current))
                && (forall r :: r in old(readers) && !GivesUpReader(reactions, r) ==> r in served)
                && (forall s :: s in old(subscribers) && !GivesUpSubscription(reactions, s) ==>
                      Told(deliveries, |old(deliveries)|, s, current.revision))
                && (Silent(reactions) ==>
                      && taken == [] && served == old(readers)
                      && deliveries == old(deliveries) + Round(subscribers, nextSubscription, current.revision))
      ensures old(disposed) || old(paused) || old(controller) != old(reading) ==>
                current == old(current) && settled == old(settled) && deliveries == old(deliveries) && failures == old(failures)
      ensures timer == if HasConsumers() && !paused && !disposed then Some(Wait(intervalMs, maxBackoffMs, failures)) else None
    {
      taken, served := [], {};
      if !(disposed || paused || controller != reading) {
        failures := 0;
        if next.revision >= current.revision { current := next; }
        taken, served := Publish(reactions);
      }
      FinishPoll();
    }

    /** The read rejects, of itself or because it was aborted. */
    method RejectRead()
      requires Valid() && inFlight
      modifies this
      ensures Valid() && !inFlight && current == old(current) && deliveries == old(deliveries) && subscribers == old(subscribers)
      ensures !old(disposed) && old(reading).value !in old(aborted) ==>
                && readers == {} && settled == old(settled) + Settlements(old(readers), nextReader, Rejected)
                && failures == if old(failures) < 8 then old(failures) + 1 else 8
      ensures old(disposed) || old(reading).value in old(aborted) ==>
                settled == old(settled) && readers == old(readers) && failures == old(failures)
      ensures timer == if HasConsumers() && !paused && !disposed then Some(Wait(intervalMs, maxBackoffMs, failures)) else None
    {
      if !disposed && reading.value !in aborted {
        failures := if failures < 8 then failures + 1 else 8;
        SettleAll(Rejected);
      }
      FinishPoll();
    }

    /** One event of the interleaving. */
    method Step(event: Event)
      requires Valid()
      modifies this
      ensures Valid() && old(settled) <= settled && current.revision >= old(current.revision)
      ensures event == Act(Dispose) ==> disposed && readers == {}
    {
      match event
      case Act(action) => PerformOne(action, {});
      case TimerFires => if timer.Some? { FireTimer(); }
      case ReadResolves(next, reactions) => if inFlight { var _, _ := ResolveRead(next, reactions); }
      case ReadRejects => if inFlight { RejectRead(); }
    }

    /** Over every interleaving: never a timer and a read together, one of them
        whenever an active poller has a consumer, every reader settled at most
        once and none pending after dispose, and revisions that never decrease. */
    method Run(events: seq<Event>)
      requires Valid()
      modifies this
      ensures !(timer.Some? && inFlight)
      ensures HasConsumers() && !paused && !disposed ==> timer.Some? || inFlight
      ensures Accounted(readers, settled, nextReader) && (disposed ==> readers == {})
      ensures InOrder(deliveries, current.revision) && Answered(settled, current.revision)
    {
      for i := 0 to |events|
        invariant Valid()
      {
        Step(events[i]);
      }
    }
  }
}
