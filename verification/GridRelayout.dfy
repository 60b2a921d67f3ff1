/**
 The relayout transition of public/app-grid.ts: fits are scheduled on animation
 frames, superseded and cancelled, and callers wait for their settlement.
 A settlement callback may schedule or cancel a transition itself.
 */
module GridRelayout {
  import opened Common
  import opened Sequences

  type Session = nat
  type Callback = nat
  type TransitionId = nat

  datatype Outcome = Acknowledged | Cancelled

  /** A callback that was run: with what, and by which transition. */
  datatype Run = Run(callback: Callback, acknowledged: bool, source: TransitionId)

  /** The ordered resizes of a transition, once they have settled. */
  datatype Resizes = Waiting(count: nat) | Settled(outcomes: seq<Outcome>)

  /** What callers and callbacks do. `reactions` is what the callbacks do that
      the cancellation settles, in turn. */
  datatype Action =
    | Schedule(concealed: set<Session>, onSettled: Option<Callback>)
    | Cancel(reactions: seq<Script>)

  /** What one callback does. */
  datatype Script = Script(actions: seq<Action>)

  /** The frames and promises of the browser. `active` tells whether any active
      session is left, `ordered` how many cells resize in order. */
  datatype Event =
    | Act(action: Action)
    | FitFrame(active: bool, ordered: nat, reactions: seq<Script>)
    | ResizesSettle(id: TransitionId, outcomes: seq<Outcome>, reactions: seq<Script>)
    | RevealFrame(reactions: seq<Script>)

  function CallbacksOf(runs: seq<Run>): (r: seq<Callback>)
    ensures |r| == |runs| && forall i :: 0 <= i < |r| ==> r[i] == runs[i].callback
  {
    seq(|runs|, i requires 0 <= i < |runs| => runs[i].callback)
  }

  lemma CallbacksSnoc(runs: seq<Run>, r: Run)
    ensures CallbacksOf(runs + [r]) == CallbacksOf(runs) + [r.callback]
  {
  }

  /** A callback ran after the first `since` runs. */
  predicate RanSince(runs: seq<Run>, since: nat, r: Run) {
    exists i :: since <= i < |runs| && runs[i] == r
  }

  /** Every callback of a list ran, with one outcome and from one transition. */
  ghost predicate AllRan(runs: seq<Run>, since: nat, list: seq<Callback>, acknowledged: bool, source: TransitionId) {
    forall k :: 0 <= k < |list| ==> RanSince(runs, since, Run(list[k], acknowledged, source))
  }

  /** The callbacks of a list, run in turn. */
  function RunsOf(list: seq<Callback>, acknowledged: bool, source: TransitionId): (r: seq<Run>)
    ensures |r| == |list| && forall k :: 0 <= k < |list| ==> r[k] == Run(list[k], acknowledged, source)
  {
    seq(|list|, k requires 0 <= k < |list| => Run(list[k], acknowledged, source))
  }

  /** Since then, nothing ran but a list, in turn. */
  predicate RanInTurn(runs: seq<Run>, since: nat, list: seq<Callback>, acknowledged: bool, source: TransitionId) {
    since <= |runs| && runs[since..] == RunsOf(list, acknowledged, source)
  }

  lemma OneMoreInTurn(runs: seq<Run>, since: nat, list: seq<Callback>, i: nat, acknowledged: bool, source: TransitionId)
    requires i < |list| && RanInTurn(runs, since, list[..i], acknowledged, source)
    ensures RanInTurn(runs + [Run(list[i], acknowledged, source)], since, list[..i + 1], acknowledged, source)
  {
    var r := Run(list[i], acknowledged, source);
    assert (runs + [r])[since..] == runs[since..] + [r];
    assert RunsOf(list[..i + 1], acknowledged, source) == RunsOf(list[..i], acknowledged, source) + [r];
  }

  lemma OneMoreRan(before: seq<Run>, runs: seq<Run>, since: nat, list: seq<Callback>, i: nat, acknowledged: bool, source: TransitionId)
    requires i < |list| && since <= |before| && before + [Run(list[i], acknowledged, source)] <= runs
    requires AllRan(before, since, list[..i], acknowledged, source)
    ensures AllRan(runs, since, list[..i + 1], acknowledged, source)
  {
    var part := list[..i + 1];
    forall k | 0 <= k < |part| ensures RanSince(runs, since, Run(part[k], acknowledged, source)) {
      if k == i {
        assert runs[|before|] == Run(list[i], acknowledged, source);
      } else {
        assert RanSince(before, since, Run(list[..i][k], acknowledged, source));
        var j :| since <= j < |before| && before[j] == Run(list[k], acknowledged, source);
        assert runs[j] == before[j];
      }
    }
  }

  lemma InHandSplit(list: seq<Callback>, i: nat, inHand: multiset<Callback>)
    requires i < |list|
    ensures inHand + multiset(list[i..]) == inHand + multiset(list[i + 1..]) + multiset{list[i]}
  {
    assert list[i..] == [list[i]] + list[i + 1..];
  }

  predicate AllAcknowledged(outcomes: seq<Outcome>) {
    forall i :: 0 <= i < |outcomes| ==> outcomes[i] == Acknowledged
  }

  /** All ordered resizes of the transition were acknowledged. */
  predicate Clean(resizes: map<TransitionId, Resizes>, id: TransitionId) {
    id in resizes && resizes[id].Settled? && AllAcknowledged(resizes[id].outcomes)
  }

  /** A registration that joins the waiting callbacks. */
  function NewIn(callbacks: seq<Callback>, onSettled: Option<Callback>): seq<Callback> {
    if onSettled.Some? && onSettled.value !in callbacks then [onSettled.value] else []
  }

  /** A registration that the set of waiting callbacks merges. */
  function AlreadyIn(callbacks: seq<Callback>, onSettled: Option<Callback>): seq<Callback> {
    if onSettled.Some? && onSettled.value in callbacks then [onSettled.value] else []
  }

  class Relayout {
    var transitionId: TransitionId
    /** The pending fit frame, and the pending reveal frame: first or second. */
    var fit: Option<TransitionId>
    var repaint: Option<TransitionId>
    var repainted: bool
    var hidden: set<Session>
    /** The waiting callbacks: a set, in the order they were added. */
    var callbacks: seq<Callback>
    /** Each transition's ordered resizes, and the transitions that reached the reveal step. */
    var resizes: map<TransitionId, Resizes>
    var reached: set<TransitionId>
    /** Transitions that found no active session. */
    var abandoned: set<TransitionId>
    /** Registrations that were added, those merged with a waiting one, and the callbacks run. */
    var added: seq<Callback>
    var merged: seq<Callback>
    var runs: seq<Run>

    /** Every added registration has run, is waiting, or is in the hands of a running settlement. */
    ghost predicate Balanced(inHand: multiset<Callback>)
      reads this
    {
      multiset(CallbacksOf(runs)) + multiset(callbacks) + inHand == multiset(added)
    }

    /** The current transition has something left to do. */
    predicate Unfinished()
      reads this
    {
      fit.Some? || repaint.Some? || (transitionId in resizes && resizes[transitionId].Waiting?)
    }

    /** Waiting callbacks are owned by the current, unfinished transition. */
    ghost predicate Owned()
      reads this
    {
      callbacks != [] ==> Unfinished()
    }

    ghost predicate Current()
      reads this
    {
      && Distinct(callbacks)
      && (fit.Some? ==> fit.value == transitionId && transitionId !in resizes)
      && (repaint.Some? ==> repaint.value == transitionId && transitionId in reached)
      && (forall id :: id in resizes ==> id <= transitionId)
    }

    /** Only clean transitions reach the reveal step, and only they, or
        transitions without active sessions, settle with true. */
    ghost predicate Honest()
      reads this
    {
      && (forall id :: id in reached ==> Clean(resizes, id))
      && (forall i :: 0 <= i < |runs| && runs[i].acknowledged ==> runs[i].source in reached || runs[i].source in abandoned)
    }

    ghost predicate ValidIn(inHand: multiset<Callback>)
      reads this
    {
      Balanced(inHand) && Current() && Honest() && Owned()
    }

    ghost predicate Valid()
      reads this
    {
      ValidIn(multiset{})
    }

    constructor ()
      ensures Valid() && callbacks == [] && runs == [] && added == [] && merged == []
    {
      transitionId, fit, repaint, repainted, hidden, callbacks := 0, None, None, false, {}, [];
      resizes, reached, abandoned, added, merged, runs := map[], {}, {}, [], [], [];
    }

    // ----- settling

    method RunOne(c: Callback, acknowledged: bool, source: TransitionId, ghost inHand: multiset<Callback>)
      requires ValidIn(inHand + multiset{c}) && (acknowledged ==> source in reached || source in abandoned)
      modifies `runs
      ensures ValidIn(inHand) && runs == old(runs) + [Run(c, acknowledged, source)]
    {
      CallbacksSnoc(runs, Run(c, acknowledged, source));
      runs := runs + [Run(c, acknowledged, source)];
    }

    /** Runs a callback, which may act on the grid in turn. */
    method RunCallback(c: Callback, acknowledged: bool, source: TransitionId, script: Script, ghost inHand: multiset<Callback>)
      requires ValidIn(inHand + multiset{c}) && (acknowledged ==> source in reached || source in abandoned)
      modifies this
      ensures ValidIn(inHand) && Grows(old(runs), old(reached), old(abandoned), old(added), old(merged))
      ensures old(runs) + [Run(c, acknowledged, source)] <= runs
      ensures script.actions == [] ==> Unmoved(old(callbacks), old(hidden), old(transitionId), old(fit), old(repaint), old(resizes), old(reached))
      decreases script, 1
    {
      RunOne(c, acknowledged, source, inHand);
      Perform(script.actions, inHand);
    }

    ghost predicate Unmoved(callbacks0: seq<Callback>, hidden0: set<Session>, id0: TransitionId, fit0: Option<TransitionId>,
                            repaint0: Option<TransitionId>, resizes0: map<TransitionId, Resizes>, reached0: set<TransitionId>)
      reads this
    {
      && callbacks == callbacks0 && hidden == hidden0 && transitionId == id0
      && fit == fit0 && repaint == repaint0 && resizes == resizes0 && reached == reached0
    }

    /** One callback of a settlement. */
    method RunAt(list: seq<Callback>, i: nat, acknowledged: bool, source: TransitionId, reactions: seq<Script>, ghost inHand: multiset<Callback>)
      requires i < |list| && ValidIn(inHand + multiset(list[i..])) && (acknowledged ==> source in reached || source in abandoned)
      modifies this
      ensures ValidIn(inHand + multiset(list[i + 1..])) && Grows(old(runs), old(reached), old(abandoned), old(added), old(merged))
      ensures old(runs) + [Run(list[i], acknowledged, source)] <= runs
      ensures reactions == [] ==> Unmoved(old(callbacks), old(hidden), old(transitionId), old(fit), old(repaint), old(resizes), old(reached))
      ensures reactions == [] ==> runs == old(runs) + [Run(list[i], acknowledged, source)]
      decreases reactions, 1
    {
      InHandSplit(list, i, inHand);
      if i < |reactions| {
        RunCallback(list[i], acknowledged, source, reactions[i], inHand + multiset(list[i + 1..]));
      } else {
        RunOne(list[i], acknowledged, source, inHand + multiset(list[i + 1..]));
      }
    }

    /** One more callback of the list has run. */
    method RunNext(list: seq<Callback>, i: nat, acknowledged: bool, source: TransitionId, reactions: seq<Script>, ghost inHand: multiset<Callback>,
                   ghost since: nat)
      requires i < |list| && ValidIn(inHand + multiset(list[i..])) && (acknowledged ==> source in reached || source in abandoned)
      requires since <= |runs| && AllRan(runs, since, list[..i], acknowledged, source)
      modifies this
      ensures ValidIn(inHand + multiset(list[i + 1..])) && Grows(old(runs), old(reached), old(abandoned), old(added), old(merged))
      ensures AllRan(runs, since, list[..i + 1], acknowledged, source)
      ensures reactions == [] ==> Unmoved(old(callbacks), old(hidden), old(transitionId), old(fit), old(repaint), old(resizes), old(reached))
      ensures reactions == [] && RanInTurn(old(runs), since, list[..i], acknowledged, source) ==>
                RanInTurn(runs, since, list[..i + 1], acknowledged, source)
      decreases reactions, 2
    {
      RunAt(list, i, acknowledged, source, reactions, inHand);
      OneMoreRan(old(runs), runs, since, list, i, acknowledged, source);
      if RanInTurn(old(runs), since, list[..i], acknowledged, source) { OneMoreInTurn(old(runs), since, list, i, acknowledged, source); }
    }

    /** settleGridRelayout: ownership is released before the callbacks run. */
    method Settle(acknowledged: bool, source: TransitionId, reactions: seq<Script>, ghost inHand: multiset<Callback>)
      requires Balanced(inHand) && Current() && Honest() && (acknowledged ==> source in reached || source in abandoned)
      modifies this
      ensures ValidIn(inHand) && Grows(old(runs), old(reached), old(abandoned), old(added), old(merged))
      ensures AllRan(runs, |old(runs)|, old(callbacks), acknowledged, source)
      ensures reactions == [] ==>
                && Unmoved([], old(hidden), old(transitionId), old(fit), old(repaint), old(resizes), old(reached))
                && RanInTurn(runs, |old(runs)|, old(callbacks), acknowledged, source)
      decreases reactions, 4
    {
      var list := callbacks;
      callbacks := [];
      RunAll(list, acknowledged, source, reactions, inHand);
    }

    method RunAll(list: seq<Callback>, acknowledged: bool, source: TransitionId, reactions: seq<Script>, ghost inHand: multiset<Callback>)
      requires ValidIn(inHand + multiset(list)) && (acknowledged ==> source in reached || source in abandoned)
      modifies this
      ensures ValidIn(inHand) && Grows(old(runs), old(reached), old(abandoned), old(added), old(merged))
      ensures AllRan(runs, |old(runs)|, list, acknowledged, source)
      ensures reactions == [] ==>
                && Unmoved(old(callbacks), old(hidden), old(transitionId), old(fit), old(repaint), old(resizes), old(reached))
                && RanInTurn(runs, |old(runs)|, list, acknowledged, source)
      decreases reactions, 3
    {
      assert list[0..] == list;
      for i := 0 to |list|
        invariant ValidIn(inHand + multiset(list[i..])) && AllRan(runs, |old(runs)|, list[..i], acknowledged, source)
        invariant Grows(old(runs), old(reached), old(abandoned), old(added), old(merged))
        invariant reactions == [] ==>
                    && Unmoved(old(callbacks), old(hidden), old(transitionId), old(fit), old(repaint), old(resizes), old(reached))
                    && RanInTurn(runs, |old(runs)|, list[..i], acknowledged, source)
      {
        RunNext(list, i, acknowledged, source, reactions, inHand, |old(runs)|);
      }
      assert list[|list|..] == [] && list[..|list|] == list;
    }

    /** Nothing that happened is undone. */
    ghost predicate Grows(runs0: seq<Run>, reached0: set<TransitionId>, abandoned0: set<TransitionId>, added0: seq<Callback>, merged0: seq<Callback>)
      reads this
    {
      runs0 <= runs && reached0 <= reached && abandoned0 <= abandoned && added0 <= added && merged0 <= merged
    }

    // ----- scheduling and cancelling

    /** Adds a callback to the waiting set. */
    method Register(onSettled: Option<Callback>, ghost inHand: multiset<Callback>)
      requires Balanced(inHand) && Distinct(callbacks)
      modifies `callbacks, `added, `merged
      ensures Balanced(inHand) && Distinct(callbacks)
      ensures callbacks == old(callbacks) + NewIn(old(callbacks), onSettled)
      ensures added == old(added) + NewIn(old(callbacks), onSettled) && merged == old(merged) + AlreadyIn(old(callbacks), onSettled)
    {
      if onSettled.None? { return; }
      if onSettled.value in callbacks {
        merged := merged + [onSettled.value];
      } else {
        callbacks := callbacks + [onSettled.value];
        added := added + [onSettled.value];
      }
    }

    /** scheduleGridRelayoutFit: the new transition inherits the waiting callbacks. */
    method DoSchedule(concealed: set<Session>, onSettled: Option<Callback>, ghost inHand: multiset<Callback>)
      requires ValidIn(inHand)
      modifies `callbacks, `added, `merged, `repaint, `hidden, `transitionId, `fit
      ensures ValidIn(inHand) && fit == Some(transitionId) && repaint == None && transitionId == old(transitionId) + 1
      ensures hidden == old(hidden) + concealed && callbacks == old(callbacks) + NewIn(old(callbacks), onSettled)
      ensures added == old(added) + NewIn(old(callbacks), onSettled) && merged == old(merged) + AlreadyIn(old(callbacks), onSettled)
    {
      Register(onSettled, inHand);
      StartTransition(concealed, inHand);
    }

    method StartTransition(concealed: set<Session>, ghost inHand: multiset<Callback>)
      requires Balanced(inHand) && Current() && Honest()
      modifies `repaint, `hidden, `transitionId, `fit
      ensures ValidIn(inHand) && fit == Some(transitionId) && repaint == None && transitionId == old(transitionId) + 1
      ensures hidden == old(hidden) + concealed
    {
      repaint := None;
      hidden := hidden + concealed;
      transitionId := transitionId + 1;
      fit := Some(transitionId);
    }

    /** cancelGridRelayoutTransition. */
    method DoCancel(reactions: seq<Script>, ghost inHand: multiset<Callback>)
      requires ValidIn(inHand)
      modifies this
      ensures ValidIn(inHand) && AllRan(runs, |old(runs)|, old(callbacks), false, old(transitionId))
      ensures Grows(old(runs), old(reached), old(abandoned), old(added), old(merged))
      ensures reactions == [] ==>
                && callbacks == [] && hidden == {} && !Unfinished() && transitionId == old(transitionId) + 1
                && RanInTurn(runs, |old(runs)|, old(callbacks), false, old(transitionId))
      decreases reactions, 5
    {
      var cancelled := transitionId;
      transitionId := transitionId + 1;
      fit, repaint, hidden := None, None, {};
      Settle(false, cancelled, reactions, inHand);
    }

    method Perform(actions: seq<Action>, ghost inHand: multiset<Callback>)
      requires ValidIn(inHand)
      modifies this
      ensures ValidIn(inHand) && Grows(old(runs), old(reached), old(abandoned), old(added), old(merged))
      ensures actions == [] ==> Unmoved(old(callbacks), old(hidden), old(transitionId), old(fit), old(repaint), old(resizes), old(reached))
      decreases actions
    {
      for i := 0 to |actions|
        invariant ValidIn(inHand) && Grows(old(runs), old(reached), old(abandoned), old(added), old(merged))
        invariant i == 0 ==> Unmoved(old(callbacks), old(hidden), old(transitionId), old(fit), old(repaint), old(resizes), old(reached))
      {
        match actions[i]
        case Schedule(concealed, onSettled) => DoSchedule(concealed, onSettled, inHand);
        case Cancel(reactions) => DoCancel(reactions, inHand);
      }
    }

    // ----- frames and promises

    /** What comes of the reveal step: nothing was hidden and every callback
        hears true, or the callbacks wait for the reveal frames. */
    ghost predicate Reveals(runs0: seq<Run>, callbacks0: seq<Callback>, hidden0: set<Session>, id0: TransitionId, reactions: seq<Script>)
      reads this
    {
      if hidden0 == {} then
        && AllRan(runs, |runs0|, callbacks0, true, id0)
        && (reactions == [] ==> RanInTurn(runs, |runs0|, callbacks0, true, id0) && callbacks == [] && repaint == None && hidden == {})
      else
        runs == runs0 && callbacks == callbacks0 && hidden == hidden0 && transitionId == id0 && repaint == Some(id0) && !repainted
    }

    /** revealAfterRepaint, for the current transition. */
    method RevealAfterRepaint(reactions: seq<Script>)
      requires Balanced(multiset{}) && Current() && Honest() && fit.None? && repaint.None? && Clean(resizes, transitionId)
      modifies this
      ensures Valid() && Grows(old(runs), old(reached), old(abandoned), old(added), old(merged)) && old(transitionId) in reached
      ensures Reveals(old(runs), old(callbacks), old(hidden), old(transitionId), reactions)
    {
      reached := reached + {transitionId};
      if hidden == {} {
        Settle(true, transitionId, reactions, multiset{});
      } else {
        repainted := false;
        repaint := Some(transitionId);
      }
    }

    /** The fit frame: the cells resize, and the ordered ones are waited for. */
    method FireFit(active: bool, ordered: nat, reactions: seq<Script>)
      requires Valid() && fit.Some?
      modifies this
      ensures Valid() && Grows(old(runs), old(reached), old(abandoned), old(added), old(merged))
      ensures !active ==>
                && AllRan(runs, |old(runs)|, old(callbacks), true, old(transitionId))
                && (reactions == [] ==> Unmoved([], old(hidden), old(transitionId), None, old(repaint), old(resizes), old(reached))
                                        && RanInTurn(runs, |old(runs)|, old(callbacks), true, old(transitionId)))
      ensures active && ordered > 0 ==>
                && Unmoved(old(callbacks), old(hidden), old(transitionId), None, old(repaint), old(resizes)[transitionId := Waiting(ordered)], old(reached))
                && runs == old(runs)
      ensures active && ordered == 0 ==>
                old(transitionId) in reached && Reveals(old(runs), old(callbacks), old(hidden), old(transitionId), reactions)
    {
      fit := None;
      if !active {
        abandoned := abandoned + {transitionId};
        Settle(true, transitionId, reactions, multiset{});
      } else if ordered == 0 {
        resizes := resizes[transitionId := Settled([])];
        RevealAfterRepaint(reactions);
      } else {
        resizes := resizes[transitionId := Waiting(ordered)];
      }
    }

    /** All ordered resizes of a transition have settled; a superseded transition ignores it. */
    method SettleResizes(id: TransitionId, outcomes: seq<Outcome>, reactions: seq<Script>)
      requires Valid() && id in resizes && resizes[id] == Waiting(|outcomes|)
      modifies this
      ensures Valid() && Grows(old(runs), old(reached), old(abandoned), old(added), old(merged))
      ensures id != old(transitionId) ==> runs == old(runs) && callbacks == old(callbacks) && hidden == old(hidden) && reached == old(reached)
      ensures id == old(transitionId) && AllAcknowledged(outcomes) ==>
                id in reached && Reveals(old(runs), old(callbacks), old(hidden), id, reactions)
      ensures id == old(transitionId) && !AllAcknowledged(outcomes) ==> AllRan(runs, |old(runs)|, old(callbacks), false, id)
      ensures id == old(transitionId) && !AllAcknowledged(outcomes) && reactions == [] ==>
                callbacks == [] && hidden == old(hidden) && reached == old(reached) && RanInTurn(runs, |old(runs)|, old(callbacks), false, id)
    {
      assert id !in reached;
      resizes := resizes[id := Settled(outcomes)];
      if id != transitionId { return; }
      if !AllAcknowledged(outcomes) {
        Settle(false, transitionId, reactions, multiset{});
        return;
      }
      RevealAfterRepaint(reactions);
    }

    /** The reveal frames: the first repaints, the second reveals and settles. */
    method FireReveal(reactions: seq<Script>)
      requires Valid() && repaint.Some?
      modifies this
      ensures Valid() && Grows(old(runs), old(reached), old(abandoned), old(added), old(merged))
      ensures !old(repainted) ==>
                repaint == old(repaint) && repainted && hidden == old(hidden) && callbacks == old(callbacks) && runs == old(runs)
      ensures old(repainted) ==> AllRan(runs, |old(runs)|, old(callbacks), true, old(transitionId))
      ensures old(repainted) && reactions == [] ==>
                hidden == {} && callbacks == [] && repaint == None && RanInTurn(runs, |old(runs)|, old(callbacks), true, old(transitionId))
    {
      if !repainted {
        repainted := true;
      } else {
        repaint := None;
        hidden := {};
        Settle(true, transitionId, reactions, multiset{});
      }
    }

    /** Registering a callback twice before the settlement merges the second registration. */
    method ScheduleTwice(concealed: set<Session>, c: Callback)
      requires Valid()
      modifies this
      ensures Valid() && runs == old(runs) && c in merged && callbacks == old(callbacks) + NewIn(old(callbacks), Some(c))
    {
      DoSchedule(concealed, Some(c), multiset{});
      DoSchedule(concealed, Some(c), multiset{});
    }

    method Step(event: Event)
      requires Valid()
      modifies this
      ensures Valid() && Grows(old(runs), old(reached), old(abandoned), old(added), old(merged))
    {
      match event
      case Act(action) => Perform([action], multiset{});
      case FitFrame(active, ordered, reactions) => if fit.Some? { FireFit(active, ordered, reactions); }
      case ResizesSettle(id, outcomes, reactions) =>
        if id in resizes && resizes[id] == Waiting(|outcomes|) { SettleResizes(id, outcomes, reactions); }
      case RevealFrame(reactions) => if repaint.Some? { FireReveal(reactions); }
    }

    /** Over every run: each added registration has run exactly once or waits
        with the current, unfinished transition; the reveal step is reached
        only by transitions whose ordered resizes were all acknowledged; and
        callbacks hear true only from those or from transitions without
        active sessions. */
    method RunEvents(events: seq<Event>)
      requires Valid()
      modifies this
      ensures forall c :: multiset(CallbacksOf(runs))[c] + (if c in callbacks then 1 else 0) == multiset(added)[c]
      ensures callbacks != [] ==> Unfinished()
      ensures forall id :: id in reached ==> Clean(resizes, id)
      ensures forall i :: 0 <= i < |runs| && runs[i].acknowledged ==> runs[i].source in reached || runs[i].source in abandoned
    {
      for i := 0 to |events|
        invariant Valid()
      {
        Step(events[i]);
      }
      forall c ensures multiset(CallbacksOf(runs))[c] + (if c in callbacks then 1 else 0) == multiset(added)[c] {
        DistinctCount(callbacks, c);
        assert (multiset(CallbacksOf(runs)) + multiset(callbacks) + multiset{})[c] == multiset(added)[c];
      }
    }
  }

  /** A callback runs or waits once per registration exactly when it was never
      registered while it was already waiting. */
  lemma OncePerRegistration(relayout: Relayout, c: Callback)
    requires relayout.Valid()
    ensures multiset(CallbacksOf(relayout.runs))[c] + multiset(relayout.callbacks)[c]
            == multiset(relayout.added)[c] + multiset(relayout.merged)[c]
            <==> c !in relayout.merged
  {
    assert (multiset(CallbacksOf(relayout.runs)) + multiset(relayout.callbacks) + multiset{})[c] == multiset(relayout.added)[c];
  }
}
