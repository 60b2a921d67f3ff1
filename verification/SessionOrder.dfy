/**
 Manual order of sessions: public/session-order.ts. An identity names a
 session on a machine, and may carry the slot it was dropped into and the tier
 it had then.
 */
module SessionOrder {
  import opened Common
  import opened Sequences
  import opened SessionModel

  /** `position` and `tier` are what stableIdentity keeps of a stored identity. */
  datatype Identity = Identity(machine: string, sessionId: string, position: Option<nat>, tier: Option<Tier>)

  predicate Same(a: Identity, b: Identity) {
    a.machine == b.machine && a.sessionId == b.sessionId
  }

  predicate Includes(order: seq<Identity>, x: Identity) {
    exists i :: 0 <= i < |order| && Same(order[i], x)
  }

  predicate DistinctIdentities(order: seq<Identity>) {
    forall i, j :: 0 <= i < j < |order| ==> !Same(order[i], order[j])
  }

  function IsOther(x: Identity): Identity -> bool {
    (y: Identity) => !Same(y, x)
  }

  function IsIn(scope: seq<Identity>): Identity -> bool {
    (y: Identity) => Includes(scope, y)
  }

  /** findIndex, with the length standing for -1. */
  function IndexOf(order: seq<Identity>, x: Identity): (k: nat)
    ensures k <= |order| && (k < |order| ==> Same(order[k], x))
    ensures forall j :: 0 <= j < k ==> !Same(order[j], x)
    decreases |order|
  {
    if order == [] || Same(order[0], x) then 0 else 1 + IndexOf(order[1..], x)
  }

  function InsertAt<T>(s: seq<T>, k: nat, x: T): seq<T>
    requires k <= |s|
  {
    s[..k] + [x] + s[k..]
  }

  /** Inserts `moving` directly before or after `target`, if that is there. */
  function Splice(ids: seq<Identity>, moving: Identity, target: Identity, after: bool): seq<Identity> {
    var k := IndexOf(ids, target);
    if k == |ids| then ids else InsertAt(ids, if after then k + 1 else k, moving)
  }

  /** moveSessionRelative. */
  function MoveRelative(order: seq<Identity>, scope: seq<Identity>, moving: Identity, target: Identity, after: bool): seq<Identity> {
    if Same(moving, target) || !Includes(scope, moving) || !Includes(scope, target) then order else
    var without := Filter(IsOther(moving), order);
    if Includes(without, target) then Splice(without, moving, target, after) else order
  }

  /** What recordManualSessionMove does to an earlier placement. */
  function Shifted(identity: Identity, siblings: seq<Identity>, tier: Tier): Identity {
    var k := IndexOf(siblings, identity);
    if k == |siblings| || (identity.tier.Some? && identity.tier.value != tier) then identity
    else identity.(position := Some(k), tier := Some(tier))
  }

  function ShiftAll(manual: seq<Identity>, siblings: seq<Identity>, tier: Tier): (r: seq<Identity>)
    ensures |r| == |manual| && forall i :: 0 <= i < |r| ==> r[i] == Shifted(manual[i], siblings, tier)
  {
    seq(|manual|, i requires 0 <= i < |manual| => Shifted(manual[i], siblings, tier))
  }

  /** recordManualSessionMove. */
  function RecordMove(manual: seq<Identity>, nextOrder: seq<Identity>, scope: seq<Identity>, moving: Identity, tier: Tier): seq<Identity> {
    var siblings := Filter(IsIn(scope), nextOrder);
    var position := IndexOf(siblings, moving);
    if position == |siblings| then manual
    else ShiftAll(Filter(IsOther(moving), manual), siblings, tier) + [moving.(position := Some(position), tier := Some(tier))]
  }

  // ----- distinct identities stay distinct

  lemma {:induction false} FilterDistinctIdentities(p: Identity -> bool, s: seq<Identity>)
    requires DistinctIdentities(s)
    ensures DistinctIdentities(Filter(p, s))
    decreases |s|
  {
    if s != [] {
      FilterDistinctIdentities(p, s[1..]);
      var r := Filter(p, s[1..]);
      forall i | 0 <= i < |r| ensures !Same(s[0], r[i]) {
        assert r[i] in s[1..];
        var k :| 0 <= k < |s[1..]| && s[1..][k] == r[i];
        assert !Same(s[0], s[k + 1]);
      }
    }
  }

  /** Recording a move keeps one identity per session. */
  lemma RecordMoveDistinct(manual: seq<Identity>, nextOrder: seq<Identity>, scope: seq<Identity>, moving: Identity, tier: Tier)
    requires DistinctIdentities(manual)
    ensures DistinctIdentities(RecordMove(manual, nextOrder, scope, moving, tier))
  {
    var others := Filter(IsOther(moving), manual);
    FilterDistinctIdentities(IsOther(moving), manual);
    forall i | 0 <= i < |others| ensures !Same(others[i], moving) { assert others[i] in manual; }
  }

  /** A move onto itself, or with one of the two out of the scope or the order,
      changes nothing. */
  lemma MoveIsRefused(order: seq<Identity>, scope: seq<Identity>, moving: Identity, target: Identity, after: bool)
    requires (moving.machine == target.machine && moving.sessionId == target.sessionId)
             || !Includes(scope, moving) || !Includes(scope, target) || !Includes(order, target)
    ensures MoveRelative(order, scope, moving, target, after) == order
  {
    if !Includes(order, target) {
      var without := Filter(IsOther(moving), order);
      forall i | 0 <= i < |without| ensures !Same(without[i], target) {
        assert without[i] in order;
        var k :| 0 <= k < |order| && order[k] == without[i];
      }
    }
  }

  /** A record keeps every other session, and those that are not among the
      siblings as they are. */
  lemma RecordKeepsOthers(manual: seq<Identity>, nextOrder: seq<Identity>, scope: seq<Identity>, moving: Identity, tier: Tier, x: Identity)
    requires x in manual && (x.machine != moving.machine || x.sessionId != moving.sessionId)
    ensures exists y :: y in RecordMove(manual, nextOrder, scope, moving, tier) && y.machine == x.machine && y.sessionId == x.sessionId
    ensures !Includes(nextOrder, x) || !Includes(scope, x) ==> x in RecordMove(manual, nextOrder, scope, moving, tier)
  {
    var siblings, recorded := Filter(IsIn(scope), nextOrder), RecordMove(manual, nextOrder, scope, moving, tier);
    if IndexOf(siblings, moving) < |siblings| {
      var others := Filter(IsOther(moving), manual);
      assert x in others;
      var i :| 0 <= i < |others| && others[i] == x;
      assert recorded[i] == Shifted(x, siblings, tier) && recorded[i] in recorded;
      var k := IndexOf(siblings, x);
      if k < |siblings| { SiblingIsIn(nextOrder, scope, x, k); }
    }
  }

  lemma SiblingIsIn(nextOrder: seq<Identity>, scope: seq<Identity>, x: Identity, k: nat)
    requires k < |Filter(IsIn(scope), nextOrder)| && Same(Filter(IsIn(scope), nextOrder)[k], x)
    ensures Includes(nextOrder, x) && Includes(scope, x)
  {
    var y := Filter(IsIn(scope), nextOrder)[k];
    assert y in Filter(IsIn(scope), nextOrder);
    var i :| 0 <= i < |nextOrder| && nextOrder[i] == y;
    assert Includes(scope, y);
    var j :| 0 <= j < |scope| && Same(scope[j], y);
    assert Same(nextOrder[i], x) && Same(scope[j], x);
  }

  /** The record of a session that is not among the siblings changes nothing;
      any other is put last, with its place among them and the tier. */
  lemma RecordExact(manual: seq<Identity>, nextOrder: seq<Identity>, scope: seq<Identity>, moving: Identity, tier: Tier)
    ensures var siblings := Filter(IsIn(scope), nextOrder); var recorded := RecordMove(manual, nextOrder, scope, moving, tier);
            if Includes(siblings, moving) then
              exists k :: 0 <= k < |siblings| && Same(siblings[k], moving) && (forall j :: 0 <= j < k ==> !Same(siblings[j], moving))
                          && recorded != [] && recorded[|recorded| - 1] == Identity(moving.machine, moving.sessionId, Some(k), Some(tier))
            else recorded == manual
  {
    var siblings := Filter(IsIn(scope), nextOrder);
    var k := IndexOf(siblings, moving);
    if k < |siblings| { assert Same(siblings[k], moving); }
  }

  /** No earlier identity is of the same session. */
  predicate IsFirst(values: seq<Identity>, i: nat)
    requires i < |values|
  {
    forall j :: 0 <= j < i ==> !Same(values[j], values[i])
  }

  /** The loop of loadSessionOrder: the first identity of each session is kept. */
  method KeepFirst(values: seq<Identity>) returns (identities: seq<Identity>)
    ensures DistinctIdentities(identities)
    ensures forall x :: x in identities ==> x in values
    ensures forall i :: 0 <= i < |values| ==> Includes(identities, values[i])
    ensures forall i :: 0 <= i < |values| && IsFirst(values, i) ==> values[i] in identities
  {
    identities := [];
    for k := 0 to |values|
      invariant DistinctIdentities(identities)
      invariant forall x :: x in identities ==> x in values[..k]
      invariant forall i :: 0 <= i < k ==> Includes(identities, values[i])
      invariant forall i :: 0 <= i < k && IsFirst(values, i) ==> values[i] in identities
    {
      assert values[..k + 1] == values[..k] + [values[k]];
      if !Includes(identities, values[k]) {
        IncludesMore(identities, values[k]);
        identities := identities + [values[k]];
      } else {
        NotFirst(values, identities, k);
      }
    }
    assert values[..|values|] == values;
  }

  lemma IncludesMore(identities: seq<Identity>, x: Identity)
    ensures Includes(identities + [x], x) && forall y :: Includes(identities, y) ==> Includes(identities + [x], y)
  {
    var more := identities + [x];
    assert Same(more[|identities|], x);
    forall y | Includes(identities, y) ensures Includes(more, y) {
      var j :| 0 <= j < |identities| && Same(identities[j], y);
      assert Same(more[j], y);
    }
  }

  lemma NotFirst(values: seq<Identity>, identities: seq<Identity>, k: nat)
    requires k < |values| && Includes(identities, values[k]) && forall x :: x in identities ==> x in values[..k]
    ensures !IsFirst(values, k)
  {
    var i :| 0 <= i < |identities| && Same(identities[i], values[k]);
    assert identities[i] in identities && identities[i] in values[..k];
    var j :| 0 <= j < k && values[..k][j] == identities[i];
    assert Same(values[j], values[k]);
  }
}
