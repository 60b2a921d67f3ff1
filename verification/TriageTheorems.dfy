/**
 What orderTriageSessionRows promises: a permutation of the rows in which
 every subtree is one stretch, siblings go by tier, and a group of one tier is
 shown in automatic order around the slots that were placed by hand.
 */
module TriageTheorems {
  import opened Common
  import opened Sequences
  import opened SessionModel
  import opened SessionTriage
  import opened SessionOrder
  import opened RowOrder
  import opened TriageOrder
  import B = SiblingOrder
  import S = Slots

  /** Whatever the parents, each row is shown exactly once. */
  lemma TriagePermutes(rows: seq<Row>, manual: seq<Identity>, machine: string)
    requires Distinct(rows) && DistinctIdentities(manual)
    ensures multiset(OrderTriage(rows, manual, machine)) == multiset(rows) && Distinct(OrderTriage(rows, manual, machine))
    ensures forall r :: r in OrderTriage(rows, manual, machine) <==> r in rows
  {
    GroupIsDistinct(rows, None, Idle);
    SortPermutes(ByUrgency(Priorities(rows)), rows);
    OrderByRankPermutes(Automatic(rows), Ranks(TriageList(rows, manual, machine)));
  }

  // ----- sorting first does not change who is above whom

  ghost predicate SameForest(a: seq<Row>, b: seq<Row>) {
    UniqueRowIds(a) && UniqueRowIds(b) && forall r :: r in a <==> r in b
  }

  lemma SameParents(a: seq<Row>, b: seq<Row>, r: Row)
    requires SameForest(a, b)
    ensures ParentRow(a, r) == ParentRow(b, r)
  {
    var p, q := ParentRow(a, r), ParentRow(b, r);
    if p.Some? && q.Some? { SameIdSameRow(a, p.value, q.value); }
  }

  lemma {:induction false} SameClimbsIn(a: seq<Row>, b: seq<Row>, r: Row, top: Row, n: nat)
    requires SameForest(a, b) && ClimbsIn(a, r, top, n)
    ensures ClimbsIn(b, r, top, n)
    decreases n
  {
    SameParents(a, b, r);
    if n > 0 { SameClimbsIn(a, b, ParentRow(a, r).value, top, n - 1); }
  }

  lemma SameClimbs(a: seq<Row>, b: seq<Row>, r: Row, top: Row)
    requires SameForest(a, b)
    ensures Climbs(a, r, top) <==> Climbs(b, r, top)
  {
    if Climbs(a, r, top) {
      var n: nat :| ClimbsIn(a, r, top, n);
      SameClimbsIn(a, b, r, top, n);
    }
    if Climbs(b, r, top) {
      var n: nat :| ClimbsIn(b, r, top, n);
      SameClimbsIn(b, a, r, top, n);
    }
  }

  lemma SameTop(a: seq<Row>, b: seq<Row>, r: Row)
    requires SameForest(a, b) && HasTop(a, r)
    ensures HasTop(b, r)
  {
    var t :| t in a && ParentKey(t).None? && Climbs(a, r, t);
    SameClimbs(a, b, r, t);
  }

  lemma AutomaticKeepsTrees(rows: seq<Row>)
    requires UniqueRows(rows)
    ensures UniqueRows(Automatic(rows)) && SameForest(rows, Automatic(rows))
  {
    var auto := Automatic(rows);
    GroupIsDistinct(rows, None, Idle);
    UniqueIdsSubset(rows, auto);
  }

  // ----- on the trees

  /** The parent `key` comes first in the listing of the automatic order: it
      climbs to the top, or another row at or above it is listed before each of
      its children; or it has at most one. */
  ghost predicate ShownByRank(rows: seq<Row>, key: Option<SessionId>) {
    B.ParentLeads(Automatic(rows), key) || |Under(rows, key)| <= 1
  }

  lemma RootedIsShown(rows: seq<Row>, key: Option<SessionId>)
    requires UniqueRows(rows) && Rooted(rows, key)
    ensures ShownByRank(rows, key)
  {
    AutomaticKeepsTrees(rows);
    if key.Some? {
      var p :| p in rows && p.session.id == key && HasTop(rows, p);
      SameTop(rows, Automatic(rows), p);
    }
  }

  /** The rows under one parent, as they are shown. */
  lemma UnderIsShown(rows: seq<Row>, manual: seq<Identity>, machine: string, key: Option<SessionId>)
    requires UniqueRows(rows) && DistinctIdentities(manual) && ShownByRank(rows, key)
    ensures Filter(IsUnder(key), OrderTriage(rows, manual, machine)) == UnderOrder(rows, manual, machine, key)
  {
    AutomaticKeepsTrees(rows);
    var list := TriageList(rows, manual, machine);
    TriageListUnder(rows, manual, machine, key);
    B.SiblingsExact(Automatic(rows), key);
    SiblingsByList(list, Automatic(rows), key);
  }

  /** Every subtree is one stretch that starts with its root. */
  lemma TriageKeepsSubtrees(rows: seq<Row>, manual: seq<Identity>, machine: string, x: Row) returns (i: nat, n: nat)
    requires UniqueRows(rows) && DistinctIdentities(manual) && x in rows && HasTop(rows, x)
    ensures IsStretch(rows, OrderTriage(rows, manual, machine), x, i, n)
  {
    AutomaticKeepsTrees(rows);
    SameTop(rows, Automatic(rows), x);
    i, n := SubtreeIsContiguous(Automatic(rows), Ranks(TriageList(rows, manual, machine)), x);
    var out := OrderTriage(rows, manual, machine);
    forall j | 0 <= j < |out| ensures Climbs(rows, out[j], x) <==> i <= j <= i + n {
      SameClimbs(rows, Automatic(rows), out[j], x);
    }
  }

  // ----- tiers

  ghost predicate TiersAscend(tiers: seq<Tier>) {
    forall i, j :: 0 <= i < j < |tiers| ==> !EarlierTier(tiers[j], tiers[i])
  }

  ghost predicate RowsAscend(best: map<Row, Session>, rows: seq<Row>) {
    forall i, j :: 0 <= i < j < |rows| ==> !EarlierTier(TierOf(best, rows[j]), TierOf(best, rows[i]))
  }

  lemma {:induction false} TiersInAscend(best: map<Row, Session>, rows: seq<Row>)
    requires RowsAscend(best, rows)
    ensures TiersAscend(TiersIn(best, rows))
    decreases |rows|
  {
    if rows != [] {
      var init, last := rows[..|rows| - 1], rows[|rows| - 1];
      TiersInAscend(best, init);
      var before := TiersIn(best, init);
      forall t | t in before ensures !EarlierTier(TierOf(best, last), t) {
        var x :| x in init && TierOf(best, x) == t;
        var i :| 0 <= i < |init| && init[i] == x;
        assert rows[i] == x;
      }
    }
  }

  lemma {:induction false} TiersOrderAscends(rows: seq<Row>, manual: seq<Identity>, machine: string, key: Option<SessionId>, tiers: seq<Tier>)
    requires Distinct(rows) && DistinctIdentities(manual) && TiersAscend(tiers)
    ensures RowsAscend(Priorities(rows), TiersOrder(rows, manual, machine, key, tiers))
    decreases |tiers|
  {
    if tiers != [] {
      var best, t := Priorities(rows), tiers[0];
      TiersOrderAscends(rows, manual, machine, key, tiers[1..]);
      GroupIsDistinct(rows, key, t);
      var shown, rest := Shown(Group(rows, key, t), manual, machine, t), TiersOrder(rows, manual, machine, key, tiers[1..]);
      ShownPermutes(Group(rows, key, t), manual, machine, t);
      forall x | x in shown ensures TierOf(best, x) == t {}
      forall x | x in rest ensures !EarlierTier(TierOf(best, x), t) {
        TiersOrderMembers(rows, manual, machine, key, tiers[1..], x);
        var k :| 0 <= k < |tiers[1..]| && tiers[1..][k] == TierOf(best, x);
        assert tiers[k + 1] == TierOf(best, x);
      }
      AscendAppend(best, shown, rest, t);
    }
  }

  lemma AscendAppend(best: map<Row, Session>, a: seq<Row>, b: seq<Row>, t: Tier)
    requires RowsAscend(best, b) && (forall x :: x in a ==> TierOf(best, x) == t)
    requires forall x :: x in b ==> !EarlierTier(TierOf(best, x), t)
    ensures RowsAscend(best, a + b)
  {
  }

  /** Among siblings tiers never decrease, whatever was placed by hand. */
  lemma SiblingTiersAscend(rows: seq<Row>, manual: seq<Identity>, machine: string, key: Option<SessionId>)
    requires UniqueRows(rows) && DistinctIdentities(manual) && ShownByRank(rows, key)
    ensures RowsAscend(Priorities(rows), Filter(IsUnder(key), OrderTriage(rows, manual, machine)))
  {
    UnderIsShown(rows, manual, machine, key);
    var best, leq, under := Priorities(rows), ByUrgency(Priorities(rows)), Under(rows, key);
    ByUrgencyIsTotal(best);
    CompareIsTotalPreorder();
    SortFilter(leq, IsUnder(key), rows);
    SortSorts(leq, Filter(IsUnder(key), rows));
    forall i, j | 0 <= i < j < |under| ensures !EarlierTier(TierOf(best, under[j]), TierOf(best, under[i])) {
      assert leq(under[i], under[j]);
    }
    TiersInAscend(best, under);
    TiersOrderAscends(rows, manual, machine, key, TiersIn(best, under));
  }

  // ----- urgent subtrees

  /** Climbing is deterministic. */
  lemma {:induction false} ClimbsOn(rows: seq<Row>, r: Row, a: Row, b: Row, n: nat, m: nat)
    requires n <= m && ClimbsIn(rows, r, a, n) && ClimbsIn(rows, r, b, m)
    ensures ClimbsIn(rows, a, b, m - n)
    decreases n
  {
    if n > 0 { ClimbsOn(rows, ParentRow(rows, r).value, a, b, n - 1, m - 1); }
  }

  lemma {:induction false} TopEndsClimb(rows: seq<Row>, r: Row, top: Row, m: nat, n: nat)
    requires ClimbsIn(rows, r, top, m) && ParentKey(top).None? && n > 0
    ensures !ClimbsIn(rows, r, r, n)
    decreases m
  {
    if ClimbsIn(rows, r, r, n) {
      if m < n {
        ClimbsOn(rows, r, top, r, m, n);
      } else {
        ClimbsOn(rows, r, r, top, n, m);
        TopEndsClimb(rows, r, top, m - n, n);
      }
    }
  }

  lemma KeyOfRow(rows: seq<Row>, a: Row)
    requires UniqueRows(rows) && a in rows && HasTop(rows, a)
    ensures Rooted(rows, ParentKey(a)) && (ParentKey(a).Some? ==> ParentRow(rows, a).Some?)
  {
    var t :| t in rows && ParentKey(t).None? && Climbs(rows, a, t);
    if t != a {
      ClimbsStep(rows, a, t);
      assert HasTop(rows, ParentRow(rows, a).value);
    }
  }

  /** No sibling is in the subtree of another. */
  lemma SiblingsAreApart(rows: seq<Row>, a: Row, b: Row)
    requires UniqueRows(rows) && a in rows && b in rows && HasTop(rows, b) && ParentKey(a) == ParentKey(b) && a != b
    ensures !Climbs(rows, b, a)
  {
    if Climbs(rows, b, a) {
      var n: nat :| ClimbsIn(rows, b, a, n);
      assert ParentRow(rows, a) == ParentRow(rows, b);
      var p := ParentRow(rows, b).value;
      ClimbsInSnoc(rows, p, a, n - 1);
      var t :| t in rows && ParentKey(t).None? && Climbs(rows, b, t);
      ClimbsStep(rows, b, t);
      var m: nat :| ClimbsIn(rows, p, t, m);
      TopEndsClimb(rows, p, t, m, n);
    }
  }

  lemma {:induction false} ClimbsInSnoc(rows: seq<Row>, r: Row, a: Row, n: nat)
    requires ClimbsIn(rows, r, a, n) && ParentRow(rows, a).Some?
    ensures ClimbsIn(rows, r, ParentRow(rows, a).value, n + 1)
    decreases n
  {
    if n > 0 { ClimbsInSnoc(rows, ParentRow(rows, r).value, a, n - 1); }
  }

  /** A parent is shown above its children. */
  lemma ParentShownFirst(rows: seq<Row>, manual: seq<Identity>, machine: string, i: nat, j: nat)
    requires UniqueRows(rows) && DistinctIdentities(manual)
    requires var out := OrderTriage(rows, manual, machine);
             i < |out| && j < |out| && HasTop(rows, out[j]) && ParentRow(rows, out[j]) == Some(out[i])
    ensures i < j
  {
    var out := OrderTriage(rows, manual, machine);
    TriagePermutes(rows, manual, machine);
    assert out[i] in rows && out[j] in rows;
    ParentIsAbove(rows, out[j], out[i]);
    var k, n := TriageKeepsSubtrees(rows, manual, machine, out[i]);
    assert out[k] == out[i];
  }

  /** A row with a top is below its parent, and so has the parent. */
  lemma ParentIsAbove(rows: seq<Row>, c: Row, p: Row)
    requires HasTop(rows, c) && ParentRow(rows, c) == Some(p)
    ensures HasTop(rows, p) && Climbs(rows, c, p) && c != p
  {
    var t :| t in rows && ParentKey(t).None? && Climbs(rows, c, t);
    assert ClimbsIn(rows, p, p, 0);
    assert ClimbsIn(rows, c, p, 1);
    var m: nat :| ClimbsIn(rows, c, t, m);
    ClimbsStep(rows, c, t);
    TopEndsClimb(rows, c, t, m, 1);
  }

  /** `c` is of a more urgent tier than all of the subtree of `b`. */
  ghost predicate Outranks(rows: seq<Row>, c: Row, b: Row) {
    forall d :: d in rows && Climbs(rows, d, b) ==> EarlierTier(c.session.tier, d.session.tier)
  }

  lemma OutrankingTier(rows: seq<Row>, a: Row, b: Row, c: Row)
    requires a in rows && b in rows && c in rows && Climbs(rows, c, a) && Outranks(rows, c, b)
    ensures EarlierTier(TierOf(Priorities(rows), a), TierOf(Priorities(rows), b))
  {
    CompareIsTotalPreorder();
    PriorityIsMostUrgent(rows, a);
    PriorityIsMostUrgent(rows, b);
    var best := Priorities(rows);
    assert AtLeastAsUrgent(best[a], c.session);
    var d :| d in rows && Climbs(rows, d, b) && d.session == best[b];
  }

  lemma OutrankingRootFirst(rows: seq<Row>, manual: seq<Identity>, machine: string, a: Row, b: Row, i: nat, j: nat)
    requires UniqueRows(rows) && DistinctIdentities(manual) && a in rows && b in rows && HasTop(rows, a) && ParentKey(a) == ParentKey(b)
    requires EarlierTier(TierOf(Priorities(rows), a), TierOf(Priorities(rows), b))
    requires var out := OrderTriage(rows, manual, machine); i < |out| && j < |out| && out[i] == a && out[j] == b
    ensures i < j
  {
    var out, q := OrderTriage(rows, manual, machine), IsUnder(ParentKey(a));
    KeyOfRow(rows, a);
    RootedIsShown(rows, ParentKey(a));
    SiblingTiersAscend(rows, manual, machine, ParentKey(a));
    if j < i {
      var k, l := FilterKeepsOrder(q, out, j, i);
    }
  }

  /** A subtree that holds a session more urgent than anything in a sibling
      subtree is shown above all of that subtree, whatever was placed by hand. */
  lemma UrgentSubtreeFirst(rows: seq<Row>, manual: seq<Identity>, machine: string, a: Row, b: Row, c: Row)
    requires UniqueRows(rows) && DistinctIdentities(manual) && a in rows && b in rows && HasTop(rows, a) && ParentKey(a) == ParentKey(b)
    requires c in rows && Climbs(rows, c, a) && Outranks(rows, c, b)
    ensures var out := OrderTriage(rows, manual, machine);
            forall i, j :: 0 <= i < |out| && 0 <= j < |out| && Climbs(rows, out[i], a) && Climbs(rows, out[j], b) ==> i < j
  {
    KeyOfRow(rows, a);
    UnderHasTop(rows, ParentKey(a), b);
    var i, n := TriageKeepsSubtrees(rows, manual, machine, a);
    var j, m := TriageKeepsSubtrees(rows, manual, machine, b);
    OutrankingTier(rows, a, b, c);
    OutrankingRootFirst(rows, manual, machine, a, b, i, j);
    SiblingsAreApart(rows, a, b);
  }

  // ----- one group

  /** A group is shown as its slots say. */
  lemma GroupIsShown(rows: seq<Row>, manual: seq<Identity>, machine: string, key: Option<SessionId>, tier: Tier)
    requires UniqueRows(rows) && DistinctIdentities(manual) && ShownByRank(rows, key)
    ensures Distinct(Group(rows, key, tier))
    ensures Filter(InGroup(Priorities(rows), key, tier), OrderTriage(rows, manual, machine))
            == Shown(Group(rows, key, tier), manual, machine, tier)
  {
    UnderIsShown(rows, manual, machine, key);
    UnderOrderGroup(rows, manual, machine, key, tier);
    FilterTwice(InGroup(Priorities(rows), key, tier), IsUnder(key), OrderTriage(rows, manual, machine));
  }

  /** The rows of a group that no stored identity places keep their automatic order. */
  lemma UnplacedKeepOrder(rows: seq<Row>, manual: seq<Identity>, machine: string, key: Option<SessionId>, tier: Tier)
    requires UniqueRows(rows) && DistinctIdentities(manual) && ShownByRank(rows, key)
    ensures var group := Group(rows, key, tier);
            var unplaced := S.IsUnplaced(Placements(group, manual, machine, tier));
            var shown := Filter(InGroup(Priorities(rows), key, tier), OrderTriage(rows, manual, machine));
            Filter(unplaced, shown) == Filter(unplaced, group)
  {
    GroupIsShown(rows, manual, machine, key, tier);
    var group := Group(rows, key, tier);
    PlacementsFit(group, manual, machine, tier);
    S.ArrangePermutes(group, Placements(group, manual, machine, tier));
  }

  /** Distinct stored positions inside the group are honoured exactly. */
  lemma PositionsAreShown(rows: seq<Row>, manual: seq<Identity>, machine: string, key: Option<SessionId>, tier: Tier, i: nat)
    requires UniqueRows(rows) && DistinctIdentities(manual) && ShownByRank(rows, key)
    requires var group := Group(rows, key, tier);
             var ps := Placements(group, manual, machine, tier);
             S.DistinctInRange(|group|, ps) && i < |ps|
    ensures var ps := Placements(Group(rows, key, tier), manual, machine, tier);
            var shown := Filter(InGroup(Priorities(rows), key, tier), OrderTriage(rows, manual, machine));
            ps[i].wanted < |shown| && shown[ps[i].wanted] == ps[i].row
  {
    GroupIsShown(rows, manual, machine, key, tier);
    var group := Group(rows, key, tier);
    PlacementsFit(group, manual, machine, tier);
    S.PositionsAreHonoured(group, Placements(group, manual, machine, tier), i);
  }

  /** The identities that place a row of a group. */
  function Applied(rows: seq<Row>, manual: seq<Identity>, machine: string, key: Option<SessionId>, tier: Tier): seq<Identity> {
    Filter(Applies(Group(rows, key, tier), machine, tier), manual)
  }

  /** Stored slots, if distinct and inside the group, are where the sessions are shown. */
  lemma StoredSlotsAreShown(rows: seq<Row>, manual: seq<Identity>, machine: string, key: Option<SessionId>, tier: Tier, i: nat)
    requires UniqueRows(rows) && DistinctIdentities(manual) && ShownByRank(rows, key) && i < |Applied(rows, manual, machine, key, tier)|
    requires var xs := Applied(rows, manual, machine, key, tier);
             && (forall k :: 0 <= k < |xs| ==> xs[k].position.Some? && xs[k].position.value < |Group(rows, key, tier)|)
             && (forall k, l :: 0 <= k < l < |xs| ==> xs[k].position != xs[l].position)
    ensures var x := Applied(rows, manual, machine, key, tier)[i];
            var shown := Filter(InGroup(Priorities(rows), key, tier), OrderTriage(rows, manual, machine));
            && x.position.value < |shown| && shown[x.position.value].session.id.Some?
            && shown[x.position.value].session.id.value == x.sessionId
  {
    PositionsAreShown(rows, manual, machine, key, tier, i);
  }

  /** Identities stored without slots are shown first, in their stored order. */
  lemma StoredOrderIsShown(rows: seq<Row>, manual: seq<Identity>, machine: string, key: Option<SessionId>, tier: Tier, i: nat)
    requires UniqueRows(rows) && DistinctIdentities(manual) && ShownByRank(rows, key) && i < |Applied(rows, manual, machine, key, tier)|
    requires forall x :: x in Applied(rows, manual, machine, key, tier) ==> x.position.None?
    ensures var x := Applied(rows, manual, machine, key, tier)[i];
            var shown := Filter(InGroup(Priorities(rows), key, tier), OrderTriage(rows, manual, machine));
            i < |shown| && shown[i].session.id.Some? && shown[i].session.id.value == x.sessionId
  {
    GroupIsDistinct(rows, key, tier);
    InStoredOrder(Group(rows, key, tier), manual, machine, tier);
    PositionsAreShown(rows, manual, machine, key, tier, i);
  }

  lemma InStoredOrder(group: seq<Row>, manual: seq<Identity>, machine: string, tier: Tier)
    requires Distinct(group) && DistinctIdentities(manual)
    requires forall x :: x in Filter(Applies(group, machine, tier), manual) ==> x.position.None?
    ensures S.DistinctInRange(|group|, Placements(group, manual, machine, tier))
  {
    var ps := Placements(group, manual, machine, tier);
    PlacementsFit(group, manual, machine, tier);
    S.CountsAgree(group, ps);
    assert |ps| <= |group|;
    assert forall i :: 0 <= i < |ps| ==> ps[i].wanted == i;
  }
}
