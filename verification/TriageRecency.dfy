/**
 Which of two siblings orderTriageSessionRows of public/session-triage.ts shows
 first, told from their most urgent members: by who comes first, and by the
 order of the input where neither does, unless one of the two was placed by hand.
 */
module TriageRecency {
  import opened Common
  import opened Sequences
  import opened SessionModel
  import opened SessionTriage
  import opened SessionOrder
  import opened RowOrder
  import opened TriageOrder
  import opened TriageTheorems
  import S = Slots

  /** `c` is in the subtree of `a`, and nobody in there comes before it. */
  ghost predicate Leads(rows: seq<Row>, c: Row, a: Row) {
    c in rows && Climbs(rows, c, a) && forall d :: d in rows && Climbs(rows, d, a) ==> !GoesFirst(d.session, c.session)
  }

  /** No stored identity gives the row a slot in that tier. */
  ghost predicate NotPlaced(manual: seq<Identity>, machine: string, row: Row, tier: Tier) {
    forall x :: x in manual && x.machine == machine && row.session.id == Some(x.sessionId) ==> x.tier.Some? && x.tier.value != tier
  }

  /** The priority of a row is as urgent as whoever leads its subtree. */
  lemma LeaderIsPriority(rows: seq<Row>, c: Row, a: Row)
    requires a in rows && Leads(rows, c, a)
    ensures Compare(Priorities(rows)[a], c.session) == 0 && TierOf(Priorities(rows), a) == c.session.tier
  {
    CompareIsTotalPreorder();
    PriorityIsMostUrgent(rows, a);
    var d :| d in rows && Climbs(rows, d, a) && d.session == Priorities(rows)[a];
    assert !GoesFirst(d.session, c.session);
  }

  lemma NotPlacedIsUnplaced(group: seq<Row>, manual: seq<Identity>, machine: string, tier: Tier, row: Row)
    requires NotPlaced(manual, machine, row, tier)
    ensures S.IsUnplaced(Placements(group, manual, machine, tier))(row)
  {
    var applied := Filter(Applies(group, machine, tier), manual);
    var ps := Placements(group, manual, machine, tier);
    forall p | p in ps ensures p.row != row {
      var i :| 0 <= i < |ps| && ps[i] == p;
      assert applied[i] in applied && applied[i] in manual;
      assert p.row.session.id == Some(applied[i].sessionId);
    }
    assert !S.IsPlaced(ps)(row);
  }

  /** Two siblings of a tier that were not placed keep their automatic order. */
  lemma PairAsSorted(rows: seq<Row>, manual: seq<Identity>, machine: string, a: Row, b: Row, tier: Tier)
    requires UniqueRows(rows) && DistinctIdentities(manual) && a in rows && b in rows
    requires ParentKey(a) == ParentKey(b) && ShownByRank(rows, ParentKey(a))
    requires TierOf(Priorities(rows), a) == tier == TierOf(Priorities(rows), b)
    requires NotPlaced(manual, machine, a, tier) && NotPlaced(manual, machine, b, tier)
    ensures Filter(IsEither(a, b), OrderTriage(rows, manual, machine))
            == StableSort(ByUrgency(Priorities(rows)), Filter(IsEither(a, b), rows))
  {
    var key, best, pair, out := ParentKey(a), Priorities(rows), IsEither(a, b), OrderTriage(rows, manual, machine);
    var group, inGroup := Group(rows, key, tier), InGroup(best, key, tier);
    var unplaced := S.IsUnplaced(Placements(group, manual, machine, tier));
    NotPlacedIsUnplaced(group, manual, machine, tier, a);
    NotPlacedIsUnplaced(group, manual, machine, tier, b);
    UnplacedKeepOrder(rows, manual, machine, key, tier);
    PairThrough(a, b, inGroup, unplaced, out);
    PairThrough(a, b, inGroup, unplaced, Automatic(rows));
    ByUrgencyIsTotal(best);
    SortFilter(ByUrgency(best), pair, rows);
  }

  /** Two rows that pass both filters, seen through both. */
  lemma PairThrough(a: Row, b: Row, p: Row -> bool, q: Row -> bool, rows: seq<Row>)
    requires p(a) && p(b) && q(a) && q(b)
    ensures Filter(IsEither(a, b), Filter(q, Filter(p, rows))) == Filter(IsEither(a, b), rows)
  {
    FilterTwice(IsEither(a, b), q, Filter(p, rows));
    FilterTwice(IsEither(a, b), p, rows);
  }

  /** Of two siblings of one tier, neither placed by hand, the one whose leader
      comes first is shown first; otherwise the one that was first. */
  lemma SameTierOrder(rows: seq<Row>, manual: seq<Identity>, machine: string, p: nat, q: nat, c: Row, d: Row, i: nat, j: nat)
    requires UniqueRows(rows) && DistinctIdentities(manual) && p < |rows| && q < |rows| && p != q && HasTop(rows, rows[p])
    requires ParentKey(rows[p]) == ParentKey(rows[q]) && Leads(rows, c, rows[p]) && Leads(rows, d, rows[q]) && c.session.tier == d.session.tier
    requires NotPlaced(manual, machine, rows[p], c.session.tier) && NotPlaced(manual, machine, rows[q], c.session.tier)
    requires GoesFirst(c.session, d.session) || (p < q && !GoesFirst(d.session, c.session))
    requires var out := OrderTriage(rows, manual, machine); i < |out| && j < |out| && out[i] == rows[p] && out[j] == rows[q]
    ensures i < j
  {
    var a, b, out := rows[p], rows[q], OrderTriage(rows, manual, machine);
    KeyOfRow(rows, a);
    RootedIsShown(rows, ParentKey(a));
    LeaderIsPriority(rows, c, a);
    LeaderIsPriority(rows, d, b);
    PairAsSorted(rows, manual, machine, a, b, c.session.tier);
    var best := Priorities(rows);
    ComparePairs(best[a], c.session, best[b], d.session);
    ByUrgencyIsTotal(best);
    SortPair(ByUrgency(best), a, b);
    if p < q {
      FilterPair(rows, p, q);
    } else {
      FilterPair(rows, q, p);
      FilterSame(IsEither(a, b), IsEither(b, a), rows);
    }
    PairInOrder(out, a, b, i, j);
  }

  /** Comparing two sessions, or two as urgent as they are. */
  lemma ComparePairs(x: Session, c: Session, y: Session, d: Session)
    requires Compare(x, c) == 0 && Compare(y, d) == 0
    ensures AtLeastAsUrgent(x, y) <==> !GoesFirst(d, c)
    ensures AtLeastAsUrgent(y, x) <==> !GoesFirst(c, d)
  {
    CompareIsTotalPreorder();
    assert AtLeastAsUrgent(x, c) && AtLeastAsUrgent(c, x) && AtLeastAsUrgent(y, d) && AtLeastAsUrgent(d, y);
    assert AtLeastAsUrgent(x, y) <==> AtLeastAsUrgent(c, d);
    assert AtLeastAsUrgent(y, x) <==> AtLeastAsUrgent(d, c);
  }

  /** Of two siblings, with the most urgent members of their subtrees, the whole
      subtree of the first is shown above that of the second
      - if its leader is of an earlier tier, whatever was placed by hand
      - in one tier, if neither was placed by hand, if its leader comes first,
        or neither leader does and it was first in the input */
  lemma LeadersOrderSubtrees(rows: seq<Row>, manual: seq<Identity>, machine: string, p: nat, q: nat, c: Row, d: Row)
    requires UniqueRows(rows) && DistinctIdentities(manual) && p < |rows| && q < |rows| && p != q && HasTop(rows, rows[p])
    requires ParentKey(rows[p]) == ParentKey(rows[q]) && Leads(rows, c, rows[p]) && Leads(rows, d, rows[q])
    requires GoesFirst(c.session, d.session) || (p < q && !GoesFirst(d.session, c.session))
    requires c.session.tier == d.session.tier ==>
               NotPlaced(manual, machine, rows[p], c.session.tier) && NotPlaced(manual, machine, rows[q], c.session.tier)
    ensures var out := OrderTriage(rows, manual, machine);
            forall i, j :: 0 <= i < |out| && 0 <= j < |out| && Climbs(rows, out[i], rows[p]) && Climbs(rows, out[j], rows[q]) ==> i < j
  {
    var a, b := rows[p], rows[q];
    if c.session.tier != d.session.tier {
      assert Outranks(rows, c, b) by {
        forall e | e in rows && Climbs(rows, e, b) ensures EarlierTier(c.session.tier, e.session.tier) {
          assert !GoesFirst(e.session, d.session);
        }
      }
      UrgentSubtreeFirst(rows, manual, machine, a, b, c);
    } else {
      KeyOfRow(rows, a);
      UnderHasTop(rows, ParentKey(a), b);
      var i, n := TriageKeepsSubtrees(rows, manual, machine, a);
      var j, m := TriageKeepsSubtrees(rows, manual, machine, b);
      SameTierOrder(rows, manual, machine, p, q, c, d, i, j);
      SiblingsAreApart(rows, a, b);
    }
  }
}
