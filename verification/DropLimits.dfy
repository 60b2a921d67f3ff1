/** Where a drop is not shown: a scope smaller than the group, and cyclic parents. */
module DropLimits {
  import opened Common
  import opened Sequences
  import opened Forest
  import opened Preorder
  import opened SessionModel
  import opened SessionTriage
  import opened SessionOrder
  import opened RowOrder
  import opened TriageOrder
  import opened TriageTheorems
  import opened SessionDrop
  import S = Slots

  /** Whatever was placed by hand and whatever the scope: a drop is shown
      exactly when every placement that it leads to lands in the slot that its
      row was dropped into. */
  lemma NarrowDropExact(rows: seq<Row>, manual: seq<Identity>, machine: string, key: Option<SessionId>, tier: Tier, part: seq<Row>,
                        m: Row, t: Row, after: bool)
    requires UniqueRows(rows) && DistinctIdentities(manual) && ShownByRank(rows, key)
    requires InOneGroup(rows, manual, machine, key, tier, part, m, t)
    ensures var dropped := Dropped(ShownGroup(rows, manual, machine, key, tier), m, t, after);
            var recorded := AfterDrop(rows, manual, machine, tier, part, m, t, after);
            && DistinctIdentities(recorded) && m in Filter(InPart(part), dropped)
            && (ShownGroup(rows, recorded, machine, key, tier) == dropped
                <==> S.AllLand(dropped, PlacementsAfter(Group(rows, key, tier), manual, machine, tier, Filter(InPart(part), dropped), m)))
  {
    GroupFacts(rows, manual, machine, key, tier);
    AfterDropIs(rows, manual, machine, key, tier, part, m, t, after);
    DropExact(machine, manual, Group(rows, key, tier), InPart(part), m, t, after, tier);
    GroupFacts(rows, AfterDrop(rows, manual, machine, tier, part, m, t, after), machine, key, tier);
  }

  /** Where every row placed by hand is in the scope, the drop is shown exactly
      when the scope holds every row above one that was placed or moved. */
  lemma PlacedDropExact(rows: seq<Row>, manual: seq<Identity>, machine: string, key: Option<SessionId>, tier: Tier, part: seq<Row>,
                        m: Row, t: Row, after: bool)
    requires UniqueRows(rows) && DistinctIdentities(manual) && ShownByRank(rows, key)
    requires InOneGroup(rows, manual, machine, key, tier, part, m, t)
    requires forall r :: S.IsPlaced(Placements(Group(rows, key, tier), manual, machine, tier))(r) ==> r in part
    ensures var dropped := Dropped(ShownGroup(rows, manual, machine, key, tier), m, t, after);
            var recorded := AfterDrop(rows, manual, machine, tier, part, m, t, after);
            && DistinctIdentities(recorded)
            && (ShownGroup(rows, recorded, machine, key, tier) == dropped
                <==> ScopeReaches(InPart(part), dropped, Placements(Group(rows, key, tier), manual, machine, tier), m))
  {
    GroupFacts(rows, manual, machine, key, tier);
    AfterDropIs(rows, manual, machine, key, tier, part, m, t, after);
    ScopedDropExact(machine, manual, Group(rows, key, tier), InPart(part), m, t, after, tier);
    GroupFacts(rows, AfterDrop(rows, manual, machine, tier, part, m, t, after), machine, key, tier);
  }

  /** The first drop in a group is shown exactly when the scope holds every row
      above the place where the row is dropped. */
  lemma FirstDropExact(rows: seq<Row>, manual: seq<Identity>, machine: string, key: Option<SessionId>, tier: Tier, part: seq<Row>,
                       m: Row, t: Row, after: bool)
    requires UniqueRows(rows) && DistinctIdentities(manual) && ShownByRank(rows, key)
    requires InOneGroup(rows, manual, machine, key, tier, part, m, t) && Placements(Group(rows, key, tier), manual, machine, tier) == []
    ensures var dropped := Dropped(ShownGroup(rows, manual, machine, key, tier), m, t, after);
            var recorded := AfterDrop(rows, manual, machine, tier, part, m, t, after);
            && DistinctIdentities(recorded)
            && (ShownGroup(rows, recorded, machine, key, tier) == dropped <==> PassAbove(InPart(part), dropped, m))
  {
    PlacedDropExact(rows, manual, machine, key, tier, part, m, t, after);
  }

  function Keep(p: Row -> bool, x: Row): seq<Row> {
    if p(x) then [x] else []
  }

  lemma Three(x: Row, y: Row, z: Row, p: Row -> bool)
    ensures Filter(p, [x, y, z]) == Keep(p, x) + (Keep(p, y) + Keep(p, z))
  {
    assert [x, y, z] == [x] + [y, z] && [y, z] == [y] + [z] && [z] == [z] + [];
    FilterCons(p, x, [y, z]);
    FilterCons(p, y, [z]);
    FilterCons(p, z, []);
  }

  lemma DropLast(x: Row, y: Row, z: Row)
    requires x != y && y != z && x != z
    ensures Dropped([x, y, z], x, z, true) == [y, z, x]
  {
    Three(x, y, z, IsNot(x));
    assert Filter(IsNot(x), [x, y, z]) == [y, z];
    assert [y, z][1..] == [z] && [z][1..] == [];
    assert PlaceBeside([z], x, z, true) == [z, x];
  }

  /** One row that wants the middle slot of three. */
  lemma MiddleSlot(x: Row, y: Row, z: Row, ps: seq<S.Placement<Row>>)
    requires x != y && y != z && x != z && ps == [S.Placement(x, 1)]
    ensures S.Fits([x, y, z], ps) && S.Arrange([x, y, z], ps) == [y, x, z]
  {
    MiddleRest(x, y, z, ps);
    assert [x, y, z][0] == x;
    S.ArrangeIsUnique([x, y, z], ps, [y, x, z]);
  }

  lemma MiddleRest(x: Row, y: Row, z: Row, ps: seq<S.Placement<Row>>)
    requires x != y && y != z && x != z && ps == [S.Placement(x, 1)]
    ensures Filter(S.IsUnplaced(ps), [x, y, z]) == Filter(S.IsUnplaced(ps), [y, x, z])
  {
    assert ps[0] in ps && forall p :: p in ps ==> p == ps[0];
    assert S.IsPlaced(ps)(x) && !S.IsPlaced(ps)(y) && !S.IsPlaced(ps)(z);
    Three(x, y, z, S.IsUnplaced(ps));
    Three(y, x, z, S.IsUnplaced(ps));
  }

  /** Dropping the first of three rows after the last, with the middle one out
      of the scope, records the slot of the middle row: the moved row stays
      above its target. */
  lemma NarrowScopeMisses(machine: string, tier: Tier, x: Row, y: Row, z: Row)
    requires UniqueRows([x, y, z]) && AllNamed([x, y, z])
    ensures var scope := Ids(machine, [x, z]);
            var next := MoveRelative(Ids(machine, [x, y, z]), scope, IdOf(machine, x), IdOf(machine, z), true);
            var recorded := RecordMove([], next, scope, IdOf(machine, x), tier);
            && Shown([x, y, z], [], machine, tier) == [x, y, z]
            && DistinctIdentities(recorded) && Shown([x, y, z], recorded, machine, tier) == [y, x, z]
  {
    var group, scope := [x, y, z], Ids(machine, [x, z]);
    assert x in group && y in group && z in group && group[0] != group[1] && group[1] != group[2] && group[0] != group[2];
    assert group[0].session.id != group[1].session.id && group[1].session.id != group[2].session.id && group[0].session.id != group[2].session.id;
    NothingPlaced(group, machine, tier);
    DropLast(x, y, z);
    MoveIsBeside(machine, group, [x, z], x, z, true);
    NarrowSiblings(machine, x, y, z);
    RecordMoveDistinct([], Ids(machine, [y, z, x]), scope, IdOf(machine, x), tier);
    assert RecordMove([], Ids(machine, [y, z, x]), scope, IdOf(machine, x), tier)
           == [IdOf(machine, x).(position := Some(1), tier := Some(tier))];
    OneInTheMiddle(machine, tier, x, y, z);
  }

  lemma OneInTheMiddle(machine: string, tier: Tier, x: Row, y: Row, z: Row)
    requires x != y && y != z && x != z && AllNamed([x, y, z])
    requires x.session.id != y.session.id && y.session.id != z.session.id && x.session.id != z.session.id
    ensures var moved := IdOf(machine, x).(position := Some(1), tier := Some(tier));
            Distinct([x, y, z]) && Shown([x, y, z], [moved], machine, tier) == [y, x, z]
  {
    var group, moved := [x, y, z], IdOf(machine, x).(position := Some(1), tier := Some(tier));
    assert group[0] == x && HasSession(group, moved.sessionId) && Applies(group, machine, tier)(moved);
    assert [moved][1..] == [];
    assert SessionRow(group, moved.sessionId) == x;
    MiddleSlot(x, y, z, Placements(group, [moved], machine, tier));
  }

  lemma NothingPlaced(group: seq<Row>, machine: string, tier: Tier)
    requires Distinct(group)
    ensures Shown(group, [], machine, tier) == group
  {
    PlacementsFit(group, [], machine, tier);
    S.ArrangeIsUnique(group, Placements(group, [], machine, tier), group);
  }

  lemma NarrowSiblings(machine: string, x: Row, y: Row, z: Row)
    requires UniqueRows([x, y, z]) && AllNamed([x, y, z])
    ensures var siblings := Filter(IsIn(Ids(machine, [x, z])), Ids(machine, [y, z, x]));
            siblings == Ids(machine, [z, x]) && IndexOf(siblings, IdOf(machine, x)) == 1 && |siblings| == 2
  {
    var group, scope := [x, y, z], Ids(machine, [x, z]);
    assert x in group && y in group && z in group;
    assert group[0].session.id != group[1].session.id && group[1].session.id != group[2].session.id && group[0].session.id != group[2].session.id;
    var q := (r: Row) => r in [x, z];
    forall r | r in [y, z, x] ensures IsIn(scope)(IdOf(machine, r)) <==> q(r) { IdsMembers(machine, [x, z], IdOf(machine, r)); }
    IdsFilter(machine, [y, z, x], IsIn(scope), q);
    Three(y, z, x, q);
    assert Filter(q, [y, z, x]) == [z, x];
    IdsAt(machine, [z, x]);
    var ids := Ids(machine, [z, x]);
    assert !Same(ids[0], IdOf(machine, x)) && Same(ids[1], IdOf(machine, x));
  }

  /** Two rows that are each other's parent, and a child of one listed first:
      whatever the ranks, the rows come out as they were listed. */
  lemma CycleIgnoresRank(rank: Ranking, c: Row, a: Row, b: Row)
    requires UniqueRows([c, a, b]) && AllNamed([c, a, b])
    requires ParentKey(c) == a.session.id && ParentKey(a) == b.session.id && ParentKey(b) == a.session.id
    ensures OrderByRank([c, a, b], rank) == [c, a, b]
  {
    var rows := [c, a, b];
    assert rows[0] == c && rows[1] == a && rows[2] == b;
    assert c.session.id != a.session.id && a.session.id != b.session.id && c.session.id != b.session.id;
    NoneUnder(rows, rank, None);
    NoneUnder(rows, rank, c.session.id);
    RowGraphIsClosed(rows, rank);
    CycleWalk(rows, rank, c, a, b);
    assert Siblings(rows, rank, None) + rows == rows;
  }

  lemma CycleWalk(rows: seq<Row>, rank: Ranking, c: Row, a: Row, b: Row)
    requires rows == [c, a, b] && c != a && a != b && c != b && RowKids(rows, rank)(c) == []
    requires Closed(RowGraph(rows, rank)) && Within(RowGraph(rows, rank), rows)
    ensures Walk(RowGraph(rows, rank), rows, {}) == rows
  {
    assert rows == [c] + [a, b] && {} + {c} == {c};
    StepRow(rows, rank, c, [a, b], {});
    assert RowKids(rows, rank)(c) + [a, b] == [a, b];
    CycleTail(rows, rank, c, a, b);
  }

  lemma CycleTail(rows: seq<Row>, rank: Ranking, c: Row, a: Row, b: Row)
    requires rows == [c, a, b] && c != a && a != b && c != b
    requires Closed(RowGraph(rows, rank)) && Within(RowGraph(rows, rank), [a, b])
    ensures Walk(RowGraph(rows, rank), [a, b], {c}) == [a, b]
  {
    assert [a, b] == [a] + [b];
    StepRow(rows, rank, a, [b], {c});
    OnlyOneLeft(rows, rank, RowKids(rows, rank)(a) + [b], {c} + {a}, b);
  }

  lemma StepRow(rows: seq<Row>, rank: Ranking, x: Row, rest: seq<Row>, visited: set<Row>)
    requires Closed(RowGraph(rows, rank)) && Within(RowGraph(rows, rank), [x] + rest) && x !in visited
    ensures Within(RowGraph(rows, rank), RowKids(rows, rank)(x) + rest)
    ensures Walk(RowGraph(rows, rank), [x] + rest, visited)
            == [x] + Walk(RowGraph(rows, rank), RowKids(rows, rank)(x) + rest, visited + {x})
  {
    WalkStep(RowGraph(rows, rank), [x] + rest, visited);
    assert ([x] + rest)[1..] == rest;
  }

  lemma OnlyOneLeft(rows: seq<Row>, rank: Ranking, work: seq<Row>, visited: set<Row>, b: Row)
    requires Closed(RowGraph(rows, rank)) && Within(RowGraph(rows, rank), work)
    requires b in work && b !in visited && forall r :: r in rows ==> r in visited || r == b
    ensures Walk(RowGraph(rows, rank), work, visited) == [b]
  {
    var g := RowGraph(rows, rank);
    WalkVisits(g, work, visited);
    var out := Walk(g, work, visited);
    forall r | r in out ensures r == b { assert r in g.all && g.key(r) !in visited; }
    assert g.key(b) in visited + Keys(g, out);
    assert forall i, j :: 0 <= i < j < |out| ==> g.key(out[i]) != g.key(out[j]);
    DistinctSameMembers(out, [b]);
    assert |multiset(out)| == |out|;
  }

  lemma NoneUnder(rows: seq<Row>, rank: Ranking, key: Option<SessionId>)
    requires forall r :: r in rows ==> ParentKey(r) != key
    ensures Siblings(rows, rank, key) == []
  {
    FilterNone(IsUnder(key), rows);
  }
}
