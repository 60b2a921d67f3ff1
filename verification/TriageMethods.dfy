/**
 The loops of orderDelegationSessionRowsByRank and orderTriageSessionRows,
 with the maps, the slot array and the counter they update, proved to compute
 the orders that the theorems are about.
 */
module TriageMethods {
  import opened Common
  import opened Sequences
  import opened Preorder
  import opened SessionModel
  import opened DelegationSessions
  import opened SessionTriage
  import opened SessionOrder
  import opened RowOrder
  import opened TriageOrder
  import S = Slots

  // ----- orderDelegationSessionRowsByRank

  type ChildRows = map<SessionId, seq<Row>>

  function ChildrenAt(children: ChildRows, id: SessionId): seq<Row> {
    if id in children then children[id] else []
  }

  ghost predicate Gathers(roots: seq<Row>, children: ChildRows, seen: seq<Row>) {
    && roots == Filter(IsUnder(None), seen)
    && forall id: SessionId :: ChildrenAt(children, id) == Filter(IsUnder(Some(id)), seen)
  }

  lemma GathersStep(roots: seq<Row>, children: ChildRows, seen: seq<Row>, row: Row)
    requires Gathers(roots, children, seen)
    ensures var key := ParentKey(row);
            if key.None? then Gathers(roots + [row], children, seen + [row])
            else Gathers(roots, children[key.value := ChildrenAt(children, key.value) + [row]], seen + [row])
  {
    FilterSnoc(IsUnder(None), seen, row);
    forall id: SessionId
      ensures Filter(IsUnder(Some(id)), seen + [row])
              == if ParentKey(row) == Some(id) then Filter(IsUnder(Some(id)), seen) + [row] else Filter(IsUnder(Some(id)), seen)
    {
      FilterSnoc(IsUnder(Some(id)), seen, row);
    }
  }

  method PartitionRows(rows: seq<Row>) returns (roots: seq<Row>, children: ChildRows)
    ensures Gathers(roots, children, rows)
  {
    roots, children := [], map[];
    for i := 0 to |rows|
      invariant Gathers(roots, children, rows[..i])
    {
      var row := rows[i];
      assert rows[..i + 1] == rows[..i] + [row];
      GathersStep(roots, children, rows[..i], row);
      if ParentKey(row).None? {
        roots := roots + [row];
      } else {
        children := children[ParentKey(row).value := ChildrenAt(children, ParentKey(row).value) + [row]];
      }
    }
    assert rows[..|rows|] == rows;
  }

  function SortedKids(children: ChildRows, rank: Ranking): Row -> seq<Row> {
    (row: Row) => if row.session.id.Some? then StableSort(ByRank(rank), ChildrenAt(children, row.session.id.value)) else []
  }

  method OrderDelegationSessionRowsByRank(rows: seq<Row>, rank: Ranking) returns (ordered: seq<Row>)
    ensures ordered == OrderByRank(rows, rank)
  {
    var roots, children := PartitionRows(rows);
    var g := Graph(RowSet(rows), Itself, SortedKids(children, rank));
    ghost var h := RowGraph(rows, rank);
    RowGraphIsClosed(rows, rank);
    assert forall x :: x in g.all ==> g.kids(x) == h.kids(x);
    var tops := StableSort(ByRank(rank), roots);
    WalkSame(g, h, tops + rows, {});
    WalkAppend(g, tops, rows, {});
    var first, seen := AppendTrees(g, tops, {});
    var second, _ := AppendTrees(g, rows, seen);
    ordered := first + second;
  }

  // ----- the slots of one group

  /** findIndex over the slot array. */
  method FindFree(slots: array<Option<Row>>, from: nat) returns (k: nat)
    requires from <= slots.Length
    ensures k == S.FirstFree(slots[..], from)
  {
    k := from;
    while k < slots.Length && slots[k].Some?
      invariant from <= k <= slots.Length
      invariant S.FirstFree(slots[..], from) == S.FirstFree(slots[..], k)
    {
      k := k + 1;
    }
  }

  method ChooseSlot(slots: array<Option<Row>>, wanted: nat) returns (k: nat)
    requires S.FreeCount(slots[..]) > 0
    ensures k == S.Choose(slots[..], wanted)
  {
    S.HasFree(slots[..]);
    k := FindFree(slots, if wanted < slots.Length then wanted else slots.Length - 1);
    if k == slots.Length { k := FindFree(slots, 0); }
  }

  lemma PlaceNext(n: nat, ps: seq<S.Placement<Row>>, i: nat)
    requires i < |ps| <= n
    ensures var slots := S.PlaceAll(n, ps[..i]);
            S.FreeCount(slots) > 0 && S.PlaceAll(n, ps[..i + 1]) == slots[S.Choose(slots, ps[i].wanted) := Some(ps[i].row)]
  {
    assert ps[..i + 1][..i] == ps[..i];
  }

  method PlaceManual(group: seq<Row>, applied: seq<Identity>) returns (slots: array<Option<Row>>)
    requires |applied| <= |group| && forall x :: x in applied ==> HasSession(group, x.sessionId)
    ensures fresh(slots) && slots[..] == S.PlaceAll(|group|, PlacementsOf(group, applied))
  {
    slots := new Option<Row>[|group|](_ => None);
    ghost var ps := PlacementsOf(group, applied);
    assert slots[..] == S.PlaceAll(|group|, ps[..0]);
    for i := 0 to |applied|
      invariant slots[..] == S.PlaceAll(|group|, ps[..i])
    {
      PlaceNext(|group|, ps, i);
      var x := applied[i];
      var slot := ChooseSlot(slots, if x.position.Some? then x.position.value else i);
      slots[slot] := Some(SessionRow(group, x.sessionId));
    }
    assert ps[..|applied|] == ps;
  }

  lemma {:induction false} FillInSnoc(slots: seq<Option<Row>>, rest: seq<Row>, slot: Option<Row>, x: Row)
    requires S.FreeCount(slots) == |rest| && (slot.Some? ==> slot.value == x)
    ensures var more := if slot.None? then rest + [x] else rest;
            S.FreeCount(slots + [slot]) == |more| && S.FillIn(slots + [slot], more) == S.FillIn(slots, rest) + [x]
    decreases |slots|
  {
    if slots == [] {
      assert slots + [slot] == [slot] && [slot][1..] == [];
    } else {
      assert (slots + [slot])[1..] == slots[1..] + [slot];
      if slots[0].Some? {
        FillInSnoc(slots[1..], rest, slot, x);
      } else {
        FillInSnoc(slots[1..], rest[1..], slot, x);
        assert (rest + [x])[1..] == rest[1..] + [x];
      }
    }
  }

  lemma {:induction false} FreePrefix(slots: seq<Option<Row>>, k: nat)
    requires k <= |slots|
    ensures S.FreeCount(slots) == S.FreeCount(slots[..k]) + S.FreeCount(slots[k..])
    decreases k
  {
    if k == 0 {
      assert slots[0..] == slots;
    } else {
      FreePrefix(slots[1..], k - 1);
      assert slots[1..][..k - 1] == slots[..k][1..] && slots[1..][k - 1..] == slots[k..];
    }
  }

  method FillGaps(slots: array<Option<Row>>, rest: seq<Row>) returns (out: seq<Row>)
    requires S.FreeCount(slots[..]) == |rest|
    ensures out == S.FillIn(slots[..], rest)
  {
    out := [];
    var next := 0;
    ghost var all := slots[..];
    for k := 0 to slots.Length
      invariant 0 <= next <= |rest| && S.FreeCount(all[..k]) == next
      invariant out == S.FillIn(all[..k], rest[..next])
    {
      assert all[..k + 1] == all[..k] + [all[k]];
      FreePrefix(all, k);
      if slots[k].Some? {
        FillInSnoc(all[..k], rest[..next], slots[k], slots[k].value);
        out := out + [slots[k].value];
      } else {
        FillInSnoc(all[..k], rest[..next], slots[k], rest[next]);
        assert rest[..next + 1] == rest[..next] + [rest[next]];
        out := out + [rest[next]];
        next := next + 1;
      }
    }
    assert all[..slots.Length] == all && rest[..next] == rest;
  }

  method ArrangeGroup(group: seq<Row>, manual: seq<Identity>, machine: string, tier: Tier) returns (out: seq<Row>)
    requires Distinct(group) && DistinctIdentities(manual)
    ensures out == Shown(group, manual, machine, tier)
  {
    PlacementsFit(group, manual, machine, tier);
    ghost var ps := Placements(group, manual, machine, tier);
    S.CountsAgree(group, ps);
    var applied := Filter(Applies(group, machine, tier), manual);
    var slots := PlaceManual(group, applied);
    var positioned := set x | x in applied :: SessionRow(group, x.sessionId);
    var isFree := (row: Row) => row !in positioned;
    forall row ensures isFree(row) <==> S.IsUnplaced(ps)(row) { PositionedMeans(group, applied, row); }
    FilterSame(isFree, S.IsUnplaced(ps), group);
    out := FillGaps(slots, Filter(isFree, group));
  }

  lemma PositionedMeans(group: seq<Row>, applied: seq<Identity>, row: Row)
    requires forall x :: x in applied ==> HasSession(group, x.sessionId)
    ensures (exists x :: x in applied && SessionRow(group, x.sessionId) == row) <==> S.IsPlaced(PlacementsOf(group, applied))(row)
  {
    var ps := PlacementsOf(group, applied);
    if x :| x in applied && SessionRow(group, x.sessionId) == row {
      var i :| 0 <= i < |applied| && applied[i] == x;
      assert ps[i] in ps;
    }
    if S.IsPlaced(ps)(row) {
      var p :| p in ps && p.row == row;
      var i :| 0 <= i < |ps| && ps[i] == p;
      assert applied[i] in applied;
    }
  }

  // ----- grouping the automatic order

  type TierLists = map<Option<SessionId>, seq<Tier>>
  type Groups = map<(Option<SessionId>, Tier), seq<Row>>

  function TiersAt(tiers: TierLists, key: Option<SessionId>): seq<Tier> {
    if key in tiers then tiers[key] else []
  }

  function GroupAt(groups: Groups, key: Option<SessionId>, tier: Tier): seq<Row> {
    if (key, tier) in groups then groups[(key, tier)] else []
  }

  ghost predicate Collated(best: map<Row, Session>, keys: seq<Option<SessionId>>, tiers: TierLists, groups: Groups, seen: seq<Row>) {
    && keys == KeysIn(seen)
    && (forall k :: TiersAt(tiers, k) == TiersIn(best, Filter(IsUnder(k), seen)))
    && (forall k, t :: GroupAt(groups, k, t) == Filter(InGroup(best, k, t), seen))
  }

  lemma TiersSnoc(best: map<Row, Session>, seen: seq<Row>, row: Row, k: Option<SessionId>)
    ensures TiersIn(best, Filter(IsUnder(k), seen + [row]))
            == var before := TiersIn(best, Filter(IsUnder(k), seen));
               if k == ParentKey(row) && TierOf(best, row) !in before then before + [TierOf(best, row)] else before
  {
    FilterSnoc(IsUnder(k), seen, row);
    var under := Filter(IsUnder(k), seen);
    assert (under + [row])[..|under|] == under;
  }

  lemma KeysSnoc(seen: seq<Row>, row: Row)
    ensures KeysIn(seen + [row]) == if ParentKey(row) in KeysIn(seen) then KeysIn(seen) else KeysIn(seen) + [ParentKey(row)]
  {
    assert (seen + [row])[..|seen|] == seen;
  }

  /** siblings: for each parent, its tiers in the order they are met, and the rows of each. */
  method GroupSiblings(best: map<Row, Session>, automatic: seq<Row>)
    returns (keys: seq<Option<SessionId>>, tiers: TierLists, groups: Groups)
    ensures Collated(best, keys, tiers, groups, automatic)
  {
    keys, tiers, groups := [], map[], map[];
    for i := 0 to |automatic|
      invariant Collated(best, keys, tiers, groups, automatic[..i])
    {
      assert automatic[..i + 1] == automatic[..i] + [automatic[i]];
      keys, tiers, groups := AddRow(best, keys, tiers, groups, automatic[i], automatic[..i]);
    }
    assert automatic[..|automatic|] == automatic;
  }

  method AddRow(best: map<Row, Session>, keys0: seq<Option<SessionId>>, tiers0: TierLists, groups0: Groups, row: Row, ghost seen: seq<Row>)
    returns (keys: seq<Option<SessionId>>, tiers: TierLists, groups: Groups)
    requires Collated(best, keys0, tiers0, groups0, seen)
    ensures Collated(best, keys, tiers, groups, seen + [row])
  {
    var key, tier := ParentKey(row), TierOf(best, row);
    keys := if key in keys0 then keys0 else keys0 + [key];
    var met := TiersAt(tiers0, key);
    tiers := tiers0[key := if tier in met then met else met + [tier]];
    groups := groups0[(key, tier) := GroupAt(groups0, key, tier) + [row]];
    KeysSnoc(seen, row);
    forall k ensures TiersAt(tiers, k) == TiersIn(best, Filter(IsUnder(k), seen + [row])) { TiersSnoc(best, seen, row, k); }
    forall k, t ensures GroupAt(groups, k, t) == Filter(InGroup(best, k, t), seen + [row]) {
      FilterSnoc(InGroup(best, k, t), seen, row);
      assert InGroup(best, k, t)(row) <==> (k, t) == (key, tier);
    }
  }

  // ----- orderTriageSessionRows

  lemma {:induction false} TiersOrderSnoc(rows: seq<Row>, manual: seq<Identity>, machine: string, key: Option<SessionId>, tiers: seq<Tier>, t: Tier)
    requires Distinct(rows) && DistinctIdentities(manual)
    ensures Distinct(Group(rows, key, t))
    ensures TiersOrder(rows, manual, machine, key, tiers + [t])
            == TiersOrder(rows, manual, machine, key, tiers) + Shown(Group(rows, key, t), manual, machine, t)
    decreases |tiers|
  {
    GroupIsDistinct(rows, key, t);
    if tiers == [] {
      assert tiers + [t] == [t] + [];
      TiersOrderCons(rows, manual, machine, key, t, []);
    } else {
      var first, rest := tiers[0], tiers[1..];
      assert tiers == [first] + rest && tiers + [t] == [first] + (rest + [t]);
      TiersOrderCons(rows, manual, machine, key, first, rest);
      TiersOrderCons(rows, manual, machine, key, first, rest + [t]);
      TiersOrderSnoc(rows, manual, machine, key, rest, t);
      ConcatAssociates(Shown(Group(rows, key, first), manual, machine, first), TiersOrder(rows, manual, machine, key, rest),
                       Shown(Group(rows, key, t), manual, machine, t));
    }
  }

  lemma {:induction false} KeysOrderSnoc(rows: seq<Row>, manual: seq<Identity>, machine: string, keys: seq<Option<SessionId>>, key: Option<SessionId>)
    requires Distinct(rows) && DistinctIdentities(manual)
    ensures KeysOrder(rows, manual, machine, keys + [key])
            == KeysOrder(rows, manual, machine, keys) + UnderOrder(rows, manual, machine, key)
    decreases |keys|
  {
    if keys == [] {
      assert keys + [key] == [key] + [];
      KeysOrderCons(rows, manual, machine, key, []);
    } else {
      var first, rest := keys[0], keys[1..];
      assert keys == [first] + rest && keys + [key] == [first] + (rest + [key]);
      KeysOrderCons(rows, manual, machine, first, rest);
      KeysOrderCons(rows, manual, machine, first, rest + [key]);
      KeysOrderSnoc(rows, manual, machine, rest, key);
      ConcatAssociates(UnderOrder(rows, manual, machine, first), KeysOrder(rows, manual, machine, rest),
                       UnderOrder(rows, manual, machine, key));
    }
  }

  method TriageUnder(rows: seq<Row>, manual: seq<Identity>, machine: string, ghost keys: seq<Option<SessionId>>, tierLists: TierLists,
                     groups: Groups, key: Option<SessionId>)
    returns (out: seq<Row>)
    requires Distinct(rows) && DistinctIdentities(manual) && Collated(Priorities(rows), keys, tierLists, groups, Automatic(rows))
    ensures out == UnderOrder(rows, manual, machine, key)
  {
    var tiers := TiersAt(tierLists, key);
    out := [];
    for j := 0 to |tiers|
      invariant out == TiersOrder(rows, manual, machine, key, tiers[..j])
    {
      TiersOrderSnoc(rows, manual, machine, key, tiers[..j], tiers[j]);
      PrefixSnoc(tiers, j);
      var shown := ArrangeGroup(GroupAt(groups, key, tiers[j]), manual, machine, tiers[j]);
      out := out + shown;
    }
    assert tiers[..|tiers|] == tiers;
  }

  method TriageAll(rows: seq<Row>, manual: seq<Identity>, machine: string, keys: seq<Option<SessionId>>, tiers: TierLists, groups: Groups)
    returns (list: seq<Row>)
    requires Distinct(rows) && DistinctIdentities(manual) && Collated(Priorities(rows), keys, tiers, groups, Automatic(rows))
    ensures list == TriageList(rows, manual, machine)
  {
    list := [];
    for i := 0 to |keys|
      invariant list == KeysOrder(rows, manual, machine, keys[..i])
    {
      KeysOrderSnoc(rows, manual, machine, keys[..i], keys[i]);
      PrefixSnoc(keys, i);
      var under := TriageUnder(rows, manual, machine, keys, tiers, groups, keys[i]);
      list := list + under;
    }
    assert keys[..|keys|] == keys;
  }

  method OrderTriageSessionRows(rows: seq<Row>, manual: seq<Identity>, machine: string) returns (ordered: seq<Row>)
    requires Distinct(rows) && DistinctIdentities(manual)
    ensures ordered == OrderTriage(rows, manual, machine)
  {
    var best := SessionTriagePriorities(rows);
    var automatic := StableSort(ByUrgency(best), rows);
    var keys, tiers, groups := GroupSiblings(best, automatic);
    var list := TriageAll(rows, manual, machine, keys, tiers, groups);
    ordered := OrderDelegationSessionRowsByRank(automatic, Ranks(list));
  }
}
