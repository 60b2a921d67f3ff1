/**
 orderTriageSessionRows of public/session-triage.ts: siblings by tier, inside
 a tier by recency with slots reserved for rows that were placed by hand.
 */
module TriageOrder {
  import opened Common
  import opened Sequences
  import opened SessionModel
  import opened SessionTriage
  import opened SessionOrder
  import opened RowOrder
  import S = Slots

  // ----- automatic order

  function BestOf(best: map<Row, Session>, row: Row): Session {
    if row in best then best[row] else row.session
  }

  function TierOf(best: map<Row, Session>, row: Row): Tier {
    BestOf(best, row).tier
  }

  function ByUrgency(best: map<Row, Session>): (Row, Row) -> bool {
    (a: Row, b: Row) => AtLeastAsUrgent(BestOf(best, a), BestOf(best, b))
  }

  lemma ByUrgencyIsTotal(best: map<Row, Session>)
    ensures TotalPreorder(ByUrgency(best))
  {
    CompareIsTotalPreorder();
  }

  function Automatic(rows: seq<Row>): seq<Row> {
    StableSort(ByUrgency(Priorities(rows)), rows)
  }

  // ----- groups

  /** Siblings of one tier. */
  function InGroup(best: map<Row, Session>, key: Option<SessionId>, tier: Tier): Row -> bool {
    (row: Row) => ParentKey(row) == key && TierOf(best, row) == tier
  }

  function Group(rows: seq<Row>, key: Option<SessionId>, tier: Tier): seq<Row> {
    Filter(InGroup(Priorities(rows), key, tier), Automatic(rows))
  }

  /** The manual identities that place a row of the group. */
  function Applies(group: seq<Row>, machine: string, tier: Tier): Identity -> bool {
    (x: Identity) => x.machine == machine && HasSession(group, x.sessionId) && (x.tier.None? || x.tier.value == tier)
  }

  predicate HasSession(group: seq<Row>, sessionId: string) {
    exists row :: row in group && row.session.id.Some? && row.session.id.value == sessionId
  }

  function SessionRow(group: seq<Row>, sessionId: string): (row: Row)
    requires HasSession(group, sessionId)
    ensures row in group && row.session.id.Some? && row.session.id.value == sessionId
    decreases |group|
  {
    var last := group[|group| - 1];
    if last.session.id.Some? && last.session.id.value == sessionId then last
    else
      assert group == group[..|group| - 1] + [last];
      SessionRow(group[..|group| - 1], sessionId)
  }

  function PlacementOf(group: seq<Row>, x: Identity, legacyRank: nat): S.Placement<Row>
    requires HasSession(group, x.sessionId)
  {
    S.Placement(SessionRow(group, x.sessionId), if x.position.Some? then x.position.value else legacyRank)
  }

  function PlacementsOf(group: seq<Row>, manual: seq<Identity>): (r: seq<S.Placement<Row>>)
    requires forall x :: x in manual ==> HasSession(group, x.sessionId)
    ensures |r| == |manual| && forall i :: 0 <= i < |r| ==> r[i] == PlacementOf(group, manual[i], i)
  {
    seq(|manual|, i requires 0 <= i < |manual| => PlacementOf(group, manual[i], i))
  }

  function Placements(group: seq<Row>, manual: seq<Identity>, machine: string, tier: Tier): seq<S.Placement<Row>> {
    PlacementsOf(group, Filter(Applies(group, machine, tier), manual))
  }

  /** Distinct identities place distinct rows of the group. */
  lemma PlacementsFit(group: seq<Row>, manual: seq<Identity>, machine: string, tier: Tier)
    requires Distinct(group) && DistinctIdentities(manual)
    ensures S.Fits(group, Placements(group, manual, machine, tier))
  {
    var applied := Filter(Applies(group, machine, tier), manual);
    FilterDistinctIdentities(Applies(group, machine, tier), manual);
    var ps := Placements(group, manual, machine, tier);
    forall i, j | 0 <= i < j < |ps| ensures ps[i].row != ps[j].row {
      assert !Same(applied[i], applied[j]);
      assert applied[i] in applied && applied[j] in applied;
    }
  }

  /** The rows of a group in the order they are shown. */
  function Shown(group: seq<Row>, manual: seq<Identity>, machine: string, tier: Tier): (out: seq<Row>)
    requires Distinct(group) && DistinctIdentities(manual)
    ensures |out| == |group|
  {
    PlacementsFit(group, manual, machine, tier);
    S.Arrange(group, Placements(group, manual, machine, tier))
  }

  lemma ShownPermutes(group: seq<Row>, manual: seq<Identity>, machine: string, tier: Tier)
    requires Distinct(group) && DistinctIdentities(manual)
    ensures Distinct(Shown(group, manual, machine, tier))
    ensures forall x :: x in Shown(group, manual, machine, tier) <==> x in group
  {
    PlacementsFit(group, manual, machine, tier);
    S.ArrangePermutes(group, Placements(group, manual, machine, tier));
  }

  // ----- the triage list

  /** The tiers of a sequence of rows in the order they are first met. */
  function TiersIn(best: map<Row, Session>, rows: seq<Row>): (r: seq<Tier>)
    ensures Distinct(r) && forall t :: t in r <==> exists x :: x in rows && TierOf(best, x) == t
    decreases |rows|
  {
    if rows == [] then [] else
    var init, last := rows[..|rows| - 1], rows[|rows| - 1];
    assert rows == init + [last];
    var before := TiersIn(best, init);
    if TierOf(best, last) in before then before else before + [TierOf(best, last)]
  }

  function KeysIn(rows: seq<Row>): (r: seq<Option<SessionId>>)
    ensures Distinct(r) && forall k :: k in r <==> exists x :: x in rows && ParentKey(x) == k
    decreases |rows|
  {
    if rows == [] then [] else
    var init, last := rows[..|rows| - 1], rows[|rows| - 1];
    assert rows == init + [last];
    var before := KeysIn(init);
    if ParentKey(last) in before then before else before + [ParentKey(last)]
  }

  lemma GroupIsDistinct(rows: seq<Row>, key: Option<SessionId>, tier: Tier)
    requires Distinct(rows)
    ensures Distinct(Automatic(rows)) && Distinct(Group(rows, key, tier))
    ensures forall r :: r in Automatic(rows) <==> r in rows
  {
    SortDistinct(ByUrgency(Priorities(rows)), rows);
    SortPermutes(ByUrgency(Priorities(rows)), rows);
    FilterDistinct(InGroup(Priorities(rows), key, tier), Automatic(rows));
  }

  function TiersOrder(rows: seq<Row>, manual: seq<Identity>, machine: string, key: Option<SessionId>, tiers: seq<Tier>): seq<Row>
    requires Distinct(rows) && DistinctIdentities(manual)
    decreases |tiers|
  {
    if tiers == [] then [] else
    GroupIsDistinct(rows, key, tiers[0]);
    Shown(Group(rows, key, tiers[0]), manual, machine, tiers[0]) + TiersOrder(rows, manual, machine, key, tiers[1..])
  }

  function Under(rows: seq<Row>, key: Option<SessionId>): seq<Row> {
    Filter(IsUnder(key), Automatic(rows))
  }

  /** All rows under `key`, tier by tier. */
  function UnderOrder(rows: seq<Row>, manual: seq<Identity>, machine: string, key: Option<SessionId>): seq<Row>
    requires Distinct(rows) && DistinctIdentities(manual)
  {
    TiersOrder(rows, manual, machine, key, TiersIn(Priorities(rows), Under(rows, key)))
  }

  function KeysOrder(rows: seq<Row>, manual: seq<Identity>, machine: string, keys: seq<Option<SessionId>>): seq<Row>
    requires Distinct(rows) && DistinctIdentities(manual)
    decreases |keys|
  {
    if keys == [] then [] else UnderOrder(rows, manual, machine, keys[0]) + KeysOrder(rows, manual, machine, keys[1..])
  }

  function TriageList(rows: seq<Row>, manual: seq<Identity>, machine: string): seq<Row>
    requires Distinct(rows) && DistinctIdentities(manual)
  {
    KeysOrder(rows, manual, machine, KeysIn(Automatic(rows)))
  }

  function Ranks(list: seq<Row>): map<Row, int> {
    map row | row in list :: LastIndex(list, row)
  }

  function LastIndex(list: seq<Row>, row: Row): (k: int)
    ensures -1 <= k < |list| && (k >= 0 ==> list[k] == row) && (k == -1 ==> row !in list)
    ensures forall j :: k < j < |list| ==> list[j] != row
    decreases |list|
  {
    if list == [] then -1
    else if list[|list| - 1] == row then |list| - 1
    else
      assert list == list[..|list| - 1] + [list[|list| - 1]];
      LastIndex(list[..|list| - 1], row)
  }

  /** orderTriageSessionRows. */
  ghost function OrderTriage(rows: seq<Row>, manual: seq<Identity>, machine: string): seq<Row>
    requires Distinct(rows) && DistinctIdentities(manual)
  {
    OrderByRank(Automatic(rows), Ranks(TriageList(rows, manual, machine)))
  }

  // ----- what the list holds

  lemma TiersOrderCons(rows: seq<Row>, manual: seq<Identity>, machine: string, key: Option<SessionId>, t: Tier, rest: seq<Tier>)
    requires Distinct(rows) && DistinctIdentities(manual)
    ensures Distinct(Group(rows, key, t))
    ensures TiersOrder(rows, manual, machine, key, [t] + rest)
            == Shown(Group(rows, key, t), manual, machine, t) + TiersOrder(rows, manual, machine, key, rest)
  {
    GroupIsDistinct(rows, key, t);
    assert ([t] + rest)[1..] == rest;
  }

  lemma KeysOrderCons(rows: seq<Row>, manual: seq<Identity>, machine: string, key: Option<SessionId>, rest: seq<Option<SessionId>>)
    requires Distinct(rows) && DistinctIdentities(manual)
    ensures KeysOrder(rows, manual, machine, [key] + rest)
            == UnderOrder(rows, manual, machine, key) + KeysOrder(rows, manual, machine, rest)
  {
    assert ([key] + rest)[1..] == rest;
  }

  lemma {:induction false} TiersOrderMembers(rows: seq<Row>, manual: seq<Identity>, machine: string, key: Option<SessionId>, tiers: seq<Tier>, x: Row)
    requires Distinct(rows) && DistinctIdentities(manual)
    ensures x in TiersOrder(rows, manual, machine, key, tiers)
            <==> x in rows && ParentKey(x) == key && TierOf(Priorities(rows), x) in tiers
    decreases |tiers|
  {
    if tiers != [] {
      TiersOrderMembers(rows, manual, machine, key, tiers[1..], x);
      GroupIsDistinct(rows, key, tiers[0]);
      ShownPermutes(Group(rows, key, tiers[0]), manual, machine, tiers[0]);
      assert tiers == [tiers[0]] + tiers[1..];
    }
  }

  lemma {:induction false} TiersOrderDistinct(rows: seq<Row>, manual: seq<Identity>, machine: string, key: Option<SessionId>, tiers: seq<Tier>)
    requires Distinct(rows) && DistinctIdentities(manual) && Distinct(tiers)
    ensures Distinct(TiersOrder(rows, manual, machine, key, tiers))
    decreases |tiers|
  {
    if tiers != [] {
      TiersOrderDistinct(rows, manual, machine, key, tiers[1..]);
      GroupIsDistinct(rows, key, tiers[0]);
      var shown, rest := Shown(Group(rows, key, tiers[0]), manual, machine, tiers[0]), TiersOrder(rows, manual, machine, key, tiers[1..]);
      ShownPermutes(Group(rows, key, tiers[0]), manual, machine, tiers[0]);
      forall x | x in shown ensures x !in rest {
        TiersOrderMembers(rows, manual, machine, key, tiers[1..], x);
        assert tiers[0] !in tiers[1..];
      }
      DistinctAppend(shown, rest);
    }
  }

  lemma ShownIsOneTier(rows: seq<Row>, manual: seq<Identity>, machine: string, key: Option<SessionId>, t: Tier, tier: Tier, rest: seq<Row>)
    requires Distinct(rows) && DistinctIdentities(manual)
    ensures Distinct(Group(rows, key, t))
    ensures var shown := Shown(Group(rows, key, t), manual, machine, t);
            Filter(InGroup(Priorities(rows), key, tier), shown + rest)
            == (if t == tier then shown else []) + Filter(InGroup(Priorities(rows), key, tier), rest)
  {
    GroupIsDistinct(rows, key, t);
    ShownPermutes(Group(rows, key, t), manual, machine, t);
    FilterWhole(InGroup(Priorities(rows), key, tier), Shown(Group(rows, key, t), manual, machine, t), rest, t == tier);
  }

  lemma TiersOrderStep(rows: seq<Row>, manual: seq<Identity>, machine: string, key: Option<SessionId>, t: Tier, rest: seq<Tier>, tier: Tier)
    requires Distinct(rows) && DistinctIdentities(manual)
    ensures Distinct(Group(rows, key, t))
    ensures Filter(InGroup(Priorities(rows), key, tier), TiersOrder(rows, manual, machine, key, [t] + rest))
            == (if t == tier then Shown(Group(rows, key, t), manual, machine, t) else [])
               + Filter(InGroup(Priorities(rows), key, tier), TiersOrder(rows, manual, machine, key, rest))
  {
    TiersOrderCons(rows, manual, machine, key, t, rest);
    ShownIsOneTier(rows, manual, machine, key, t, tier, TiersOrder(rows, manual, machine, key, rest));
  }

  /** Restricting a tier-by-tier order to one tier gives that group as it is shown. */
  lemma {:induction false} TiersOrderGroup(rows: seq<Row>, manual: seq<Identity>, machine: string, key: Option<SessionId>, tiers: seq<Tier>, tier: Tier)
    requires Distinct(rows) && DistinctIdentities(manual) && Distinct(tiers)
    ensures Distinct(Group(rows, key, tier))
    ensures Filter(InGroup(Priorities(rows), key, tier), TiersOrder(rows, manual, machine, key, tiers))
            == if tier in tiers then Shown(Group(rows, key, tier), manual, machine, tier) else []
    decreases |tiers|
  {
    GroupIsDistinct(rows, key, tier);
    if tiers != [] {
      var t, rest := tiers[0], tiers[1..];
      assert tiers == [t] + rest && t !in rest;
      TiersOrderGroup(rows, manual, machine, key, rest, tier);
      TiersOrderStep(rows, manual, machine, key, t, rest, tier);
    }
  }

  lemma UnderOrderMembers(rows: seq<Row>, manual: seq<Identity>, machine: string, key: Option<SessionId>)
    requires Distinct(rows) && DistinctIdentities(manual)
    ensures Distinct(UnderOrder(rows, manual, machine, key))
    ensures forall x :: x in UnderOrder(rows, manual, machine, key) <==> x in rows && ParentKey(x) == key
  {
    var tiers := TiersIn(Priorities(rows), Under(rows, key));
    TiersOrderDistinct(rows, manual, machine, key, tiers);
    SortPermutes(ByUrgency(Priorities(rows)), rows);
    forall x ensures x in UnderOrder(rows, manual, machine, key) <==> x in rows && ParentKey(x) == key {
      TiersOrderMembers(rows, manual, machine, key, tiers, x);
      if x in rows && ParentKey(x) == key { assert x in Under(rows, key); }
    }
  }

  /** Under a parent, each group is shown as `Shown` says. */
  lemma UnderOrderGroup(rows: seq<Row>, manual: seq<Identity>, machine: string, key: Option<SessionId>, tier: Tier)
    requires Distinct(rows) && DistinctIdentities(manual)
    ensures Distinct(Group(rows, key, tier))
    ensures Filter(InGroup(Priorities(rows), key, tier), UnderOrder(rows, manual, machine, key))
            == Shown(Group(rows, key, tier), manual, machine, tier)
  {
    var tiers := TiersIn(Priorities(rows), Under(rows, key));
    TiersOrderGroup(rows, manual, machine, key, tiers, tier);
    assert forall x :: x in Automatic(rows) && IsUnder(key)(x) ==> x in Under(rows, key);
    assert forall x :: x in Under(rows, key) ==> TierOf(Priorities(rows), x) in tiers;
    if tier !in tiers {
      FilterNone(InGroup(Priorities(rows), key, tier), Automatic(rows));
    }
  }

  lemma {:induction false} KeysOrderMembers(rows: seq<Row>, manual: seq<Identity>, machine: string, keys: seq<Option<SessionId>>, x: Row)
    requires Distinct(rows) && DistinctIdentities(manual)
    ensures x in KeysOrder(rows, manual, machine, keys) <==> x in rows && ParentKey(x) in keys
    decreases |keys|
  {
    if keys != [] {
      KeysOrderMembers(rows, manual, machine, keys[1..], x);
      UnderOrderMembers(rows, manual, machine, keys[0]);
      assert keys == [keys[0]] + keys[1..];
    }
  }

  lemma UnderOrderIsUnder(rows: seq<Row>, manual: seq<Identity>, machine: string, k: Option<SessionId>, key: Option<SessionId>, rest: seq<Row>)
    requires Distinct(rows) && DistinctIdentities(manual)
    ensures var under := UnderOrder(rows, manual, machine, k);
            Filter(IsUnder(key), under + rest) == (if k == key then under else []) + Filter(IsUnder(key), rest)
  {
    UnderOrderMembers(rows, manual, machine, k);
    FilterWhole(IsUnder(key), UnderOrder(rows, manual, machine, k), rest, k == key);
  }

  lemma {:induction false} KeysOrderUnder(rows: seq<Row>, manual: seq<Identity>, machine: string, keys: seq<Option<SessionId>>, key: Option<SessionId>)
    requires Distinct(rows) && DistinctIdentities(manual) && Distinct(keys)
    ensures Filter(IsUnder(key), KeysOrder(rows, manual, machine, keys))
            == if key in keys then UnderOrder(rows, manual, machine, key) else []
    decreases |keys|
  {
    if keys != [] {
      var first, rest := keys[0], keys[1..];
      assert first !in rest && (key in keys <==> key == first || key in rest) by { assert keys == [first] + rest; }
      KeysOrderUnder(rows, manual, machine, rest, key);
      UnderOrderIsUnder(rows, manual, machine, first, key, KeysOrder(rows, manual, machine, rest));
    }
  }

  lemma {:induction false} KeysOrderDistinct(rows: seq<Row>, manual: seq<Identity>, machine: string, keys: seq<Option<SessionId>>)
    requires Distinct(rows) && DistinctIdentities(manual) && Distinct(keys)
    ensures Distinct(KeysOrder(rows, manual, machine, keys))
    decreases |keys|
  {
    if keys != [] {
      var first, rest := UnderOrder(rows, manual, machine, keys[0]), KeysOrder(rows, manual, machine, keys[1..]);
      KeysOrderDistinct(rows, manual, machine, keys[1..]);
      UnderOrderMembers(rows, manual, machine, keys[0]);
      assert keys[0] !in keys[1..];
      forall x | x in first ensures x !in rest { KeysOrderMembers(rows, manual, machine, keys[1..], x); }
      DistinctAppend(first, rest);
    }
  }

  /** The triage list holds every row once, and the rows under a parent as `UnderOrder` says. */
  lemma TriageListUnder(rows: seq<Row>, manual: seq<Identity>, machine: string, key: Option<SessionId>)
    requires Distinct(rows) && DistinctIdentities(manual)
    ensures Distinct(TriageList(rows, manual, machine))
    ensures forall x :: x in TriageList(rows, manual, machine) <==> x in rows
    ensures Filter(IsUnder(key), TriageList(rows, manual, machine)) == UnderOrder(rows, manual, machine, key)
  {
    var keys, u := KeysIn(Automatic(rows)), UnderOrder(rows, manual, machine, key);
    assert u == [] || u[0] in u;
    SortPermutes(ByUrgency(Priorities(rows)), rows);
    KeysOrderUnder(rows, manual, machine, keys, key);
    KeysOrderDistinct(rows, manual, machine, keys);
    forall x ensures x in TriageList(rows, manual, machine) <==> x in rows { KeysOrderMembers(rows, manual, machine, keys, x); }
    UnderOrderMembers(rows, manual, machine, key);
  }

  // ----- ranking by a list

  lemma RanksAre(list: seq<Row>, k: nat)
    requires Distinct(list) && k < |list|
    ensures RankOf(Ranks(list), list[k]) == k
  {
    assert list[k] in list;
    var j := LastIndex(list, list[k]);
    assert j == k;
  }

  /** The rows of `list` in the order of their ranks. */
  ghost predicate Ascends(list: seq<Row>, s: seq<Row>) {
    && Distinct(list) && |s| == |list| && (forall x :: x in s ==> x in list)
    && forall i, j :: 0 <= i < j < |s| ==> RankOf(Ranks(list), s[i]) < RankOf(Ranks(list), s[j])
  }

  lemma {:induction false} RankAtLeast(list: seq<Row>, s: seq<Row>, i: nat)
    requires Ascends(list, s) && i < |s|
    ensures i <= RankOf(Ranks(list), s[i])
    decreases i
  {
    if i > 0 { RankAtLeast(list, s, i - 1); } else { RankIsIndex(list, s[0]); }
  }

  lemma {:induction false} RankAtMost(list: seq<Row>, s: seq<Row>, i: nat)
    requires Ascends(list, s) && i < |s|
    ensures RankOf(Ranks(list), s[i]) <= i
    decreases |s| - i
  {
    if i + 1 < |s| { RankAtMost(list, s, i + 1); } else { RankIsIndex(list, s[i]); }
  }

  lemma RankIsIndex(list: seq<Row>, x: Row)
    requires Distinct(list) && x in list
    ensures 0 <= RankOf(Ranks(list), x) < |list| && list[RankOf(Ranks(list), x)] == x
  {
    var k :| 0 <= k < |list| && list[k] == x;
    RanksAre(list, k);
  }

  /** Sorting by the ranks of a list puts things in the order of the list: each
      row has as many ranks below it as it has rows before it. */
  lemma SortByList(list: seq<Row>, rows: seq<Row>)
    requires Distinct(list) && Distinct(rows) && forall x :: x in list <==> x in rows
    ensures StableSort(ByRank(Ranks(list)), rows) == list
  {
    var s := StableSort(ByRank(Ranks(list)), rows);
    SortedAscends(list, rows);
    forall i | 0 <= i < |s| ensures s[i] == list[i] {
      RankAtLeast(list, s, i);
      RankAtMost(list, s, i);
      RankIsIndex(list, s[i]);
    }
  }

  lemma SortedAscends(list: seq<Row>, rows: seq<Row>)
    requires Distinct(list) && Distinct(rows) && forall x :: x in list <==> x in rows
    ensures Ascends(list, StableSort(ByRank(Ranks(list)), rows))
  {
    var leq := ByRank(Ranks(list));
    var s := StableSort(leq, rows);
    ByRankIsTotal(Ranks(list));
    SortSorts(leq, rows);
    SortPermutes(leq, rows);
    SortDistinct(leq, rows);
    DistinctSameMembers(list, rows);
    assert |multiset(list)| == |list| && |multiset(rows)| == |rows|;
    forall i, j | 0 <= i < j < |s| ensures RankOf(Ranks(list), s[i]) < RankOf(Ranks(list), s[j]) {
      assert s[i] in s && s[j] in s && leq(s[i], s[j]);
      RanksDiffer(list, s[i], s[j]);
    }
  }

  lemma RanksDiffer(list: seq<Row>, x: Row, y: Row)
    requires Distinct(list) && x in list && y in list && x != y
    ensures RankOf(Ranks(list), x) != RankOf(Ranks(list), y)
  {
    RankIsIndex(list, x);
    RankIsIndex(list, y);
  }

  lemma SiblingsByList(list: seq<Row>, rows: seq<Row>, key: Option<SessionId>)
    requires Distinct(list) && Distinct(rows) && forall x :: x in list <==> x in rows
    ensures Siblings(rows, Ranks(list), key) == Filter(IsUnder(key), list)
  {
    ByRankIsTotal(Ranks(list));
    SortFilter(ByRank(Ranks(list)), IsUnder(key), rows);
    SortByList(list, rows);
  }
}
