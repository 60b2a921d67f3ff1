/**
 Re-emitting rows in preorder with siblings sorted by rank:
 orderDelegationSessionRowsByRank of public/session-order.ts.
 */
module RowOrder {
  import opened Common
  import opened Sequences
  import opened Preorder
  import opened Forest
  import opened SessionModel
  import opened SessionTriage

  type Ranking = map<Row, int>

  function RankOf(rank: Ranking, row: Row): int {
    if row in rank then rank[row] else MAX_SAFE_INTEGER
  }

  function ByRank(rank: Ranking): (Row, Row) -> bool {
    (a: Row, b: Row) => RankOf(rank, a) <= RankOf(rank, b)
  }

  lemma ByRankIsTotal(rank: Ranking)
    ensures TotalPreorder(ByRank(rank))
  {
  }

  /** Rows under `key`: the rows at the top, or the children of an id. */
  function IsUnder(key: Option<SessionId>): Row -> bool {
    (row: Row) => ParentKey(row) == key
  }

  /** The rows under `key` in the order they are shown. */
  function Siblings(rows: seq<Row>, rank: Ranking, key: Option<SessionId>): seq<Row> {
    StableSort(ByRank(rank), Filter(IsUnder(key), rows))
  }

  function RowKids(rows: seq<Row>, rank: Ranking): Row -> seq<Row> {
    (row: Row) => if row.session.id.Some? then Siblings(rows, rank, row.session.id) else []
  }

  function Itself(row: Row): Row {
    row
  }

  function RowGraph(rows: seq<Row>, rank: Ranking): Graph<Row, Row> {
    Graph(RowSet(rows), Itself, RowKids(rows, rank))
  }

  lemma SiblingsAre(rows: seq<Row>, rank: Ranking, key: Option<SessionId>, row: Row)
    ensures row in Siblings(rows, rank, key) <==> row in rows && ParentKey(row) == key
  {
    SortPermutes(ByRank(rank), Filter(IsUnder(key), rows));
  }

  lemma RowGraphIsClosed(rows: seq<Row>, rank: Ranking)
    ensures var g := RowGraph(rows, rank);
            Closed(g) && Within(g, Siblings(rows, rank, None)) && Within(g, rows) && Within(g, Siblings(rows, rank, None) + rows)
  {
    var g := RowGraph(rows, rank);
    forall x, y | x in g.all && y in g.kids(x) ensures y in g.all { SiblingsAre(rows, rank, x.session.id, y); }
    forall y | y in Siblings(rows, rank, None) ensures y in g.all { SiblingsAre(rows, rank, None, y); }
  }

  ghost function OrderByRank(rows: seq<Row>, rank: Ranking): seq<Row> {
    RowGraphIsClosed(rows, rank);
    Walk(RowGraph(rows, rank), Siblings(rows, rank, None) + rows, {})
  }

  /** Whatever the parents and ranks, each row comes out exactly once. */
  lemma OrderByRankPermutes(rows: seq<Row>, rank: Ranking)
    requires Distinct(rows)
    ensures multiset(OrderByRank(rows, rank)) == multiset(rows) && Distinct(OrderByRank(rows, rank))
    ensures forall r :: r in OrderByRank(rows, rank) <==> r in rows
  {
    RowGraphIsClosed(rows, rank);
    var g, work := RowGraph(rows, rank), Siblings(rows, rank, None) + rows;
    var out := Walk(g, work, {});
    WalkVisits(g, work, {});
    forall r | r in rows ensures r in out {
      assert r in work;
      var t := WalkCovers(g, work, r);
    }
    DistinctSameMembers(out, rows);
  }

  // ----- forests

  predicate UniqueRowIds(rows: seq<Row>) {
    forall i, j :: 0 <= i < j < |rows| && rows[i].session.id.Some? ==> rows[i].session.id != rows[j].session.id
  }

  predicate UniqueRows(rows: seq<Row>) {
    Distinct(rows) && UniqueRowIds(rows)
  }

  /** `r` climbs to a row at the top, so it is on no cycle and below no absent parent. */
  ghost predicate HasTop(rows: seq<Row>, r: Row) {
    exists a :: a in rows && ParentKey(a).None? && Climbs(rows, r, a)
  }

  lemma SameIdSameRow(rows: seq<Row>, a: Row, b: Row)
    requires UniqueRowIds(rows) && a in rows && b in rows && a.session.id.Some? && a.session.id == b.session.id
    ensures a == b
  {
    var i :| 0 <= i < |rows| && rows[i] == a;
    var j :| 0 <= j < |rows| && rows[j] == b;
    assert i == j;
  }

  lemma UniqueIdsSubset(rows: seq<Row>, part: seq<Row>)
    requires UniqueRowIds(rows) && Distinct(part) && forall r :: r in part ==> r in rows
    ensures UniqueRowIds(part)
  {
    forall i, j | 0 <= i < j < |part| && part[i].session.id.Some? ensures part[i].session.id != part[j].session.id {
      assert part[i] in rows && part[j] in rows;
      if part[i].session.id == part[j].session.id { SameIdSameRow(rows, part[i], part[j]); }
    }
  }

  lemma RowsAreTreelike(rows: seq<Row>, rank: Ranking)
    requires Distinct(rows) && UniqueRowIds(rows)
    ensures Treelike(RowGraph(rows, rank)) && Frontier(RowGraph(rows, rank), Siblings(rows, rank, None), {})
  {
    var g := RowGraph(rows, rank);
    RowGraphIsClosed(rows, rank);
    forall x | x in g.all ensures Distinct(g.kids(x)) {
      FilterDistinct(IsUnder(x.session.id), rows);
      SortDistinct(ByRank(rank), Filter(IsUnder(x.session.id), rows));
    }
    FilterDistinct(IsUnder(None), rows);
    SortDistinct(ByRank(rank), Filter(IsUnder(None), rows));
    forall x, y, z | x in g.all && y in g.all && z in g.kids(x) && z in g.kids(y) ensures x == y {
      SiblingsAre(rows, rank, x.session.id, z);
      SiblingsAre(rows, rank, y.session.id, z);
      SameIdSameRow(rows, x, y);
    }
    forall x, z | x in g.all && z in g.kids(x) ensures z !in Siblings(rows, rank, None) {
      SiblingsAre(rows, rank, x.session.id, z);
      SiblingsAre(rows, rank, None, z);
    }
  }

  // ----- reaching down is climbing up

  lemma KidHasParentRow(rows: seq<Row>, rank: Ranking, p: Row, c: Row)
    requires UniqueRowIds(rows) && p in rows
    ensures c in RowKids(rows, rank)(p) <==> c in rows && ParentRow(rows, c) == Some(p)
  {
    if p.session.id.Some? { SiblingsAre(rows, rank, p.session.id, c); }
    var r := ParentRow(rows, c);
    if c in rows && ParentKey(c).Some? && ParentKey(c) == p.session.id { SameIdSameRow(rows, p, r.value); }
  }

  lemma {:induction false} PathClimbs(rows: seq<Row>, rank: Ranking, p: seq<Row>)
    requires UniqueRowIds(rows) && Path(RowGraph(rows, rank), p) && p[0] in rows
    ensures p[|p| - 1] in rows && ClimbsIn(rows, p[|p| - 1], p[0], |p| - 1)
    decreases |p|
  {
    if |p| > 1 {
      var q := p[..|p| - 1];
      PathClimbs(rows, rank, q);
      assert p[|p| - 1] in RowKids(rows, rank)(q[|q| - 1]) by { assert p[|p| - 2 + 1] in RowGraph(rows, rank).kids(p[|p| - 2]); }
      KidHasParentRow(rows, rank, q[|q| - 1], p[|p| - 1]);
    }
  }

  lemma {:induction false} ClimbReaches(rows: seq<Row>, rank: Ranking, x: Row, y: Row, n: nat)
    requires UniqueRowIds(rows) && y in rows && ClimbsIn(rows, y, x, n)
    ensures Reaches(RowGraph(rows, rank), x, y)
    decreases n
  {
    var g := RowGraph(rows, rank);
    if n == 0 {
      ReachesSelf(g, x);
    } else {
      var p := ParentRow(rows, y).value;
      ClimbReaches(rows, rank, x, p, n - 1);
      KidHasParentRow(rows, rank, p, y);
      ReachesSnoc(g, x, p, y);
    }
  }

  lemma ReachesSnoc<T(!new), K>(g: Graph<T, K>, x: T, p: T, y: T)
    requires Reaches(g, x, p) && y in g.kids(p)
    ensures Reaches(g, x, y)
  {
    var q :| Leads(g, q, x, p);
    var r := q + [y];
    forall i | 0 <= i < |r| - 1 ensures r[i + 1] in g.kids(r[i]) {
      if i < |q| - 1 { assert q[i + 1] in g.kids(q[i]); }
    }
    assert Leads(g, r, x, y);
  }

  lemma ReachesIsClimbs(rows: seq<Row>, rank: Ranking, x: Row, y: Row)
    requires UniqueRowIds(rows) && x in rows && y in rows
    ensures Reaches(RowGraph(rows, rank), x, y) <==> Climbs(rows, y, x)
  {
    if Reaches(RowGraph(rows, rank), x, y) {
      var p :| Leads(RowGraph(rows, rank), p, x, y);
      PathClimbs(rows, rank, p);
    }
    if Climbs(rows, y, x) {
      var n: nat :| ClimbsIn(rows, y, x, n);
      ClimbReaches(rows, rank, x, y, n);
    }
  }

  // ----- the order on the trees

  /** `key` is the top, or names a row that climbs to the top. */
  ghost predicate Rooted(rows: seq<Row>, key: Option<SessionId>) {
    key.None? || exists p :: p in rows && p.session.id == key && HasTop(rows, p)
  }

  lemma HasTopBelow(rows: seq<Row>, r: Row, a: Row)
    requires Climbs(rows, r, a) && HasTop(rows, a)
    ensures HasTop(rows, r)
  {
    var n: nat :| ClimbsIn(rows, r, a, n);
    var t :| t in rows && ParentKey(t).None? && Climbs(rows, a, t);
    var m: nat :| ClimbsIn(rows, a, t, m);
    ClimbsJoin(rows, r, a, t, n, m);
  }

  lemma {:induction false} ClimbsJoin(rows: seq<Row>, r: Row, a: Row, t: Row, n: nat, m: nat)
    requires ClimbsIn(rows, r, a, n) && ClimbsIn(rows, a, t, m)
    ensures ClimbsIn(rows, r, t, n + m)
    decreases n
  {
    if n > 0 { ClimbsJoin(rows, ParentRow(rows, r).value, a, t, n - 1, m); }
  }

  /** The rows that have a top are walked first, from the rows at the top. */
  lemma TreesFirst(rows: seq<Row>, rank: Ranking) returns (trees: seq<Row>, rest: seq<Row>)
    requires UniqueRows(rows)
    ensures Closed(RowGraph(rows, rank)) && Within(RowGraph(rows, rank), Siblings(rows, rank, None))
    ensures trees == Walk(RowGraph(rows, rank), Siblings(rows, rank, None), {})
    ensures OrderByRank(rows, rank) == trees + rest
    ensures forall r :: r in rows ==> (r in trees <==> HasTop(rows, r))
    ensures forall r :: r in rest ==> r in rows && r !in trees
  {
    RowGraphIsClosed(rows, rank);
    RowsAreTreelike(rows, rank);
    var g, tops := RowGraph(rows, rank), Siblings(rows, rank, None);
    trees := Walk(g, tops, {});
    forall r | r in rows ensures r in trees <==> HasTop(rows, r) { TreesAreTopped(rows, rank, r); }
    WalkAppend(g, tops, rows, {});
    KeysAreMembers(g, trees);
    rest := Walk(g, rows, {} + Keys(g, trees));
    WalkVisits(g, rows, {} + Keys(g, trees));
  }

  lemma TreesAreTopped(rows: seq<Row>, rank: Ranking, r: Row)
    requires UniqueRows(rows) && r in rows
    ensures Closed(RowGraph(rows, rank)) && Within(RowGraph(rows, rank), Siblings(rows, rank, None))
    ensures r in Walk(RowGraph(rows, rank), Siblings(rows, rank, None), {}) <==> HasTop(rows, r)
  {
    RowGraphIsClosed(rows, rank);
    RowsAreTreelike(rows, rank);
    var g, tops := RowGraph(rows, rank), Siblings(rows, rank, None);
    if r in Walk(g, tops, {}) {
      var a := WalkReaches(g, tops, {}, r);
      SiblingsAre(rows, rank, None, a);
      ReachesIsClimbs(rows, rank, a, r);
    }
    if HasTop(rows, r) {
      var a :| a in rows && ParentKey(a).None? && Climbs(rows, r, a);
      SiblingsAre(rows, rank, None, a);
      ReachesIsClimbs(rows, rank, a, r);
      var p :| Leads(g, p, a, r);
      WalkReachesAll(g, tops, {}, p);
    }
  }

  lemma TreesOrderSiblings(rows: seq<Row>, rank: Ranking, key: Option<SessionId>)
    requires UniqueRows(rows) && Rooted(rows, key)
    ensures Closed(RowGraph(rows, rank)) && Within(RowGraph(rows, rank), Siblings(rows, rank, None))
    ensures Filter(IsUnder(key), Walk(RowGraph(rows, rank), Siblings(rows, rank, None), {})) == Siblings(rows, rank, key)
  {
    var trees, rest := TreesFirst(rows, rank);
    RowsAreTreelike(rows, rank);
    var g, tops := RowGraph(rows, rank), Siblings(rows, rank, None);
    if key.None? {
      forall x, z | x in g.all && z in g.kids(x) ensures !IsUnder(None)(z) { SiblingsAre(rows, rank, x.session.id, z); }
      WalkKeepsOrder(g, tops, {}, IsUnder(None));
      forall z | z in tops ensures IsUnder(None)(z) { SiblingsAre(rows, rank, None, z); }
      FilterAll(IsUnder(None), tops);
    } else {
      var p :| p in rows && p.session.id == key && HasTop(rows, p);
      var q := (z: Row) => z in g.kids(p);
      WalkOrdersSiblings(g, tops, {}, p, q);
      WalkVisits(g, tops, {});
      forall z | z in trees ensures q(z) <==> IsUnder(key)(z) { SiblingsAre(rows, rank, key, z); }
      FilterSame(q, IsUnder(key), trees);
    }
  }

  /** Siblings are shown in rank order, at the top and under every row that climbs to it. */
  lemma SiblingsInOrder(rows: seq<Row>, rank: Ranking, key: Option<SessionId>)
    requires UniqueRows(rows) && Rooted(rows, key)
    ensures Filter(IsUnder(key), OrderByRank(rows, rank)) == Siblings(rows, rank, key)
  {
    var trees, rest := TreesFirst(rows, rank);
    TreesOrderSiblings(rows, rank, key);
    forall z | z in rest ensures !IsUnder(key)(z) {
      if IsUnder(key)(z) { UnderHasTop(rows, key, z); }
    }
    FilterAppend(IsUnder(key), trees, rest);
    FilterNone(IsUnder(key), rest);
  }

  lemma PairByRank(rows: seq<Row>, rank: Ranking, key: Option<SessionId>, a: Row, b: Row)
    requires UniqueRows(rows) && Rooted(rows, key) && ParentKey(a) == key == ParentKey(b)
    ensures Filter(IsEither(a, b), OrderByRank(rows, rank)) == StableSort(ByRank(rank), Filter(IsEither(a, b), rows))
  {
    SiblingsInOrder(rows, rank, key);
    FilterTwice(IsEither(a, b), IsUnder(key), OrderByRank(rows, rank));
    FilterTwice(IsEither(a, b), IsUnder(key), rows);
    ByRankIsTotal(rank);
    SortFilter(ByRank(rank), IsEither(a, b), Filter(IsUnder(key), rows));
  }

  /** Of two siblings, the one with the lesser rank is shown first, a ranked one
      before one without a rank, and otherwise the one that was first. */
  lemma SiblingRanks(rows: seq<Row>, rank: Ranking, key: Option<SessionId>, p: nat, q: nat, i: nat, j: nat)
    requires UniqueRows(rows) && Rooted(rows, key) && p < |rows| && q < |rows| && p != q
    requires ParentKey(rows[p]) == key == ParentKey(rows[q]) && forall r :: r in rank ==> rank[r] < 9_007_199_254_740_991
    requires var a, b := rows[p], rows[q];
             || (a in rank && (b !in rank || rank[a] < rank[b]))
             || (p < q && (if a in rank then b !in rank || rank[a] == rank[b] else b !in rank))
    requires var out := OrderByRank(rows, rank); i < |out| && j < |out| && out[i] == rows[p] && out[j] == rows[q]
    ensures i < j
  {
    var a, b, out := rows[p], rows[q], OrderByRank(rows, rank);
    PairByRank(rows, rank, key, a, b);
    ByRankIsTotal(rank);
    SortPair(ByRank(rank), a, b);
    if p < q {
      FilterPair(rows, p, q);
    } else {
      FilterPair(rows, q, p);
      FilterSame(IsEither(a, b), IsEither(b, a), rows);
    }
    PairInOrder(out, a, b, i, j);
  }

  /** Roots and orphans are at the top, whatever parent they refer to. */
  lemma OrphansAreTops(rows: seq<Row>, rank: Ranking, r: Row)
    requires r in rows && !r.role.Child?
    ensures HasTop(rows, r) && r in Siblings(rows, rank, None)
  {
    ClimbsSelf(rows, r);
    SiblingsAre(rows, rank, None, r);
  }

  /** Siblings are in rank order under any row that comes before all its
      children, on a cycle or below an absent parent too. */
  lemma SiblingsAfterParent(rows: seq<Row>, rank: Ranking, p: Row)
    requires UniqueRows(rows) && p in rows && p.session.id.Some?
    requires ComesFirst(OrderByRank(rows, rank), p, IsUnder(p.session.id))
    ensures Filter(IsUnder(p.session.id), OrderByRank(rows, rank)) == Siblings(rows, rank, p.session.id)
  {
    RowGraphIsClosed(rows, rank);
    RowsAreTreelike(rows, rank);
    var g, work := RowGraph(rows, rank), Siblings(rows, rank, None) + rows;
    var out, under := Walk(g, work, {}), IsUnder(p.session.id);
    var q := (z: Row) => z in g.kids(p);
    WalkVisits(g, work, {});
    forall z | z in out ensures q(z) <==> under(z) { SiblingsAre(rows, rank, p.session.id, z); }
    var k :| 0 <= k < |out| && out[k] == p && forall i :: 0 <= i <= k ==> !under(out[i]);
    assert forall i :: 0 <= i <= k ==> out[i] in out && !q(out[i]);
    WalkOrdersKids(g, work, {}, p, q);
    FilterSame(q, under, out);
  }

  lemma UnderHasTop(rows: seq<Row>, key: Option<SessionId>, z: Row)
    requires UniqueRows(rows) && Rooted(rows, key) && z in rows && ParentKey(z) == key
    ensures HasTop(rows, z)
  {
    ClimbsSelf(rows, z);
    if key.Some? {
      var p :| p in rows && p.session.id == key && HasTop(rows, p);
      KidHasParentRow(rows, map[], p, z);
      SiblingsAre(rows, map[], key, z);
      assert ClimbsIn(rows, p, p, 0) && ClimbsIn(rows, z, p, 1);
      HasTopBelow(rows, z, p);
    }
  }

  ghost predicate IsStretch(rows: seq<Row>, out: seq<Row>, x: Row, i: nat, n: nat) {
    && i + n < |out| && out[i] == x
    && forall j :: 0 <= j < |out| ==> (Climbs(rows, out[j], x) <==> i <= j <= i + n)
  }

  lemma TreesSpan(rows: seq<Row>, rank: Ranking, x: Row, trees: seq<Row>) returns (i: nat, n: nat)
    requires UniqueRows(rows) && x in rows && x in trees
    requires Closed(RowGraph(rows, rank)) && Within(RowGraph(rows, rank), Siblings(rows, rank, None))
    requires trees == Walk(RowGraph(rows, rank), Siblings(rows, rank, None), {})
    ensures IsStretch(rows, trees, x, i, n)
  {
    RowsAreTreelike(rows, rank);
    var g, tops := RowGraph(rows, rank), Siblings(rows, rank, None);
    i, n := WalkSpans(g, tops, {}, x);
    WalkVisits(g, tops, {});
    forall j | 0 <= j < |trees| ensures Climbs(rows, trees[j], x) <==> i <= j <= i + n {
      assert trees[j] in rows;
      ReachesIsClimbs(rows, rank, x, trees[j]);
    }
  }

  lemma StretchExtends(rows: seq<Row>, a: seq<Row>, b: seq<Row>, x: Row, i: nat, n: nat)
    requires IsStretch(rows, a, x, i, n) && forall r :: r in b ==> !Climbs(rows, r, x)
    ensures IsStretch(rows, a + b, x, i, n)
  {
  }

  /** Every subtree is one stretch of the order that starts with its root. */
  lemma SubtreeIsContiguous(rows: seq<Row>, rank: Ranking, x: Row) returns (i: nat, n: nat)
    requires UniqueRows(rows) && x in rows && HasTop(rows, x)
    ensures IsStretch(rows, OrderByRank(rows, rank), x, i, n)
  {
    var trees, rest := TreesFirst(rows, rank);
    i, n := TreesSpan(rows, rank, x, trees);
    forall r | r in rest ensures !Climbs(rows, r, x) {
      if Climbs(rows, r, x) { HasTopBelow(rows, r, x); }
    }
    StretchExtends(rows, trees, rest, x, i, n);
  }
}
