/**
 When siblings are shown in rank order on any parent graph: rows on a cycle, or
 below a parent that is not among the rows, are walked as they are listed.
 */
module SiblingOrder {
  import opened Common
  import opened Sequences
  import opened Preorder
  import opened Forest
  import opened SessionModel
  import opened SessionTriage
  import opened RowOrder

  /** `w` is the row that `key` names, or an ancestor of it. */
  ghost predicate Above(rows: seq<Row>, key: Option<SessionId>, w: Row) {
    exists p :: p in rows && p.session.id == key && Climbs(rows, p, w)
  }

  predicate ListedBefore(rows: seq<Row>, a: Row, b: Row) {
    exists i, j :: 0 <= i < j < |rows| && rows[i] == a && rows[j] == b
  }

  /** Another row at or above `key` is listed before `c`. */
  ghost predicate Announced(rows: seq<Row>, key: Option<SessionId>, c: Row) {
    exists w :: w != c && Above(rows, key, w) && ListedBefore(rows, w, c)
  }

  /** The parent climbs to the top, or is announced to each of its children. */
  ghost predicate ParentLeads(rows: seq<Row>, key: Option<SessionId>) {
    Rooted(rows, key) || forall c :: c in rows && ParentKey(c) == key ==> Announced(rows, key, c)
  }

  /** Neither at or above `key`, nor a child. */
  ghost predicate Apart(rows: seq<Row>, key: Option<SessionId>, r: Row) {
    !Above(rows, key, r) && ParentKey(r) != key
  }

  // ----- what is walked before the parent is

  lemma AboveParent(rows: seq<Row>, key: Option<SessionId>, y: Row, x: Row)
    requires Above(rows, key, y) && ParentRow(rows, y) == Some(x)
    ensures Above(rows, key, x)
  {
    var p :| p in rows && p.session.id == key && Climbs(rows, p, y);
    var n: nat :| ClimbsIn(rows, p, y, n);
    assert ClimbsIn(rows, x, x, 0) && ClimbsIn(rows, y, x, 1);
    ClimbsJoin(rows, p, y, x, n, 1);
  }

  lemma AboveSelf(rows: seq<Row>, p: Row)
    requires p in rows
    ensures Above(rows, p.session.id, p)
  {
    ClimbsSelf(rows, p);
  }

  /** A walk over rows that are apart visits only such rows. */
  lemma {:induction false} WalkStaysApart(rows: seq<Row>, rank: Ranking, key: Option<SessionId>, work: seq<Row>, visited: set<Row>, j: nat)
    requires UniqueRows(rows) && key.Some? && Closed(RowGraph(rows, rank)) && Within(RowGraph(rows, rank), work)
    requires (forall r :: r in work ==> Apart(rows, key, r)) && j < |Walk(RowGraph(rows, rank), work, visited)|
    ensures Apart(rows, key, Walk(RowGraph(rows, rank), work, visited)[j])
    decreases j
  {
    var g := RowGraph(rows, rank);
    var out := Walk(g, work, visited);
    WalkVisits(g, work, visited);
    WalkParentsFirst(g, work, visited, j);
    if out[j] !in work {
      var i :| 0 <= i < j && out[j] in g.kids(out[i]);
      WalkStaysApart(rows, rank, key, work, visited, i);
      assert out[i] in out && out[i] in rows;
      KidHasParentRow(rows, rank, out[i], out[j]);
      KidKey(rows, rank, out[i], out[j]);
      if Above(rows, key, out[j]) { AboveParent(rows, key, out[j], out[i]); }
      AboveSelf(rows, out[i]);
    }
  }

  lemma KidKey(rows: seq<Row>, rank: Ranking, p: Row, c: Row)
    requires c in RowKids(rows, rank)(p)
    ensures ParentKey(c) == p.session.id && c in rows
  {
    SiblingsAre(rows, rank, p.session.id, c);
  }

  lemma WalkApart(rows: seq<Row>, rank: Ranking, key: Option<SessionId>, work: seq<Row>, visited: set<Row>)
    requires UniqueRows(rows) && key.Some? && Closed(RowGraph(rows, rank)) && Within(RowGraph(rows, rank), work)
    requires forall r :: r in work ==> Apart(rows, key, r)
    ensures forall r :: r in Walk(RowGraph(rows, rank), work, visited) ==> Apart(rows, key, r)
  {
    var out := Walk(RowGraph(rows, rank), work, visited);
    forall r | r in out ensures Apart(rows, key, r) {
      var j :| 0 <= j < |out| && out[j] == r;
      WalkStaysApart(rows, rank, key, work, visited, j);
    }
  }

  lemma TopsApart(rows: seq<Row>, key: Option<SessionId>, r: Row)
    requires UniqueRows(rows) && !Rooted(rows, key) && r in rows && HasTop(rows, r)
    ensures Apart(rows, key, r)
  {
    if Above(rows, key, r) {
      var p :| p in rows && p.session.id == key && Climbs(rows, p, r);
      HasTopBelow(rows, p, r);
    }
    if ParentKey(r).Some? { ParentHasTop(rows, r); }
  }

  lemma ParentHasTop(rows: seq<Row>, r: Row)
    requires HasTop(rows, r) && ParentKey(r).Some?
    ensures Rooted(rows, ParentKey(r))
  {
    var a :| a in rows && ParentKey(a).None? && Climbs(rows, r, a);
    var n: nat :| ClimbsIn(rows, r, a, n);
    var q := ParentRow(rows, r).value;
    assert ClimbsIn(rows, q, a, n - 1);
    assert Climbs(rows, q, a) && HasTop(rows, q);
  }

  /** The trees keep apart, and the listing is walked behind them. */
  lemma TreesApart(rows: seq<Row>, rank: Ranking, key: Option<SessionId>) returns (trees: seq<Row>, visited: set<Row>)
    requires UniqueRows(rows) && !Rooted(rows, key)
    ensures (forall r :: r in trees ==> Apart(rows, key, r)) && forall r :: r in visited <==> r in trees
    ensures Closed(RowGraph(rows, rank)) && Within(RowGraph(rows, rank), rows)
    ensures OrderByRank(rows, rank) == trees + Walk(RowGraph(rows, rank), rows, visited)
  {
    RowGraphIsClosed(rows, rank);
    RowsAreTreelike(rows, rank);
    var g, tops := RowGraph(rows, rank), Siblings(rows, rank, None);
    var rest;
    trees, rest := TreesFirst(rows, rank);
    WalkVisits(g, tops, {});
    forall r | r in trees ensures Apart(rows, key, r) { TopsApart(rows, key, r); }
    KeysAreMembers(g, trees);
    visited := {} + Keys(g, trees);
    WalkAppend(g, tops, rows, {});
  }

  /** The listing up to its `k`-th row keeps apart. */
  lemma ListingApart(rows: seq<Row>, rank: Ranking, key: Option<SessionId>, k: nat, visited: set<Row>)
    returns (before: seq<Row>, v: set<Row>)
    requires UniqueRows(rows) && key.Some? && k <= |rows| && Closed(RowGraph(rows, rank)) && Within(RowGraph(rows, rank), rows)
    requires forall i :: 0 <= i < k ==> Apart(rows, key, rows[i])
    ensures (forall r :: r in before ==> Apart(rows, key, r)) && forall r :: r in v <==> r in visited || r in before
    ensures Within(RowGraph(rows, rank), rows[k..])
    ensures Walk(RowGraph(rows, rank), rows, visited) == before + Walk(RowGraph(rows, rank), rows[k..], v)
  {
    var g := RowGraph(rows, rank);
    RowsAreTreelike(rows, rank);
    assert rows == rows[..k] + rows[k..];
    WalkAppend(g, rows[..k], rows[k..], visited);
    before := Walk(g, rows[..k], visited);
    WalkApart(rows, rank, key, rows[..k], visited);
    KeysAreMembers(g, before);
    v := visited + Keys(g, before);
  }

  /** Up to the `k`-th row of the listing the walk keeps apart. */
  lemma WalkedSoFar(rows: seq<Row>, rank: Ranking, key: Option<SessionId>, k: nat) returns (before: seq<Row>, visited: set<Row>)
    requires UniqueRows(rows) && !Rooted(rows, key) && k < |rows|
    requires forall i :: 0 <= i < k ==> Apart(rows, key, rows[i])
    ensures forall r :: r in before ==> Apart(rows, key, r)
    ensures forall r :: r in visited <==> r in before
    ensures Closed(RowGraph(rows, rank)) && Within(RowGraph(rows, rank), rows[k..])
    ensures OrderByRank(rows, rank) == before + Walk(RowGraph(rows, rank), rows[k..], visited)
  {
    var trees, v := TreesApart(rows, rank, key);
    var listed;
    listed, visited := ListingApart(rows, rank, key, k, v);
    before := trees + listed;
    ConcatAssociates(trees, listed, Walk(RowGraph(rows, rank), rows[k..], visited));
  }

  // ----- a child that comes first

  /** A child that is listed before anything at or above its parent comes out
      before its parent and all its siblings. */
  lemma ChildLeads(rows: seq<Row>, rank: Ranking, key: Option<SessionId>, k: nat) returns (before: seq<Row>, after: seq<Row>)
    requires UniqueRows(rows) && !Rooted(rows, key) && k < |rows| && ParentKey(rows[k]) == key
    requires forall i :: 0 <= i < k ==> Apart(rows, key, rows[i])
    ensures OrderByRank(rows, rank) == before + ([rows[k]] + after) && forall r :: r in before ==> Apart(rows, key, r)
  {
    var visited;
    before, visited := WalkedSoFar(rows, rank, key, k);
    var g, work := RowGraph(rows, rank), rows[k..];
    WalkStep(g, work, visited);
    after := Walk(g, g.kids(work[0]) + work[1..], visited + {g.key(work[0])});
  }

  /** The first listed row that is not apart. */
  lemma {:induction false} FirstNotApart(rows: seq<Row>, key: Option<SessionId>, n: nat) returns (k: nat)
    requires n < |rows| && !Apart(rows, key, rows[n])
    ensures k <= n && !Apart(rows, key, rows[k]) && forall i :: 0 <= i < k ==> Apart(rows, key, rows[i])
    decreases n
  {
    if i :| 0 <= i < n && !Apart(rows, key, rows[i]) {
      k := FirstNotApart(rows, key, i);
    } else {
      k := n;
    }
  }

  /** With a child that is not announced, some child is the first row that is not apart. */
  lemma FirstIsChild(rows: seq<Row>, key: Option<SessionId>, c: Row) returns (k: nat)
    requires UniqueRows(rows) && c in rows && ParentKey(c) == key && !Announced(rows, key, c)
    ensures k < |rows| && ParentKey(rows[k]) == key && forall i :: 0 <= i < k ==> Apart(rows, key, rows[i])
  {
    var n :| 0 <= n < |rows| && rows[n] == c;
    k := FirstNotApart(rows, key, n);
    if k < n {
      assert ListedBefore(rows, rows[k], c);
      assert rows[k] != c;
    }
  }

  // ----- a parent that comes first

  lemma RootedLeads(rows: seq<Row>, rank: Ranking, p: Row)
    requires UniqueRows(rows) && p in rows && p.session.id.Some? && HasTop(rows, p)
    ensures ComesFirst(OrderByRank(rows, rank), p, IsUnder(p.session.id))
  {
    var trees, rest := TreesFirst(rows, rank);
    var m :| 0 <= m < |trees| && trees[m] == p;
    forall j | 0 <= j <= m ensures !IsUnder(p.session.id)(trees[j]) { TreesLead(rows, rank, p, m, j); }
    ComesFirstWithin([], trees, rest, p, IsUnder(p.session.id));
    assert [] + (trees + rest) == trees + rest;
  }

  lemma TreesLead(rows: seq<Row>, rank: Ranking, p: Row, m: nat, j: nat)
    requires UniqueRows(rows) && p in rows && p.session.id.Some?
    requires Closed(RowGraph(rows, rank)) && Within(RowGraph(rows, rank), Siblings(rows, rank, None))
    requires var trees := Walk(RowGraph(rows, rank), Siblings(rows, rank, None), {}); j <= m < |trees| && trees[m] == p
    ensures ParentKey(Walk(RowGraph(rows, rank), Siblings(rows, rank, None), {})[j]) != p.session.id
  {
    var g, tops := RowGraph(rows, rank), Siblings(rows, rank, None);
    var trees := Walk(g, tops, {});
    WalkVisits(g, tops, {});
    WalkParentsFirst(g, tops, {}, j);
    SiblingsAre(rows, rank, None, trees[j]);
    if trees[j] !in tops {
      var i :| 0 <= i < j && trees[j] in g.kids(trees[i]);
      assert trees[i] in trees && g.key(trees[i]) != g.key(trees[m]);
      KidKey(rows, rank, trees[i], trees[j]);
      if trees[i].session.id == p.session.id { SameIdSameRow(rows, trees[i], p); }
    }
  }

  /** A walk from a row visits everything below it that is new all the way down. */
  lemma {:induction false} ClimbIsWalked(rows: seq<Row>, rank: Ranking, w: Row, visited: set<Row>, y: Row, n: nat)
    requires UniqueRows(rows) && Closed(RowGraph(rows, rank)) && w in rows && y in rows && ClimbsIn(rows, y, w, n)
    requires forall x :: Climbs(rows, y, x) ==> x !in visited
    ensures y in Walk(RowGraph(rows, rank), [w], visited)
    decreases n
  {
    var g := RowGraph(rows, rank);
    WalkVisits(g, [w], visited);
    ClimbsSelf(rows, y);
    if n == 0 {
      assert w in [w];
    } else {
      var q := ParentRow(rows, y).value;
      forall x | Climbs(rows, q, x) ensures x !in visited {
        var m: nat :| ClimbsIn(rows, q, x, m);
        assert ClimbsIn(rows, y, x, m + 1);
      }
      ClimbIsWalked(rows, rank, w, visited, q, n - 1);
      KidHasParentRow(rows, rank, q, y);
      WalkClosed(g, [w], visited, q, y);
    }
  }

  /** Walked from a row above it, a parent comes before its children. */
  lemma TreeLeads(rows: seq<Row>, rank: Ranking, p: Row, w: Row, visited: set<Row>)
    requires UniqueRows(rows) && Closed(RowGraph(rows, rank)) && p in rows && w in rows && p.session.id.Some? && Climbs(rows, p, w)
    requires ParentKey(w) != p.session.id && forall x :: Climbs(rows, p, x) ==> x !in visited
    ensures ComesFirst(Walk(RowGraph(rows, rank), [w], visited), p, IsUnder(p.session.id))
  {
    var g := RowGraph(rows, rank);
    var tree := Walk(g, [w], visited);
    var n: nat :| ClimbsIn(rows, p, w, n);
    ClimbIsWalked(rows, rank, w, visited, p, n);
    WalkVisits(g, [w], visited);
    var m :| 0 <= m < |tree| && tree[m] == p;
    forall j | 0 <= j <= m ensures !IsUnder(p.session.id)(tree[j]) {
      var i := WalkOne(g, w, visited, j);
      if j > 0 {
        assert tree[i] in tree && g.key(tree[i]) != g.key(tree[m]);
        KidKey(rows, rank, tree[i], tree[j]);
        if tree[i].session.id == p.session.id { SameIdSameRow(rows, tree[i], p); }
      }
    }
  }

  lemma ComesFirstWithin(before: seq<Row>, tree: seq<Row>, after: seq<Row>, p: Row, q: Row -> bool)
    requires ComesFirst(tree, p, q) && forall r :: r in before ==> !q(r)
    ensures ComesFirst(before + (tree + after), p, q)
  {
    var k :| 0 <= k < |tree| && tree[k] == p && forall i :: 0 <= i <= k ==> !q(tree[i]);
    var out := before + (tree + after);
    assert out[|before| + k] == p;
    forall i | 0 <= i <= |before| + k ensures !q(out[i]) {
      if i < |before| { assert out[i] in before; } else { assert out[i] == tree[i - |before|]; }
    }
  }

  lemma AboveIsClimbed(rows: seq<Row>, p: Row, w: Row)
    requires UniqueRows(rows) && p in rows && p.session.id.Some? && Above(rows, p.session.id, w)
    ensures Climbs(rows, p, w)
  {
    var q :| q in rows && q.session.id == p.session.id && Climbs(rows, q, w);
    SameIdSameRow(rows, p, q);
  }

  lemma FirstAboveLeads(rows: seq<Row>, rank: Ranking, p: Row, k: nat)
    requires UniqueRows(rows) && p in rows && p.session.id.Some? && !Rooted(rows, p.session.id) && k < |rows|
    requires Climbs(rows, p, rows[k]) && ParentKey(rows[k]) != p.session.id
    requires forall i :: 0 <= i < k ==> Apart(rows, p.session.id, rows[i])
    ensures ComesFirst(OrderByRank(rows, rank), p, IsUnder(p.session.id))
  {
    var key, g, w := p.session.id, RowGraph(rows, rank), rows[k];
    var before, visited := WalkedSoFar(rows, rank, key, k);
    var after := FirstTree(rows, rank, k, visited);
    forall x | Climbs(rows, p, x) ensures x !in visited { assert Above(rows, key, x); }
    TreeLeads(rows, rank, p, w, visited);
    ComesFirstWithin(before, Walk(g, [w], visited), after, p, IsUnder(key));
  }

  lemma FirstTree(rows: seq<Row>, rank: Ranking, k: nat, visited: set<Row>) returns (after: seq<Row>)
    requires k < |rows| && Closed(RowGraph(rows, rank)) && Within(RowGraph(rows, rank), rows[k..])
    ensures Walk(RowGraph(rows, rank), rows[k..], visited) == Walk(RowGraph(rows, rank), [rows[k]], visited) + after
  {
    var g, w := RowGraph(rows, rank), rows[k];
    assert rows[k..] == [w] + rows[k + 1..];
    WalkAppend(g, [w], rows[k + 1..], visited);
    after := Walk(g, rows[k + 1..], visited + Keys(g, Walk(g, [w], visited)));
  }

  lemma AnnouncedLeads(rows: seq<Row>, rank: Ranking, p: Row)
    requires UniqueRows(rows) && p in rows && p.session.id.Some? && !Rooted(rows, p.session.id) && ParentLeads(rows, p.session.id)
    ensures ComesFirst(OrderByRank(rows, rank), p, IsUnder(p.session.id))
  {
    var key := p.session.id;
    AboveSelf(rows, p);
    var n :| 0 <= n < |rows| && rows[n] == p;
    var k := FirstNotApart(rows, key, n);
    if ParentKey(rows[k]) == key { AnnouncedEarlier(rows, key, k); }
    AboveIsClimbed(rows, p, rows[k]);
    FirstAboveLeads(rows, rank, p, k);
  }

  /** An announced child is not the first row that is not apart. */
  lemma AnnouncedEarlier(rows: seq<Row>, key: Option<SessionId>, k: nat)
    requires UniqueRows(rows) && k < |rows| && Announced(rows, key, rows[k])
    ensures exists i :: 0 <= i < k && !Apart(rows, key, rows[i])
  {
    var w :| w != rows[k] && Above(rows, key, w) && ListedBefore(rows, w, rows[k]);
    var i, j :| 0 <= i < j < |rows| && rows[i] == w && rows[j] == rows[k];
    assert j == k && !Apart(rows, key, rows[i]);
  }

  // ----- exactly when

  /** A row comes before all its children exactly when it climbs to the top, or
      each child finds another row at or above its parent listed before it. */
  lemma ComesFirstExact(rows: seq<Row>, rank: Ranking, p: Row)
    requires UniqueRows(rows) && p in rows && p.session.id.Some?
    ensures ComesFirst(OrderByRank(rows, rank), p, IsUnder(p.session.id)) <==> ParentLeads(rows, p.session.id)
  {
    var key, out := p.session.id, OrderByRank(rows, rank);
    if Rooted(rows, key) {
      var q :| q in rows && q.session.id == key && HasTop(rows, q);
      SameIdSameRow(rows, p, q);
      RootedLeads(rows, rank, p);
    } else if ParentLeads(rows, key) {
      AnnouncedLeads(rows, rank, p);
    } else {
      var c :| c in rows && ParentKey(c) == key && !Announced(rows, key, c);
      var k := FirstIsChild(rows, key, c);
      var before, after := ChildLeads(rows, rank, key, k);
      AboveSelf(rows, p);
      ComesLater(before, rows[k], after, p, IsUnder(key));
    }
  }

  lemma ComesLater(before: seq<Row>, c: Row, after: seq<Row>, p: Row, q: Row -> bool)
    requires p !in before && q(c)
    ensures !ComesFirst(before + ([c] + after), p, q)
  {
    var out := before + ([c] + after);
    forall k | 0 <= k < |out| && out[k] == p ensures q(out[|before|]) && |before| <= k {
      assert forall j :: 0 <= j < |before| ==> out[j] in before;
    }
  }

  /** At most one child is in any order. */
  lemma FewInOrder(rows: seq<Row>, rank: Ranking, key: Option<SessionId>)
    requires UniqueRows(rows) && |Filter(IsUnder(key), rows)| <= 1
    ensures Filter(IsUnder(key), OrderByRank(rows, rank)) == Siblings(rows, rank, key)
  {
    var shown, listed := Filter(IsUnder(key), OrderByRank(rows, rank)), Filter(IsUnder(key), rows);
    OrderByRankPermutes(rows, rank);
    FilterDistinct(IsUnder(key), OrderByRank(rows, rank));
    FilterDistinct(IsUnder(key), rows);
    DistinctSameMembers(shown, listed);
    SortPermutes(ByRank(rank), listed);
    assert |multiset(shown)| == |shown| && |multiset(listed)| == |listed|;
    SmallSame(shown, Siblings(rows, rank, key));
  }

  lemma SmallSame(a: seq<Row>, b: seq<Row>)
    requires multiset(a) == multiset(b) && |a| <= 1 && |a| == |b|
    ensures a == b
  {
    if |a| == 1 { assert a[0] in multiset(b); }
  }

  /** The rank that puts `c` last. */
  function LastOf(rows: seq<Row>, c: Row): Ranking {
    map x | x in rows :: if x == c then 1 else 0
  }

  lemma NotFirst(rows: seq<Row>, key: Option<SessionId>, c: Row)
    requires UniqueRows(rows) && |Filter(IsUnder(key), rows)| > 1
    ensures var s := Siblings(rows, LastOf(rows, c), key); s != [] && s[0] != c
  {
    var listed, rank := Filter(IsUnder(key), rows), LastOf(rows, c);
    var s := Siblings(rows, rank, key);
    SortPermutes(ByRank(rank), listed);
    ByRankIsTotal(rank);
    SortSorts(ByRank(rank), listed);
    FilterDistinct(IsUnder(key), rows);
    SortDistinct(ByRank(rank), listed);
    assert s[0] in s && s[1] in s && ByRank(rank)(s[0], s[1]) && s[0] != s[1];
  }

  /** Siblings are shown in rank order whatever the ranks exactly when their
      parent comes first, or there are fewer than two of them. */
  lemma SiblingsExact(rows: seq<Row>, key: Option<SessionId>)
    requires UniqueRows(rows)
    ensures (forall rank :: Filter(IsUnder(key), OrderByRank(rows, rank)) == Siblings(rows, rank, key))
            <==> ParentLeads(rows, key) || |Filter(IsUnder(key), rows)| <= 1
  {
    if |Filter(IsUnder(key), rows)| <= 1 {
      forall rank ensures Filter(IsUnder(key), OrderByRank(rows, rank)) == Siblings(rows, rank, key) { FewInOrder(rows, rank, key); }
    } else if ParentLeads(rows, key) {
      forall rank ensures Filter(IsUnder(key), OrderByRank(rows, rank)) == Siblings(rows, rank, key) { FirstInOrder(rows, rank, key); }
    } else {
      var c :| c in rows && ParentKey(c) == key && !Announced(rows, key, c);
      var k := FirstIsChild(rows, key, c);
      var rank := LastOf(rows, rows[k]);
      var before, after := ChildLeads(rows, rank, key, k);
      FilterPrefix(IsUnder(key), before, [rows[k]] + after);
      FilterCons(IsUnder(key), rows[k], after);
      NotFirst(rows, key, rows[k]);
      assert Filter(IsUnder(key), OrderByRank(rows, rank)) != Siblings(rows, rank, key);
    }
  }

  lemma FirstInOrder(rows: seq<Row>, rank: Ranking, key: Option<SessionId>)
    requires UniqueRows(rows) && ParentLeads(rows, key) && Filter(IsUnder(key), rows) != []
    ensures Filter(IsUnder(key), OrderByRank(rows, rank)) == Siblings(rows, rank, key)
  {
    if Rooted(rows, key) {
      SiblingsInOrder(rows, rank, key);
    } else {
      var c := Filter(IsUnder(key), rows)[0];
      assert c in Filter(IsUnder(key), rows) && Announced(rows, key, c);
      var w :| w != c && Above(rows, key, w) && ListedBefore(rows, w, c);
      var p :| p in rows && p.session.id == key && Climbs(rows, p, w);
      ComesFirstExact(rows, rank, p);
      SiblingsAfterParent(rows, rank, p);
    }
  }
}
