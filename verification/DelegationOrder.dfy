/** The order and the number of the children that projectDelegationSessions shows. */
module DelegationOrder {
  import opened Common
  import opened Sequences
  import opened Preorder
  import opened SessionModel
  import opened DelegationSessions

  lemma ConsTail<T>(x: T, after: seq<T>, m: nat)
    requires m <= |after|
    ensures ([x] + after)[m + 1..] == after[m..] && ([x] + after)[0] == x && (m > 0 ==> ([x] + after)[m] == after[m - 1])
  {
  }

  ghost predicate Resumes<T(!new), K>(g: Graph<T, K>, x: T, after: seq<T>, rest: seq<T>, seen: set<K>)
    requires Closed(g)
  {
    g.key(x) in seen && Within(g, g.kids(x) + rest) && after == Walk(g, g.kids(x) + rest, seen)
  }

  /** What a walk does once it is at position `m`: the children of that node come next. */
  lemma {:induction false} WalkAt<T(!new), K>(g: Graph<T, K>, work: seq<T>, visited: set<K>, m: nat) returns (rest: seq<T>, seen: set<K>)
    requires Closed(g) && Within(g, work) && m < |Walk(g, work, visited)|
    ensures Resumes(g, Walk(g, work, visited)[m], Walk(g, work, visited)[m + 1..], rest, seen)
    decreases |AllKeys(g) - visited|, |work|
  {
    if g.key(work[0]) in visited {
      rest, seen := WalkAt(g, work[1..], visited, m);
    } else {
      WalkStep(g, work, visited);
      var next, v := g.kids(work[0]) + work[1..], visited + {g.key(work[0])};
      ConsTail(work[0], Walk(g, next, v), m);
      if m == 0 { rest, seen := work[1..], v; } else { rest, seen := WalkAt(g, next, v, m - 1); }
    }
  }

  /** A node whose parents were all visited before is reached from the work list only. */
  ghost predicate ParentsVisited<T(!new), K>(g: Graph<T, K>, y: T, visited: set<K>) {
    forall z :: z in g.all && y in g.kids(z) ==> g.key(z) in visited
  }

  /** `x` and `y` are shown, `x` first. */
  ghost predicate ShownApart<T(!new)>(out: seq<T>, x: T, y: T) {
    forall i, j :: 0 <= i < |out| && 0 <= j < |out| && out[i] == x && out[j] == y ==> i < j
  }

  lemma ShownApartCons<T(!new)>(w: T, after: seq<T>, x: T, y: T)
    requires w != y && (w == x ==> x !in after) && (w != x ==> ShownApart(after, x, y))
    ensures ShownApart([w] + after, x, y)
  {
    var out := [w] + after;
    forall i, j | 0 <= i < |out| && 0 <= j < |out| && out[i] == x && out[j] == y ensures i < j {
      if i > 0 { assert out[i] == after[i - 1] && out[i] in after; }
      assert j > 0 && out[j] == after[j - 1];
    }
  }

  lemma NotAgain<T(!new), K>(g: Graph<T, K>, work: seq<T>, visited: set<K>, x: T)
    requires Closed(g) && Within(g, work) && g.key(x) in visited
    ensures x !in Walk(g, work, visited)
  {
    WalkVisits(g, work, visited);
  }

  /** Such a node stays behind what is before it on the work list. */
  lemma {:induction false} WalkQueues<T(!new), K>(g: Graph<T, K>, work: seq<T>, visited: set<K>, k: nat, y: T)
    requires Closed(g) && Within(g, work) && k < |work| && y !in work[..k + 1] && ParentsVisited(g, y, visited)
    ensures ShownApart(Walk(g, work, visited), work[k], y)
    decreases |AllKeys(g) - visited|, |work|
  {
    var w := work[0];
    assert w in work[..k + 1];
    if g.key(w) in visited {
      if work[k] == w {
        NotAgain(g, work, visited, w);
      } else {
        assert work[1..][..k] == work[1..k + 1];
        WalkQueues(g, work[1..], visited, k - 1, y);
      }
    } else {
      WalkStep(g, work, visited);
      var kids := g.kids(w);
      var next, v := kids + work[1..], visited + {g.key(w)};
      NotAgain(g, next, v, w);
      if work[k] != w {
        QueueShifts(g, work, visited, k, y);
        WalkQueues(g, next, v, |kids| + k - 1, y);
      }
      ShownApartCons(w, Walk(g, next, v), work[k], y);
    }
  }

  /** A visit keeps the two apart on the work list. */
  lemma QueueShifts<T(!new), K>(g: Graph<T, K>, work: seq<T>, visited: set<K>, k: nat, y: T)
    requires Within(g, work) && 0 < k < |work| && y !in work[..k + 1] && ParentsVisited(g, y, visited) && g.key(work[0]) !in visited
    ensures var kids := g.kids(work[0]);
            var next := kids + work[1..];
            && next[|kids| + k - 1] == work[k] && y !in next[..|kids| + k]
            && ParentsVisited(g, y, visited + {g.key(work[0])})
  {
    var kids := g.kids(work[0]);
    assert (kids + work[1..])[..|kids| + k] == kids + work[1..k + 1];
    assert work[..k + 1] == [work[0]] + work[1..k + 1];
  }

  /** Two children of a node that come after it come in the order it lists them,
      if they have no other parent. */
  lemma SiblingsInOrder<T(!new), K>(g: Graph<T, K>, work: seq<T>, m: nat, i: nat, j: nat, k: nat, l: nat)
    requires Closed(g) && Within(g, work)
    requires var out := Walk(g, work, {});
             && m < i < |out| && m < j < |out|
             && var kids := g.kids(out[m]);
                && k < l < |kids| && kids[k] == out[i] && kids[l] == out[j] && Distinct(kids)
                && forall z :: z in g.all && kids[l] in g.kids(z) ==> g.key(z) == g.key(out[m])
    ensures i < j
  {
    var out := Walk(g, work, {});
    var kids := g.kids(out[m]);
    var rest, seen := WalkAt(g, work, {}, m);
    assert (kids + rest)[..k + 1] == kids[..k + 1] && kids[l] !in kids[..k + 1];
    assert out[m + 1..][i - m - 1] == out[i] && out[m + 1..][j - m - 1] == out[j];
    WalkQueues(g, kids + rest, seen, k, kids[l]);
  }

  // ----- children by name

  lemma ByNameIsTotal(collation: Collation)
    ensures TotalPreorder(ByName(collation))
  {
  }

  lemma KidsAreDistinct(sessions: seq<Session>, collation: Collation, p: Session)
    requires UniqueKeys(sessions)
    ensures Distinct(sessions) && Distinct(KidsOf(sessions, collation)(p))
  {
    if p.id.Some? {
      FilterDistinct(IsChildOf(p.id.value), sessions);
      SortDistinct(ByName(collation), Filter(IsChildOf(p.id.value), sessions));
    }
  }

  /** Two children of one parent, where they are among all of them. */
  lemma KidsBefore(sessions: seq<Session>, collation: Collation, p: Session, k: nat, l: nat, x: nat, y: nat)
    requires UniqueKeys(sessions) && p.id.Some? && x < |sessions| && y < |sessions|
    requires var kids := KidsOf(sessions, collation)(p); k < l < |kids| && kids[k] == sessions[x] && kids[l] == sessions[y]
    ensures collation(sessions[x].name) < collation(sessions[y].name) || (collation(sessions[x].name) == collation(sessions[y].name) && x < y)
  {
    var kids, leq := KidsOf(sessions, collation)(p), ByName(collation);
    var q := IsChildOf(p.id.value);
    ByNameIsTotal(collation);
    SortSorts(leq, Filter(q, sessions));
    assert leq(kids[k], kids[l]);
    KidsAreDistinct(sessions, collation, p);
    if y < x && leq(kids[l], kids[k]) {
      KidsAreChildren(sessions, collation, p, kids[k]);
      KidsAreChildren(sessions, collation, p, kids[l]);
      FilterDistinct(q, sessions);
      var a, b := FilterKeepsOrder(q, sessions, y, x);
      SortIsStable(leq, Filter(q, sessions), a, b, l, k);
    }
  }

  /** Two children that come after their parent come in the order they are listed in. */
  lemma KidsInOrder(sessions: seq<Session>, collation: Collation, m: nat, i: nat, j: nat, k: nat, l: nat)
    requires UniqueKeys(sessions)
    requires var out := Order(sessions, collation);
             && m < i < |out| && m < j < |out|
             && var kids := KidsOf(sessions, collation)(out[m]); k < l < |kids| && kids[k] == out[i] && kids[l] == out[j]
    ensures i < j
  {
    var out, g := Order(sessions, collation), SessionGraph(sessions, collation);
    PartsAreWithin(sessions, collation);
    var p := out[m];
    KidsAreDistinct(sessions, collation, p);
    forall z | z in g.all && out[j] in g.kids(z) ensures g.key(z) == g.key(p) {
      KidsAreChildren(sessions, collation, z, out[j]);
      KidsAreChildren(sessions, collation, p, out[j]);
    }
    SiblingsInOrder(g, Tops(sessions) + Orphans(sessions) + sessions, m, i, j, k, l);
  }

  lemma OrderedOnce(sessions: seq<Session>, collation: Collation, i: nat, j: nat)
    requires i < j < |Order(sessions, collation)|
    ensures var out := Order(sessions, collation); out[i] in sessions && out[j] in sessions && out[i] != out[j]
  {
    OrderVisits(sessions, collation);
    var out := Order(sessions, collation);
    assert KeyOf(out[i]) != KeyOf(out[j]) && out[i] in out && out[j] in out;
  }

  lemma KidPlace(sessions: seq<Session>, collation: Collation, p: Session, c: Session) returns (k: nat)
    requires c in sessions && p.id.Some? && c.parent == p.id
    ensures var kids := KidsOf(sessions, collation)(p); k < |kids| && kids[k] == c
  {
    KidsAreChildren(sessions, collation, p, c);
    k :| 0 <= k < |KidsOf(sessions, collation)(p)| && KidsOf(sessions, collation)(p)[k] == c;
  }

  /** Children come out by name, and in the order of the inventory where their
      names compare equal, if they come after their parent. */
  lemma ChildrenByName(sessions: seq<Session>, collation: Collation, m: nat, i: nat, j: nat, x: nat, y: nat)
    requires UniqueKeys(sessions) && x < |sessions| && y < |sessions|
    requires var out := Order(sessions, collation);
             && m < i < j < |out| && out[m].id.Some? && out[i].parent == out[j].parent == out[m].id
             && out[i] == sessions[x] && out[j] == sessions[y]
    ensures collation(sessions[x].name) < collation(sessions[y].name) || (collation(sessions[x].name) == collation(sessions[y].name) && x < y)
  {
    var out := Order(sessions, collation);
    OrderedOnce(sessions, collation, i, j);
    var k := KidPlace(sessions, collation, out[m], out[i]);
    var l := KidPlace(sessions, collation, out[m], out[j]);
    if l < k { KidsInOrder(sessions, collation, m, j, i, l, k); }
    KidsBefore(sessions, collation, out[m], k, l, x, y);
  }

  // ----- rows without a present parent

  /** `x` starts a tree that is listed before that of `y`: top-level sessions
      before orphans, and each in the order of the inventory. */
  predicate StartsBefore(sessions: seq<Session>, x: nat, y: nat)
    requires x < |sessions| && y < |sessions|
  {
    if sessions[x].parent.None? then sessions[y].parent.Some? || x < y else sessions[y].parent.Some? && x < y
  }

  lemma StartIsBefore(sessions: seq<Session>, x: nat, y: nat) returns (k: nat)
    requires UniqueKeys(sessions) && x < |sessions| && y < |sessions| && StartsBefore(sessions, x, y)
    requires RoleOf(sessions, sessions[x]) != Child && RoleOf(sessions, sessions[y]) != Child
    ensures var work := Tops(sessions) + Orphans(sessions) + sessions;
            k < |work| && work[k] == sessions[x] && sessions[y] !in work[..k + 1]
  {
    var tops, orphans := Tops(sessions), Orphans(sessions);
    KeysAreDistinct(sessions);
    if sessions[x].parent.None? {
      k := PartPlace(IsTop, sessions, x, y);
      InFront(tops, orphans + sessions, k, sessions[y]);
      assert tops + (orphans + sessions) == tops + orphans + sessions;
    } else {
      k := PartPlace(IsOrphan(sessions), sessions, x, y);
      assert sessions[y] !in tops;
      InFront(orphans, sessions, k, sessions[y]);
      Behind(tops, orphans + sessions, k, sessions[y]);
      assert tops + (orphans + sessions) == tops + orphans + sessions;
      k := |tops| + k;
    }
  }

  lemma InFront<T>(a: seq<T>, b: seq<T>, k: nat, y: T)
    requires k < |a| && y !in a[..k + 1]
    ensures (a + b)[k] == a[k] && y !in (a + b)[..k + 1]
  {
    assert (a + b)[..k + 1] == a[..k + 1];
  }

  lemma Behind<T>(a: seq<T>, b: seq<T>, k: nat, y: T)
    requires k < |b| && y !in b[..k + 1] && y !in a
    ensures (a + b)[|a| + k] == b[k] && y !in (a + b)[..|a| + k + 1]
  {
    assert (a + b)[..|a| + k + 1] == a + b[..k + 1];
  }

  lemma KeysAreDistinct(sessions: seq<Session>)
    requires UniqueKeys(sessions)
    ensures Distinct(sessions)
  {
  }

  /** Where an element is after filtering, ahead of another that is later or goes. */
  lemma PartPlace(q: Session -> bool, sessions: seq<Session>, x: nat, y: nat) returns (k: nat)
    requires Distinct(sessions) && x < |sessions| && y < |sessions| && q(sessions[x]) && (q(sessions[y]) ==> x < y)
    ensures var part := Filter(q, sessions); k < |part| && part[k] == sessions[x] && sessions[y] !in part[..k + 1]
  {
    var part := Filter(q, sessions);
    FilterDistinct(q, sessions);
    if q(sessions[y]) {
      var l;
      k, l := FilterKeepsOrder(q, sessions, x, y);
      assert part[l] == sessions[y];
    } else {
      assert sessions[x] in part && sessions[y] !in part;
      k :| 0 <= k < |part| && part[k] == sessions[x];
    }
  }

  lemma StartsInOrder(sessions: seq<Session>, collation: Collation, i: nat, j: nat, x: nat, y: nat)
    requires UniqueKeys(sessions) && x < |sessions| && y < |sessions| && StartsBefore(sessions, x, y)
    requires RoleOf(sessions, sessions[x]) != Child && RoleOf(sessions, sessions[y]) != Child
    requires var out := Order(sessions, collation); i < |out| && j < |out| && out[i] == sessions[x] && out[j] == sessions[y]
    ensures i < j
  {
    var g, work := SessionGraph(sessions, collation), Tops(sessions) + Orphans(sessions) + sessions;
    PartsAreWithin(sessions, collation);
    var k := StartIsBefore(sessions, x, y);
    forall z | z in g.all ensures sessions[y] !in g.kids(z) { KidsAreChildren(sessions, collation, z, sessions[y]); }
    WalkQueues(g, work, {}, k, sessions[y]);
  }

  // ----- their number

  /** Where the sessions are that name `id` as their parent. */
  function ChildPlaces(sessions: seq<Session>, id: SessionId): set<nat> {
    set i: nat | i < |sessions| && sessions[i].parent == Some(id)
  }

  lemma {:induction false} FilterCountsPlaces(sessions: seq<Session>, id: SessionId)
    ensures |Filter(IsChildOf(id), sessions)| == |ChildPlaces(sessions, id)|
    decreases |sessions|
  {
    if sessions != [] {
      var n := |sessions| - 1;
      var init, last := sessions[..n], sessions[n];
      assert sessions == init + [last];
      FilterCountsPlaces(init, id);
      FilterSnoc(IsChildOf(id), init, last);
      PlacesSnoc(init, last, id);
    }
  }

  lemma PlacesSnoc(init: seq<Session>, last: Session, id: SessionId)
    ensures |ChildPlaces(init + [last], id)| == |ChildPlaces(init, id)| + (if last.parent == Some(id) then 1 else 0)
  {
    var sessions, before := init + [last], ChildPlaces(init, id);
    assert forall i :: 0 <= i < |init| ==> sessions[i] == init[i];
    assert ChildPlaces(sessions, id) == if last.parent == Some(id) then before + {|init|} else before;
    assert |init| !in before;
  }

  /** The count a row shows is the number of sessions that name it as their
      parent, and none is shown where there are none. */
  lemma ChildCountExact(sessions: seq<Session>, collation: Collation, j: nat)
    requires j < |Order(sessions, collation)|
    ensures var s, shown := Order(sessions, collation)[j], Rows(sessions, collation)[j].childCount;
            var children := if s.id.Some? then |ChildPlaces(sessions, s.id.value)| else 0;
            if children == 0 then shown == None else shown == Some(children)
  {
    var s := Order(sessions, collation)[j];
    if s.id.Some? {
      SortPermutes(ByName(collation), Filter(IsChildOf(s.id.value), sessions));
      FilterCountsPlaces(sessions, s.id.value);
    }
  }
}
