/**
 Projecting an inventory of sessions, whose parent references may form
 anything, into rows in preorder.
 */
module DelegationSessions {
  import opened Common
  import opened Sequences
  import opened Preorder
  import opened SessionModel

  /** How localeCompare orders names: any total preorder, given by ranks. */
  type Collation = string -> int

  /** What the projection marks as visited: an id, or the object itself. */
  datatype VisitKey = ById(id: SessionId) | ByObject(session: Session)

  function KeyOf(s: Session): VisitKey {
    if s.id.Some? then ById(s.id.value) else ByObject(s)
  }

  predicate UniqueKeys(sessions: seq<Session>) {
    forall i, j :: 0 <= i < j < |sessions| ==> KeyOf(sessions[i]) != KeyOf(sessions[j])
  }

  predicate HasId(sessions: seq<Session>, id: SessionId) {
    exists s :: s in sessions && s.id == Some(id)
  }

  function IsChildOf(id: SessionId): Session -> bool {
    (s: Session) => s.parent == Some(id)
  }

  function ByName(collation: Collation): (Session, Session) -> bool {
    (a: Session, b: Session) => collation(a.name) <= collation(b.name)
  }

  function ChildrenOf(sessions: seq<Session>, collation: Collation, id: SessionId): seq<Session> {
    StableSort(ByName(collation), Filter(IsChildOf(id), sessions))
  }

  function KidsOf(sessions: seq<Session>, collation: Collation): Session -> seq<Session> {
    (s: Session) => if s.id.Some? then ChildrenOf(sessions, collation, s.id.value) else []
  }

  function SessionGraph(sessions: seq<Session>, collation: Collation): Graph<Session, VisitKey> {
    Graph((set s | s in sessions), KeyOf, KidsOf(sessions, collation))
  }

  lemma KidsAreChildren(sessions: seq<Session>, collation: Collation, s: Session, c: Session)
    ensures c in KidsOf(sessions, collation)(s) <==> c in sessions && s.id.Some? && c.parent == s.id
  {
    if s.id.Some? { SortPermutes(ByName(collation), Filter(IsChildOf(s.id.value), sessions)); }
  }

  lemma GraphIsClosed(sessions: seq<Session>, collation: Collation)
    ensures Closed(SessionGraph(sessions, collation))
  {
    var g := SessionGraph(sessions, collation);
    forall x, y | x in g.all && y in g.kids(x) ensures y in g.all {
      KidsAreChildren(sessions, collation, x, y);
    }
  }

  predicate IsTop(s: Session) {
    s.parent.None?
  }

  function IsOrphan(sessions: seq<Session>): Session -> bool {
    (s: Session) => s.parent.Some? && !HasId(sessions, s.parent.value)
  }

  function Tops(sessions: seq<Session>): seq<Session> {
    Filter(IsTop, sessions)
  }

  function Orphans(sessions: seq<Session>): seq<Session> {
    Filter(IsOrphan(sessions), sessions)
  }

  lemma PartsAreWithin(sessions: seq<Session>, collation: Collation)
    ensures var g := SessionGraph(sessions, collation);
            Closed(g) && Within(g, Tops(sessions)) && Within(g, Orphans(sessions)) && Within(g, sessions)
            && Within(g, Tops(sessions) + Orphans(sessions) + sessions)
  {
    GraphIsClosed(sessions, collation);
  }

  /** The order in which the projection emits sessions. */
  ghost function Order(sessions: seq<Session>, collation: Collation): seq<Session> {
    PartsAreWithin(sessions, collation);
    Walk(SessionGraph(sessions, collation), Tops(sessions) + Orphans(sessions) + sessions, {})
  }

  // ----- the projection is a permutation exactly when no key repeats

  lemma OrderVisits(sessions: seq<Session>, collation: Collation)
    ensures var out := Order(sessions, collation);
            && (forall s :: s in out ==> s in sessions)
            && (forall i, j :: 0 <= i < j < |out| ==> KeyOf(out[i]) != KeyOf(out[j]))
            && (forall s :: s in sessions ==> exists t :: t in out && KeyOf(t) == KeyOf(s))
  {
    PartsAreWithin(sessions, collation);
    var g := SessionGraph(sessions, collation);
    var work := Tops(sessions) + Orphans(sessions) + sessions;
    WalkVisits(g, work, {});
    forall s | s in sessions ensures exists t :: t in Walk(g, work, {}) && KeyOf(t) == KeyOf(s) {
      assert s in work;
      var t := WalkCovers(g, work, s);
    }
  }

  /** The projection returns every session exactly once if and only if no id
      (and no object) occurs twice, whatever the parent references say. */
  lemma OrderIsPermutation(sessions: seq<Session>, collation: Collation)
    ensures multiset(Order(sessions, collation)) == multiset(sessions) <==> UniqueKeys(sessions)
  {
    var out := Order(sessions, collation);
    OrderVisits(sessions, collation);
    if UniqueKeys(sessions) {
      forall s | s in sessions ensures s in out {
        var t :| t in out && KeyOf(t) == KeyOf(s);
        SameKeySame(sessions, s, t);
      }
      DistinctSameMembers(out, sessions);
    }
    if multiset(out) == multiset(sessions) {
      forall i, j | 0 <= i < j < |sessions| ensures KeyOf(sessions[i]) != KeyOf(sessions[j]) {
        RepeatedKey(sessions, out, i, j);
      }
    }
  }

  lemma SameKeySame(sessions: seq<Session>, s: Session, t: Session)
    requires UniqueKeys(sessions) && s in sessions && t in sessions && KeyOf(s) == KeyOf(t)
    ensures s == t
  {
    var i :| 0 <= i < |sessions| && sessions[i] == s;
    var j :| 0 <= j < |sessions| && sessions[j] == t;
    assert i == j;
  }

  lemma RepeatedKey(sessions: seq<Session>, out: seq<Session>, i: nat, j: nat)
    requires i < j < |sessions| && multiset(out) == multiset(sessions)
    requires forall i, j :: 0 <= i < j < |out| ==> KeyOf(out[i]) != KeyOf(out[j])
    ensures KeyOf(sessions[i]) != KeyOf(sessions[j])
  {
    var s, t := sessions[i], sessions[j];
    assert s in multiset(out) && t in multiset(out);
    if s == t {
      assert sessions == sessions[..j] + [sessions[j]] + sessions[j + 1..];
      assert s in sessions[..j];
      assert multiset(sessions)[s] >= 2;
      DistinctCount(out, s);
    } else {
      var a :| 0 <= a < |out| && out[a] == s;
      var b :| 0 <= b < |out| && out[b] == t;
      assert a != b;
    }
  }

  // ----- rows

  /** A row without a parent reference is a root, one whose parent is not in
      the inventory an orphan, any other a child. */
  function RoleOf(sessions: seq<Session>, s: Session): Role {
    if s.parent.None? then Root else if HasId(sessions, s.parent.value) then Child else Orphan
  }

  function RowOf(sessions: seq<Session>, collation: Collation, s: Session): Row {
    var kids := KidsOf(sessions, collation)(s);
    Row(s, RoleOf(sessions, s), s.parent, if kids == [] then None else Some(|kids|))
  }

  ghost function RowsFor(sessions: seq<Session>, collation: Collation, out: seq<Session>): (rows: seq<Row>)
    ensures |rows| == |out|
  {
    seq(|out|, i requires 0 <= i < |out| => RowOf(sessions, collation, out[i]))
  }

  ghost function Rows(sessions: seq<Session>, collation: Collation): seq<Row> {
    RowsFor(sessions, collation, Order(sessions, collation))
  }

  // ----- the projection as the source runs it

  type ChildMap = map<SessionId, seq<Session>>

  /** `children` lists the children of every id, in the order of the inventory. */
  ghost predicate Collects(children: ChildMap, seen: seq<Session>, ids: set<SessionId>) {
    && (forall id :: id in children ==> id in ids && children[id] == Filter(IsChildOf(id), seen))
    && (forall id :: id in ids && id !in children ==> Filter(IsChildOf(id), seen) == [])
  }

  function IdsOf(sessions: seq<Session>): set<SessionId> {
    set s | s in sessions && s.id.Some? :: s.id.value
  }

  lemma IdsAreIds(sessions: seq<Session>, id: SessionId)
    ensures id in IdsOf(sessions) <==> HasId(sessions, id)
  {
  }

  lemma CollectsStep(before: ChildMap, after: ChildMap, seen: seq<Session>, s: Session, ids: set<SessionId>)
    requires Collects(before, seen, ids)
    requires if s.parent.Some? && s.parent.value in ids
             then after == before[s.parent.value := (if s.parent.value in before then before[s.parent.value] else []) + [s]]
             else after == before
    ensures Collects(after, seen + [s], ids)
  {
    forall id: SessionId
      ensures Filter(IsChildOf(id), seen + [s])
              == if s.parent == Some(id) then Filter(IsChildOf(id), seen) + [s] else Filter(IsChildOf(id), seen)
    {
      FilterSnoc(IsChildOf(id), seen, s);
    }
  }

  ghost predicate Parted(sessions: seq<Session>, seen: seq<Session>, tops: seq<Session>, orphans: seq<Session>, children: ChildMap) {
    && tops == Filter(IsTop, seen)
    && orphans == Filter(IsOrphan(sessions), seen)
    && Collects(children, seen, IdsOf(sessions))
  }

  method Place(ghost sessions: seq<Session>, ghost seen: seq<Session>, ids: set<SessionId>, s: Session,
               tops0: seq<Session>, orphans0: seq<Session>, children0: ChildMap)
    returns (tops: seq<Session>, orphans: seq<Session>, children: ChildMap)
    requires ids == IdsOf(sessions) && Parted(sessions, seen, tops0, orphans0, children0)
    ensures Parted(sessions, seen + [s], tops, orphans, children)
  {
    FilterSnoc(IsTop, seen, s);
    FilterSnoc(IsOrphan(sessions), seen, s);
    tops, orphans, children := tops0, orphans0, children0;
    if s.parent.None? {
      tops := tops + [s];
    } else {
      IdsAreIds(sessions, s.parent.value);
      if s.parent.value !in ids {
        orphans := orphans + [s];
      } else {
        var siblings := if s.parent.value in children then children[s.parent.value] else [];
        children := children[s.parent.value := siblings + [s]];
      }
    }
    CollectsStep(children0, children, seen, s, ids);
  }

  method Partition(sessions: seq<Session>) returns (tops: seq<Session>, orphans: seq<Session>, children: ChildMap)
    ensures tops == Tops(sessions) && orphans == Orphans(sessions)
    ensures Collects(children, sessions, IdsOf(sessions))
  {
    var ids := IdsOf(sessions);
    tops, orphans, children := [], [], map[];
    var i := 0;
    while i < |sessions|
      invariant 0 <= i <= |sessions|
      invariant Parted(sessions, sessions[..i], tops, orphans, children)
    {
      assert sessions[..i + 1] == sessions[..i] + [sessions[i]];
      tops, orphans, children := Place(sessions, sessions[..i], ids, sessions[i], tops, orphans, children);
      i := i + 1;
    }
    assert sessions[..i] == sessions;
  }

  function KidsIn(children: ChildMap, collation: Collation): Session -> seq<Session> {
    (s: Session) => if s.id.Some? && s.id.value in children then StableSort(ByName(collation), children[s.id.value]) else []
  }

  lemma KidsInAgree(sessions: seq<Session>, collation: Collation, children: ChildMap, s: Session)
    requires Collects(children, sessions, IdsOf(sessions)) && s in sessions
    ensures KidsIn(children, collation)(s) == KidsOf(sessions, collation)(s)
  {
    if s.id.Some? { assert s.id.value in IdsOf(sessions); }
  }

  ghost predicate Represents(g: Graph<Session, VisitKey>, children: ChildMap, sessions: seq<Session>, collation: Collation) {
    && g.all == (set s | s in sessions) && g.key == KeyOf && g.kids == KidsIn(children, collation)
    && Collects(children, sessions, IdsOf(sessions))
  }

  lemma RepresentsWalk(g: Graph<Session, VisitKey>, children: ChildMap, sessions: seq<Session>, collation: Collation,
                       work: seq<Session>, visited: set<VisitKey>)
    requires Represents(g, children, sessions, collation) && Within(g, work)
    ensures Closed(g) && Closed(SessionGraph(sessions, collation)) && Within(SessionGraph(sessions, collation), work)
    ensures Walk(g, work, visited) == Walk(SessionGraph(sessions, collation), work, visited)
  {
    var h := SessionGraph(sessions, collation);
    GraphIsClosed(sessions, collation);
    forall x | x in g.all ensures g.kids(x) == h.kids(x) { KidsInAgree(sessions, collation, children, x); }
    assert Closed(g);
    WalkSame(g, h, work, visited);
  }

  /** The role appendTree gives: the override for the session it was called on. */
  function EmittedRole(tree: seq<Session>, i: nat, roleOverride: Option<Role>): Role
    requires i < |tree|
  {
    if i == 0 && roleOverride.Some? then roleOverride.value else if tree[i].parent.Some? then Child else Root
  }

  lemma EmittedRoleIsExact(sessions: seq<Session>, collation: Collation, w: Session, visited: set<VisitKey>,
                           roleOverride: Option<Role>, i: nat)
    requires w in sessions && Closed(SessionGraph(sessions, collation))
    requires i < |Walk(SessionGraph(sessions, collation), [w], visited)|
    requires if IsOrphan(sessions)(w) then roleOverride == Some(Orphan) else roleOverride == None
    ensures EmittedRole(Walk(SessionGraph(sessions, collation), [w], visited), i, roleOverride)
            == RoleOf(sessions, Walk(SessionGraph(sessions, collation), [w], visited)[i])
  {
    var tree := Walk(SessionGraph(sessions, collation), [w], visited);
    var k := WalkOne(SessionGraph(sessions, collation), w, visited, i);
    if i > 0 {
      KidsAreChildren(sessions, collation, tree[k], tree[i]);
      assert tree[k] in SessionGraph(sessions, collation).all;
      assert HasId(sessions, tree[i].parent.value);
    }
  }

  function EmittedRow(tree: seq<Session>, i: nat, children: ChildMap, collation: Collation, roleOverride: Option<Role>): Row
    requires i < |tree|
  {
    var kids := KidsIn(children, collation)(tree[i]);
    Row(tree[i], EmittedRole(tree, i, roleOverride), tree[i].parent, if kids == [] then None else Some(|kids|))
  }

  lemma WalkedIsSession(sessions: seq<Session>, collation: Collation, w: Session, visited: set<VisitKey>, i: nat)
    requires w in sessions && Closed(SessionGraph(sessions, collation))
    requires i < |Walk(SessionGraph(sessions, collation), [w], visited)|
    ensures Walk(SessionGraph(sessions, collation), [w], visited)[i] in sessions
  {
    WalkVisits(SessionGraph(sessions, collation), [w], visited);
  }

  lemma EmittedRowIsRow(sessions: seq<Session>, children: ChildMap, collation: Collation, w: Session, visited: set<VisitKey>,
                        roleOverride: Option<Role>, i: nat)
    requires Collects(children, sessions, IdsOf(sessions)) && w in sessions && Closed(SessionGraph(sessions, collation))
    requires i < |Walk(SessionGraph(sessions, collation), [w], visited)|
    requires if IsOrphan(sessions)(w) then roleOverride == Some(Orphan) else roleOverride == None
    ensures var tree := Walk(SessionGraph(sessions, collation), [w], visited);
            EmittedRow(tree, i, children, collation, roleOverride) == RowOf(sessions, collation, tree[i])
  {
    var tree := Walk(SessionGraph(sessions, collation), [w], visited);
    EmittedRoleIsExact(sessions, collation, w, visited, roleOverride, i);
    WalkedIsSession(sessions, collation, w, visited, i);
    KidsInAgree(sessions, collation, children, tree[i]);
  }

  /** Emits the tree of each session of a list that is not visited yet. */
  method AppendRows(g: Graph<Session, VisitKey>, children: ChildMap, ghost sessions: seq<Session>, collation: Collation,
                    work: seq<Session>, roleOverride: Option<Role>, visited: set<VisitKey>)
    returns (rows: seq<Row>, seen: set<VisitKey>)
    requires Represents(g, children, sessions, collation) && Within(g, work)
    requires forall w :: w in work && KeyOf(w) !in visited ==>
               if IsOrphan(sessions)(w) then roleOverride == Some(Orphan) else roleOverride == None
    ensures Closed(SessionGraph(sessions, collation)) && Within(SessionGraph(sessions, collation), work)
    ensures var out := Walk(SessionGraph(sessions, collation), work, visited);
            rows == RowsFor(sessions, collation, out) && seen == visited + Keys(SessionGraph(sessions, collation), out)
  {
    RepresentsWalk(g, children, sessions, collation, work, visited);
    ghost var h := SessionGraph(sessions, collation);
    rows, seen := [], visited;
    var i := 0;
    while i < |work|
      invariant 0 <= i <= |work|
      invariant rows == RowsFor(sessions, collation, Walk(h, work[..i], visited))
      invariant seen == visited + Keys(h, Walk(h, work[..i], visited))
    {
      WalkExtends(h, work, i, visited);
      RowsForAppend(sessions, collation, Walk(h, work[..i], visited), Walk(h, [work[i]], seen));
      var more;
      more, seen := AppendTreeRows(g, children, sessions, collation, work[i], roleOverride, seen);
      rows := rows + more;
      i := i + 1;
    }
    assert work[..i] == work;
  }

  /** appendTree on one session, with the rows it emits. */
  method AppendTreeRows(g: Graph<Session, VisitKey>, children: ChildMap, ghost sessions: seq<Session>, collation: Collation,
                        w: Session, roleOverride: Option<Role>, visited: set<VisitKey>)
    returns (rows: seq<Row>, seen: set<VisitKey>)
    requires Represents(g, children, sessions, collation) && w in sessions && Closed(SessionGraph(sessions, collation))
    requires KeyOf(w) !in visited ==> if IsOrphan(sessions)(w) then roleOverride == Some(Orphan) else roleOverride == None
    ensures var out := Walk(SessionGraph(sessions, collation), [w], visited);
            rows == RowsFor(sessions, collation, out) && seen == visited + Keys(SessionGraph(sessions, collation), out)
  {
    RepresentsWalk(g, children, sessions, collation, [w], visited);
    var tree;
    tree, seen := AppendTree(g, w, visited);
    assert [w][1..] == [];
    rows := EmitTree(tree, children, collation, roleOverride, sessions, visited, w);
  }

  method EmitTree(tree: seq<Session>, children: ChildMap, collation: Collation, roleOverride: Option<Role>,
                  ghost sessions: seq<Session>, ghost visited: set<VisitKey>, ghost w: Session) returns (rows: seq<Row>)
    requires Collects(children, sessions, IdsOf(sessions)) && w in sessions && Closed(SessionGraph(sessions, collation))
    requires tree == Walk(SessionGraph(sessions, collation), [w], visited)
    requires tree != [] ==> if IsOrphan(sessions)(w) then roleOverride == Some(Orphan) else roleOverride == None
    ensures rows == RowsFor(sessions, collation, tree)
  {
    rows := [];
    for i := 0 to |tree|
      invariant |rows| == i
      invariant forall k :: 0 <= k < i ==> rows[k] == RowOf(sessions, collation, tree[k])
    {
      EmittedRowIsRow(sessions, children, collation, w, visited, roleOverride, i);
      rows := rows + [EmittedRow(tree, i, children, collation, roleOverride)];
    }
    assert rows == RowsFor(sessions, collation, tree);
  }

  lemma RowsForAppend(sessions: seq<Session>, collation: Collation, a: seq<Session>, b: seq<Session>)
    ensures RowsFor(sessions, collation, a + b) == RowsFor(sessions, collation, a) + RowsFor(sessions, collation, b)
  {
  }

  /** projectDelegationSessions. */
  method ProjectDelegationSessions(sessions: seq<Session>, collation: Collation) returns (rows: seq<Row>)
    ensures rows == Rows(sessions, collation)
  {
    ghost var h := SessionGraph(sessions, collation);
    var tops, orphans, children := Partition(sessions);
    assert forall w :: w in tops ==> !IsOrphan(sessions)(w);
    assert forall w :: w in orphans ==> IsOrphan(sessions)(w);
    var g := Graph((set s | s in sessions), KeyOf, KidsIn(children, collation));
    assert Represents(g, children, sessions, collation);
    var first, seen := AppendRows(g, children, sessions, collation, tops, None, {});
    ghost var a := Walk(h, tops, {});
    var second, seen2 := AppendRows(g, children, sessions, collation, orphans, Some(Orphan), seen);
    ghost var b := Walk(h, orphans, seen);
    LeftoversAreChildren(sessions, collation, seen);
    var third, _ := AppendRows(g, children, sessions, collation, sessions, None, seen2);
    ghost var c := Walk(h, sessions, seen2);
    rows := first + second + third;
    RowsForAppend(sessions, collation, a, b);
    RowsForAppend(sessions, collation, a + b, c);
    assert seen == Keys(h, a) && seen2 == Keys(h, a) + Keys(h, b);
    OrderInThree(sessions, collation);
  }

  /** The three loops together walk the concatenated work list. */
  lemma OrderInThree(sessions: seq<Session>, collation: Collation)
    ensures var g := SessionGraph(sessions, collation);
            && Closed(g) && Within(g, Tops(sessions)) && Within(g, Orphans(sessions)) && Within(g, sessions)
            && var a := Walk(g, Tops(sessions), {});
               var b := Walk(g, Orphans(sessions), Keys(g, a));
               var c := Walk(g, sessions, Keys(g, a) + Keys(g, b));
               Order(sessions, collation) == a + b + c
  {
    PartsAreWithin(sessions, collation);
    var g := SessionGraph(sessions, collation);
    var t, o := Tops(sessions), Orphans(sessions);
    WalkAppend(g, t + o, sessions, {});
    WalkAppend(g, t, o, {});
    var a := Walk(g, t, {});
    var b := Walk(g, o, Keys(g, a));
    assert {} + Keys(g, a) == Keys(g, a);
    assert {} + Keys(g, a + b) == Keys(g, a) + Keys(g, b) by {
      assert forall y :: y in a + b <==> y in a || y in b;
    }
  }

  /** After the first two loops, no orphan is left. */
  lemma LeftoversAreChildren(sessions: seq<Session>, collation: Collation, seen: set<VisitKey>)
    requires Closed(SessionGraph(sessions, collation)) && Within(SessionGraph(sessions, collation), Orphans(sessions))
    ensures var g := SessionGraph(sessions, collation);
            forall w :: w in sessions && IsOrphan(sessions)(w) ==> KeyOf(w) in seen + Keys(g, Walk(g, Orphans(sessions), seen))
  {
    WalkVisits(SessionGraph(sessions, collation), Orphans(sessions), seen);
  }
}
