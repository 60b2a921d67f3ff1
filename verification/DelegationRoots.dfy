/**
 The upward walk from a session to the root of its tree, and the grid of a
 root: public/delegation-sessions.ts and public/session-grouping.ts.
 */
module DelegationRoots {
  import opened Common
  import opened Sequences
  import opened Preorder
  import opened SessionModel
  import opened DelegationSessions

  /** sessionsById.get(id): the last session with that id. */
  function Lookup(sessions: seq<Session>, id: SessionId): (r: Option<Session>)
    ensures r.Some? ==> r.value in sessions && r.value.id == Some(id)
    ensures r.None? ==> forall s :: s in sessions ==> s.id != Some(id)
    decreases |sessions|
  {
    if sessions == [] then None
    else if sessions[|sessions| - 1].id == Some(id) then Some(sessions[|sessions| - 1])
    else Lookup(sessions[..|sessions| - 1], id)
  }

  /** Where an id occurs more than once, the last session with it is the one found. */
  lemma {:induction false} LookupIsLast(sessions: seq<Session>, i: nat)
    requires i < |sessions| && sessions[i].id.Some? && forall j :: i < j < |sessions| ==> sessions[j].id != sessions[i].id
    ensures Lookup(sessions, sessions[i].id.value) == Some(sessions[i])
    decreases |sessions|
  {
    if i < |sessions| - 1 { LookupIsLast(sessions[..|sessions| - 1], i); }
  }

  predicate UniqueIds(sessions: seq<Session>) {
    forall i, j :: 0 <= i < j < |sessions| && sessions[i].id.Some? ==> sessions[i].id != sessions[j].id
  }

  lemma UniqueKeysUniqueIds(sessions: seq<Session>)
    requires UniqueKeys(sessions)
    ensures UniqueIds(sessions)
  {
    forall i, j | 0 <= i < j < |sessions| && sessions[i].id.Some? ensures sessions[i].id != sessions[j].id {
      assert KeyOf(sessions[i]) != KeyOf(sessions[j]);
    }
  }

  lemma LookupUnique(sessions: seq<Session>, s: Session)
    requires UniqueIds(sessions) && s in sessions && s.id.Some?
    ensures Lookup(sessions, s.id.value) == Some(s)
  {
    var t := Lookup(sessions, s.id.value);
    var i :| 0 <= i < |sessions| && sessions[i] == s;
    var j :| 0 <= j < |sessions| && sessions[j] == t.value;
    assert i == j;
  }

  lemma StartsAtItself(sessions: seq<Session>, s: Session)
    requires UniqueIds(sessions) && s in sessions
    ensures StartOf(sessions, s) == Some(s)
  {
    if s.id.Some? { LookupUnique(sessions, s); }
  }

  function StartOf(sessions: seq<Session>, target: Session): (r: Option<Session>)
    ensures r.Some? ==> r.value in sessions && (r.value.id.Some? ==> Lookup(sessions, r.value.id.value) == r)
  {
    if target.id.Some? then Lookup(sessions, target.id.value) else if target in sessions then Some(target) else None
  }

  function UpFrom(sessions: seq<Session>, s: Session): Option<Session> {
    if s.parent.Some? then Lookup(sessions, s.parent.value) else None
  }

  /** The walk may end here: no parent reference, or an absent parent where that is allowed. */
  predicate Stops(sessions: seq<Session>, s: Session, allowOrphan: bool) {
    s.parent.None? || (allowOrphan && UpFrom(sessions, s).None?)
  }

  function RootFrom(sessions: seq<Session>, s: Session, visited: set<SessionId>, allowOrphan: bool): (r: Option<Session>)
    requires s in sessions
    decreases |IdsOf(sessions) - visited|, if s.id.None? then 1 else 0
  {
    if s.id.Some? && s.id.value in visited then None
    else if Stops(sessions, s, allowOrphan) then Some(s)
    else
      var up := UpFrom(sessions, s);
      if up.None? then None
      else if s.id.None? then RootFrom(sessions, up.value, visited, allowOrphan)
      else
        assert s.id.value in IdsOf(sessions) - visited;
        CardinalityLess(IdsOf(sessions) - (visited + {s.id.value}), IdsOf(sessions) - visited);
        RootFrom(sessions, up.value, visited + {s.id.value}, allowOrphan)
  }

  /** delegationRootSession. */
  function DelegationRoot(sessions: seq<Session>, target: Session, allowOrphan: bool): (r: Option<Session>) {
    var start := StartOf(sessions, target);
    if start.None? then None else RootFrom(sessions, start.value, {}, allowOrphan)
  }

  /** The same, with the loop of the source. */
  method DelegationRootSession(sessions: seq<Session>, target: Session, allowOrphan: bool) returns (r: Option<Session>)
    ensures r == DelegationRoot(sessions, target, allowOrphan)
  {
    var current := StartOf(sessions, target);
    var visited: set<SessionId> := {};
    while current.Some?
      invariant current.Some? ==> current.value in sessions
      invariant DelegationRoot(sessions, target, allowOrphan)
                == if current.Some? then RootFrom(sessions, current.value, visited, allowOrphan) else None
      decreases |IdsOf(sessions) - visited|, if current.None? then 0 else if current.value.id.None? then 2 else 1
    {
      var s := current.value;
      if s.id.Some? {
        if s.id.value in visited { return None; }
        CardinalityLess(IdsOf(sessions) - (visited + {s.id.value}), IdsOf(sessions) - visited) by {
          assert s.id.value in IdsOf(sessions) - visited;
        }
        visited := visited + {s.id.value};
      }
      if s.parent.None? { return Some(s); }
      var ancestor := Lookup(sessions, s.parent.value);
      if ancestor.None? && allowOrphan { return Some(s); }
      current := ancestor;
    }
    return None;
  }

  // ----- what the walk finds

  /** `r` is where the chain of parents from `s` ends, `n` steps up. */
  predicate EndsAt(sessions: seq<Session>, s: Session, n: nat, r: Session, allowOrphan: bool)
    decreases n
  {
    if n == 0 then s == r && Stops(sessions, s, allowOrphan)
    else !Stops(sessions, s, allowOrphan) && UpFrom(sessions, s).Some?
         && EndsAt(sessions, UpFrom(sessions, s).value, n - 1, r, allowOrphan)
  }

  /** A chain of parents: each session is the parent of the one before. */
  predicate Chain(sessions: seq<Session>, trail: seq<Session>) {
    && (forall i :: 0 <= i < |trail| - 1 ==> UpFrom(sessions, trail[i]) == Some(trail[i + 1]))
    && (forall i :: 0 <= i < |trail| && trail[i].id.Some? ==> Lookup(sessions, trail[i].id.value) == Some(trail[i]))
  }

  /** A chain that comes back never ends. */
  lemma {:induction false} LoopNeverEnds(sessions: seq<Session>, loop: seq<Session>, n: nat, r: Session, allowOrphan: bool)
    requires Chain(sessions, loop) && |loop| > 1 && loop[0] == loop[|loop| - 1]
    ensures !EndsAt(sessions, loop[0], n, r, allowOrphan)
    decreases n
  {
    if EndsAt(sessions, loop[0], n, r, allowOrphan) {
      var turned := loop[1..] + [loop[1]];
      assert UpFrom(sessions, loop[0]) == Some(loop[1]);
      assert Chain(sessions, turned) by {
        forall i | 0 <= i < |turned| - 1 ensures UpFrom(sessions, turned[i]) == Some(turned[i + 1]) {
          if i < |turned| - 2 { assert turned[i] == loop[i + 1] && turned[i + 1] == loop[i + 2]; }
        }
      }
      LoopNeverEnds(sessions, turned, n - 1, r, allowOrphan);
    }
  }

  ghost predicate Ends(sessions: seq<Session>, s: Session, r: Session, allowOrphan: bool) {
    exists n: nat :: EndsAt(sessions, s, n, r, allowOrphan)
  }

  lemma EndsStep(sessions: seq<Session>, s: Session, r: Session, allowOrphan: bool)
    requires !Stops(sessions, s, allowOrphan)
    ensures Ends(sessions, s, r, allowOrphan)
            <==> UpFrom(sessions, s).Some? && Ends(sessions, UpFrom(sessions, s).value, r, allowOrphan)
  {
    if Ends(sessions, s, r, allowOrphan) {
      var n: nat :| EndsAt(sessions, s, n, r, allowOrphan);
      assert EndsAt(sessions, UpFrom(sessions, s).value, n - 1, r, allowOrphan);
    }
    if UpFrom(sessions, s).Some? && Ends(sessions, UpFrom(sessions, s).value, r, allowOrphan) {
      var n: nat :| EndsAt(sessions, UpFrom(sessions, s).value, n, r, allowOrphan);
      assert EndsAt(sessions, s, n + 1, r, allowOrphan);
    }
  }

  lemma EndsHere(sessions: seq<Session>, s: Session, r: Session, allowOrphan: bool)
    requires Stops(sessions, s, allowOrphan)
    ensures Ends(sessions, s, r, allowOrphan) <==> s == r
  {
    if s == r { assert EndsAt(sessions, s, 0, r, allowOrphan); }
  }

  /** With `trail` the sessions walked before `s`, the walk finds the end of the chain, or the chain has none. */
  lemma {:induction false} RootFromMeans(sessions: seq<Session>, trail: seq<Session>, s: Session, visited: set<SessionId>,
                                         allowOrphan: bool, r: Session)
    requires s in sessions && Chain(sessions, trail + [s])
    requires forall id :: id in visited ==> exists i :: 0 <= i < |trail| && trail[i].id == Some(id)
    ensures RootFrom(sessions, s, visited, allowOrphan) == Some(r) <==> Ends(sessions, s, r, allowOrphan)
    decreases |IdsOf(sessions) - visited|, if s.id.None? then 1 else 0
  {
    var t := trail + [s];
    if s.id.Some? && s.id.value in visited {
      var i :| 0 <= i < |trail| && trail[i].id == s.id;
      assert t[i] == trail[i] && t[|trail|] == s;
      var loop := t[i..];
      assert Chain(sessions, loop) by {
        forall k | 0 <= k < |loop| - 1 ensures UpFrom(sessions, loop[k]) == Some(loop[k + 1]) {
          assert loop[k] == t[i + k] && loop[k + 1] == t[i + k + 1];
        }
      }
      forall n: nat ensures !EndsAt(sessions, s, n, r, allowOrphan) { LoopNeverEnds(sessions, loop, n, r, allowOrphan); }
    } else if Stops(sessions, s, allowOrphan) {
      EndsHere(sessions, s, r, allowOrphan);
    } else {
      EndsStep(sessions, s, r, allowOrphan);
      var up := UpFrom(sessions, s);
      if up.Some? { RootFromUp(sessions, trail, s, up.value, visited, allowOrphan, r); }
    }
  }

  lemma {:induction false} RootFromUp(sessions: seq<Session>, trail: seq<Session>, s: Session, up: Session, visited: set<SessionId>,
                                      allowOrphan: bool, r: Session)
    requires s in sessions && Chain(sessions, trail + [s]) && UpFrom(sessions, s) == Some(up)
    requires !Stops(sessions, s, allowOrphan) && (s.id.Some? ==> s.id.value !in visited)
    requires forall id :: id in visited ==> exists i :: 0 <= i < |trail| && trail[i].id == Some(id)
    ensures RootFrom(sessions, s, visited, allowOrphan) == Some(r) <==> Ends(sessions, up, r, allowOrphan)
    decreases |IdsOf(sessions) - visited|, if s.id.None? then 1 else 0, 0
  {
    var t := trail + [s];
    assert Chain(sessions, t + [up]) by {
      forall i | 0 <= i < |t + [up]| - 1 ensures UpFrom(sessions, (t + [up])[i]) == Some((t + [up])[i + 1]) {
        if i < |t| - 1 { assert UpFrom(sessions, t[i]) == Some(t[i + 1]); }
      }
    }
    var v := if s.id.Some? then visited + {s.id.value} else visited;
    forall id | id in v ensures exists i :: 0 <= i < |t| && t[i].id == Some(id) {
      if id in visited {
        var i :| 0 <= i < |trail| && trail[i].id == Some(id);
        assert t[i] == trail[i];
      } else {
        assert t[|trail|].id == Some(id);
      }
    }
    if s.id.Some? {
      CardinalityLess(IdsOf(sessions) - v, IdsOf(sessions) - visited) by { assert s.id.value in IdsOf(sessions) - visited; }
    }
    RootFromMeans(sessions, t, up, v, allowOrphan, r);
  }

  /** The walk returns the end of the chain of parents; it returns nothing
      exactly when that chain breaks off or goes round for ever. */
  lemma DelegationRootMeans(sessions: seq<Session>, target: Session, allowOrphan: bool, r: Session)
    ensures var start := StartOf(sessions, target);
            DelegationRoot(sessions, target, allowOrphan) == Some(r)
            <==> start.Some? && Ends(sessions, start.value, r, allowOrphan)
  {
    var start := StartOf(sessions, target);
    if start.Some? {
      assert [] + [start.value] == [start.value];
      RootFromMeans(sessions, [], start.value, {}, allowOrphan, r);
    }
  }

  lemma {:induction false} EndIsTop(sessions: seq<Session>, s: Session, n: nat, r: Session, allowOrphan: bool)
    requires s in sessions && EndsAt(sessions, s, n, r, allowOrphan)
    ensures r in sessions && (r.parent.None? || (allowOrphan && !HasId(sessions, r.parent.value)))
    decreases n
  {
    if n > 0 { EndIsTop(sessions, UpFrom(sessions, s).value, n - 1, r, allowOrphan); }
  }

  /** A root has no parent reference; for grouping it may also have one to a
      session that is absent. */
  lemma RootIsTop(sessions: seq<Session>, target: Session, allowOrphan: bool, r: Session)
    requires DelegationRoot(sessions, target, allowOrphan) == Some(r)
    ensures r in sessions && (r.parent.None? || (allowOrphan && !HasId(sessions, r.parent.value)))
  {
    DelegationRootMeans(sessions, target, allowOrphan, r);
    var start := StartOf(sessions, target).value;
    var n: nat :| EndsAt(sessions, start, n, r, allowOrphan);
    EndIsTop(sessions, start, n, r, allowOrphan);
  }

  /** A session whose parent is absent is its own root for grouping, and has none otherwise. */
  lemma OrphanRoot(sessions: seq<Session>, s: Session)
    requires UniqueIds(sessions) && s in sessions && s.parent.Some? && !HasId(sessions, s.parent.value)
    ensures DelegationRoot(sessions, s, true) == Some(s) && DelegationRoot(sessions, s, false) == None
  {
    StartsAtItself(sessions, s);
    assert UpFrom(sessions, s).None?;
  }

  // ----- group roots

  /** sessionGroupRoot: an ambiguous inventory has no group roots. */
  function GroupRoot(inventory: seq<Session>, target: Session): Option<Session> {
    if UniqueIds(inventory) then DelegationRoot(inventory, target, true) else None
  }

  /** A session and its parent in the inventory resolve to the same group root, on cycles too. */
  lemma ParentHasSameGroup(inventory: seq<Session>, s: Session, p: Session)
    requires s in inventory && UpFrom(inventory, s) == Some(p)
    ensures GroupRoot(inventory, s) == GroupRoot(inventory, p)
  {
    if UniqueIds(inventory) {
      StartsAtItself(inventory, s);
      StartsAtItself(inventory, p);
      var a, b := GroupRoot(inventory, s), GroupRoot(inventory, p);
      if a.Some? {
        DelegationRootMeans(inventory, s, true, a.value);
        DelegationRootMeans(inventory, p, true, a.value);
        EndsStep(inventory, s, a.value, true);
      }
      if b.Some? {
        DelegationRootMeans(inventory, s, true, b.value);
        DelegationRootMeans(inventory, p, true, b.value);
        EndsStep(inventory, s, b.value, true);
      }
    }
  }

  // ----- the grid of a root

  /** One filtering pass: the rows kept so far, and the ids of members met so far. */
  function GridPass(rows: seq<Row>, rootRow: Row, rootIds: set<SessionId>): (seq<Row>, set<SessionId>)
    decreases |rows|
  {
    if rows == [] then ([], rootIds) else
    var (kept, members) := GridPass(rows[..|rows| - 1], rootRow, rootIds);
    var row := rows[|rows| - 1];
    if row == rootRow then (kept + [row], members)
    else if row.parent.Some? && row.parent.value in members
    then (kept + [row], if row.session.id.Some? then members + {row.session.id.value} else members)
    else (kept, members)
  }

  function IdSet(s: Session): set<SessionId> {
    if s.id.Some? then {s.id.value} else {}
  }

  function FindRow(rows: seq<Row>, root: Session): Option<Row>
    decreases |rows|
  {
    if rows == [] then None
    else if rows[0].session == root || (root.id.Some? && rows[0].session.id == root.id) then Some(rows[0])
    else FindRow(rows[1..], root)
  }

  /** delegationGridMembers on the rows of the projection. */
  function GridMembersIn(rows: seq<Row>, root: Session): seq<Row> {
    var rootRow := FindRow(rows, root);
    if rootRow.None? || rootRow.value.role != Root then [] else GridPass(rows, rootRow.value, IdSet(root)).0
  }

  method DelegationGridMembers(sessions: seq<Session>, collation: Collation, root: Session) returns (members: seq<Row>)
    ensures members == GridMembersIn(Rows(sessions, collation), root)
  {
    var rows := ProjectDelegationSessions(sessions, collation);
    var rootRow := FindRow(rows, root);
    if rootRow.None? || rootRow.value.role != Root { return []; }
    var memberIds := IdSet(root);
    members := [];
    var i := 0;
    while i < |rows|
      invariant 0 <= i <= |rows|
      invariant (members, memberIds) == GridPass(rows[..i], rootRow.value, IdSet(root))
    {
      var row := rows[i];
      assert rows[..i + 1][..i] == rows[..i];
      if row == rootRow.value {
        members := members + [row];
      } else if row.parent.Some? && row.parent.value in memberIds {
        if row.session.id.Some? { memberIds := memberIds + {row.session.id.value}; }
        members := members + [row];
      }
      i := i + 1;
    }
    assert rows[..i] == rows;
  }

  // ----- the pass computes the tree of the root

  lemma TopIsInFirstWalk(sessions: seq<Session>, collation: Collation, x: Session)
    requires UniqueKeys(sessions) && x in sessions && x.parent.None?
    ensures Closed(SessionGraph(sessions, collation)) && Within(SessionGraph(sessions, collation), Tops(sessions))
    ensures x in Walk(SessionGraph(sessions, collation), Tops(sessions), {})
  {
    PartsAreWithin(sessions, collation);
    var g := SessionGraph(sessions, collation);
    assert x in Tops(sessions);
    WalkVisits(g, Tops(sessions), {});
    VisitedKeyIsIn(sessions, collation, Walk(g, Tops(sessions), {}), x);
  }

  lemma ChildIsInFirstWalk(sessions: seq<Session>, collation: Collation, x: Session, up: Session)
    requires UniqueKeys(sessions) && x in sessions && UpFrom(sessions, x) == Some(up)
    requires Closed(SessionGraph(sessions, collation)) && Within(SessionGraph(sessions, collation), Tops(sessions))
    requires up in Walk(SessionGraph(sessions, collation), Tops(sessions), {})
    ensures x in Walk(SessionGraph(sessions, collation), Tops(sessions), {})
  {
    var g := SessionGraph(sessions, collation);
    KidsAreChildren(sessions, collation, up, x);
    WalkClosed(g, Tops(sessions), {}, up, x);
    WalkVisits(g, Tops(sessions), {});
    VisitedKeyIsIn(sessions, collation, Walk(g, Tops(sessions), {}), x);
  }

  lemma {:induction false} TreeInFirstWalk(sessions: seq<Session>, collation: Collation, x: Session, n: nat, root: Session)
    requires UniqueKeys(sessions) && x in sessions && EndsAt(sessions, x, n, root, false)
    ensures Closed(SessionGraph(sessions, collation)) && Within(SessionGraph(sessions, collation), Tops(sessions))
    ensures x in Walk(SessionGraph(sessions, collation), Tops(sessions), {})
    decreases n
  {
    if n == 0 {
      TopIsInFirstWalk(sessions, collation, x);
    } else {
      var up := UpFrom(sessions, x).value;
      TreeInFirstWalk(sessions, collation, up, n - 1, root);
      ChildIsInFirstWalk(sessions, collation, x, up);
    }
  }

  lemma VisitedKeyIsIn(sessions: seq<Session>, collation: Collation, out: seq<Session>, x: Session)
    requires UniqueKeys(sessions) && x in sessions && (forall s :: s in out ==> s in sessions)
    requires KeyOf(x) in Keys(SessionGraph(sessions, collation), out)
    ensures x in out
  {
    var t :| t in out && KeyOf(t) == KeyOf(x);
    SameKeySame(sessions, x, t);
  }

  /** In the projection, the parent of every member of a tree comes before it. */
  lemma ParentComesFirst(sessions: seq<Session>, collation: Collation, j: nat, root: Session) returns (i: nat)
    requires UniqueKeys(sessions) && j < |Order(sessions, collation)|
    requires var x := Order(sessions, collation)[j]; Ends(sessions, x, root, false) && x != root
    ensures i < j && UpFrom(sessions, Order(sessions, collation)[j]) == Some(Order(sessions, collation)[i])
  {
    var out := Order(sessions, collation);
    var x := out[j];
    OrderVisits(sessions, collation);
    OrderInThree(sessions, collation);
    var g := SessionGraph(sessions, collation);
    var a := Walk(g, Tops(sessions), {});
    var n: nat :| EndsAt(sessions, x, n, root, false);
    TreeInFirstWalk(sessions, collation, x, n, root);
    var k :| 0 <= k < |a| && a[k] == x;
    assert out[k] == x;
    assert k == j;
    WalkParentsFirst(g, Tops(sessions), {}, j);
    assert x !in Tops(sessions);
    i :| 0 <= i < j && x in g.kids(a[i]);
    KidsAreChildren(sessions, collation, a[i], x);
    assert out[i] == a[i] && out[i] in sessions;
    UniqueKeysUniqueIds(sessions);
    LookupUnique(sessions, a[i]);
  }

  lemma RootRowIsFound(sessions: seq<Session>, collation: Collation, root: Session)
    requires UniqueKeys(sessions) && root in sessions
    ensures FindRow(Rows(sessions, collation), root) == Some(RowOf(sessions, collation, root))
  {
    OrderVisits(sessions, collation);
    var out := Order(sessions, collation);
    var t :| t in out && KeyOf(t) == KeyOf(root);
    SameKeySame(sessions, t, root);
    FindRowFrom(sessions, collation, out, root);
  }

  lemma {:induction false} FindRowFrom(sessions: seq<Session>, collation: Collation, out: seq<Session>, root: Session)
    requires UniqueKeys(sessions) && root in sessions && root in out && forall s :: s in out ==> s in sessions
    ensures FindRow(RowsFor(sessions, collation, out), root) == Some(RowOf(sessions, collation, root))
    decreases |out|
  {
    assert RowsFor(sessions, collation, out)[1..] == RowsFor(sessions, collation, out[1..]);
    if out[0] != root {
      assert KeyOf(out[0]) != KeyOf(root) by { if KeyOf(out[0]) == KeyOf(root) { SameKeySame(sessions, out[0], root); } }
      FindRowFrom(sessions, collation, out[1..], root);
    }
  }

  ghost predicate InTree(sessions: seq<Session>, root: Session, s: Session) {
    Ends(sessions, s, root, false)
  }

  /** After `j` rows: what was kept belongs to the tree, and what belongs to the tree was kept. */
  ghost predicate PassInv(sessions: seq<Session>, root: Session, rows: seq<Row>, kept: seq<Row>, members: set<SessionId>) {
    && (forall row :: row in kept ==> row in rows && InTree(sessions, root, row.session))
    && (forall id :: id in members ==> exists x :: x in sessions && x.id == Some(id) && InTree(sessions, root, x))
    && (forall row :: row in rows && InTree(sessions, root, row.session) ==> row in kept && IdSet(row.session) <= members)
  }

  lemma ChildOfMemberIsInTree(sessions: seq<Session>, root: Session, s: Session, p: Session)
    requires UniqueIds(sessions) && p in sessions && s.parent.Some? && p.id == s.parent && InTree(sessions, root, p)
    ensures InTree(sessions, root, s) && UpFrom(sessions, s) == Some(p)
  {
    LookupUnique(sessions, p);
    EndsStep(sessions, s, root, false);
  }

  predicate Accepted(row: Row, rootRow: Row, members: set<SessionId>) {
    row == rootRow || (row.parent.Some? && row.parent.value in members)
  }

  /** With its parent decided before it, a row is accepted exactly when it belongs to the tree. */
  lemma AcceptExact(sessions: seq<Session>, collation: Collation, root: Session, j: nat, kept: seq<Row>, members: set<SessionId>)
    requires UniqueKeys(sessions) && root in sessions && root.parent.None? && j < |Rows(sessions, collation)|
    requires PassInv(sessions, root, Rows(sessions, collation)[..j], kept, members)
    ensures var row := Rows(sessions, collation)[j];
            Accepted(row, RowOf(sessions, collation, root), members) <==> InTree(sessions, root, row.session)
  {
    var rows, s := Rows(sessions, collation), Order(sessions, collation)[j];
    assert rows[j].session == s && rows[j].parent == s.parent;
    UniqueKeysUniqueIds(sessions);
    if s == root {
      EndsHere(sessions, root, root, false);
    } else if InTree(sessions, root, s) {
      var i := ParentComesFirst(sessions, collation, j, root);
      NotStopped(sessions, s, root);
      EndsStep(sessions, s, root, false);
      assert rows[..j][i].session == UpFrom(sessions, s).value;
    } else if s.parent.Some? && s.parent.value in members {
      var x :| x in sessions && x.id == s.parent && InTree(sessions, root, x);
      ChildOfMemberIsInTree(sessions, root, s, x);
    }
  }

  lemma NotStopped(sessions: seq<Session>, s: Session, root: Session)
    requires InTree(sessions, root, s) && s != root
    ensures !Stops(sessions, s, false)
  {
    if Stops(sessions, s, false) { EndsHere(sessions, s, root, false); }
  }

  lemma PassInvExtend(sessions: seq<Session>, root: Session, rows: seq<Row>, row: Row, rootRow: Row, rootIds: set<SessionId>)
    requires var pass := GridPass(rows, rootRow, rootIds);
             && PassInv(sessions, root, rows, pass.0, pass.1) && rootIds <= pass.1
             && (Accepted(row, rootRow, pass.1) <==> InTree(sessions, root, row.session))
    requires row.session in sessions && rootRow.session == root && rootIds == IdSet(root)
    ensures var pass := GridPass(rows + [row], rootRow, rootIds);
            PassInv(sessions, root, rows + [row], pass.0, pass.1) && rootIds <= pass.1
  {
    assert (rows + [row])[..|rows|] == rows;
  }

  ghost predicate PassHolds(sessions: seq<Session>, collation: Collation, root: Session, rows: seq<Row>) {
    var pass := GridPass(rows, RowOf(sessions, collation, root), IdSet(root));
    PassInv(sessions, root, rows, pass.0, pass.1) && IdSet(root) <= pass.1
  }

  lemma PassStep(sessions: seq<Session>, collation: Collation, root: Session, j: nat, before: seq<Row>, row: Row)
    requires UniqueKeys(sessions) && root in sessions && root.parent.None? && j < |Rows(sessions, collation)|
    requires before == Rows(sessions, collation)[..j] && row == Rows(sessions, collation)[j]
    requires PassHolds(sessions, collation, root, before)
    ensures PassHolds(sessions, collation, root, before + [row])
  {
    var rootRow := RowOf(sessions, collation, root);
    var pass := GridPass(before, rootRow, IdSet(root));
    AcceptExact(sessions, collation, root, j, pass.0, pass.1);
    RowSessionIsSession(sessions, collation, j);
    PassInvExtend(sessions, root, before, row, rootRow, IdSet(root));
  }

  lemma RowSessionIsSession(sessions: seq<Session>, collation: Collation, j: nat)
    requires j < |Rows(sessions, collation)|
    ensures Rows(sessions, collation)[j].session in sessions
  {
    OrderVisits(sessions, collation);
    assert Rows(sessions, collation)[j].session == Order(sessions, collation)[j];
  }

  lemma {:induction false} PassExact(sessions: seq<Session>, collation: Collation, root: Session, j: nat)
    requires UniqueKeys(sessions) && root in sessions && root.parent.None? && j <= |Rows(sessions, collation)|
    ensures PassHolds(sessions, collation, root, Rows(sessions, collation)[..j])
    decreases j
  {
    var rows := Rows(sessions, collation);
    if j == 0 {
      PassBegins(sessions, collation, root);
      assert rows[..0] == [];
    } else {
      PrefixSnoc(rows, j - 1);
      PassExact(sessions, collation, root, j - 1);
      PassStep(sessions, collation, root, j - 1, rows[..j - 1], rows[j - 1]);
    }
  }

  lemma PassBegins(sessions: seq<Session>, collation: Collation, root: Session)
    requires root in sessions && root.parent.None?
    ensures PassHolds(sessions, collation, root, [])
  {
    EndsHere(sessions, root, root, false);
  }

  /** A session is in the grid of a root exactly when the upward walk from it ends at that root. */
  lemma GridIsTree(sessions: seq<Session>, collation: Collation, root: Session, s: Session)
    requires UniqueKeys(sessions) && root in sessions && s in sessions
    ensures RowOf(sessions, collation, s) in GridMembersIn(Rows(sessions, collation), root)
            <==> DelegationRoot(sessions, s, false) == Some(root)
  {
    UniqueKeysUniqueIds(sessions);
    StartsAtItself(sessions, s);
    DelegationRootMeans(sessions, s, false, root);
    RootRowIsFound(sessions, collation, root);
    if root.parent.None? {
      GridIsInTree(sessions, collation, root, s);
    } else {
      NoEndBelowParent(sessions, s, root);
    }
  }

  lemma GridIsInTree(sessions: seq<Session>, collation: Collation, root: Session, s: Session)
    requires UniqueKeys(sessions) && root in sessions && s in sessions && root.parent.None?
    ensures RowOf(sessions, collation, s) in GridMembersIn(Rows(sessions, collation), root) <==> InTree(sessions, root, s)
  {
    var rows := Rows(sessions, collation);
    RootRowIsFound(sessions, collation, root);
    SessionHasRow(sessions, collation, s);
    PassExact(sessions, collation, root, |rows|);
    assert rows[..|rows|] == rows;
    assert PassHolds(sessions, collation, root, rows);
  }

  lemma SessionHasRow(sessions: seq<Session>, collation: Collation, s: Session)
    requires UniqueKeys(sessions) && s in sessions
    ensures RowOf(sessions, collation, s) in Rows(sessions, collation)
  {
    RootRowIsFound(sessions, collation, s);
    FoundIsIn(Rows(sessions, collation), s);
  }

  lemma {:induction false} FoundIsIn(rows: seq<Row>, root: Session)
    ensures FindRow(rows, root).Some? ==> FindRow(rows, root).value in rows
    decreases |rows|
  {
    if rows != [] { FoundIsIn(rows[1..], root); }
  }

  lemma NoEndBelowParent(sessions: seq<Session>, s: Session, root: Session)
    requires root.parent.Some?
    ensures !Ends(sessions, s, root, false)
  {
    forall n: nat ensures !EndsAt(sessions, s, n, root, false) { NoEndAt(sessions, s, n, root); }
  }

  lemma {:induction false} NoEndAt(sessions: seq<Session>, s: Session, n: nat, root: Session)
    requires root.parent.Some?
    ensures !EndsAt(sessions, s, n, root, false)
    decreases n
  {
    if n > 0 && UpFrom(sessions, s).Some? { NoEndAt(sessions, UpFrom(sessions, s).value, n - 1, root); }
  }
}
