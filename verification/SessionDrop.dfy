/**
 Dropping a session card: moveSessionRelative, then recordManualSessionMove,
 then orderTriageSessionRows again. With the whole group of siblings of one
 tier as scope, what is dropped is what is shown.
 */
module SessionDrop {
  import opened Common
  import opened Sequences
  import opened SessionModel
  import opened SessionTriage
  import opened SessionOrder
  import opened RowOrder
  import opened TriageOrder
  import opened TriageTheorems
  import S = Slots

  function IdOf(machine: string, row: Row): Identity
    requires row.session.id.Some?
  {
    Identity(machine, row.session.id.value, None, None)
  }

  /** The identities of the rows that have one. */
  function Ids(machine: string, rows: seq<Row>): (r: seq<Identity>)
    decreases |rows|
  {
    if rows == [] then []
    else if rows[0].session.id.Some? then [IdOf(machine, rows[0])] + Ids(machine, rows[1..])
    else Ids(machine, rows[1..])
  }

  function IsNot(m: Row): Row -> bool {
    (r: Row) => r != m
  }

  /** `m` goes directly before or after `t`. */
  function PlaceBeside(rows: seq<Row>, m: Row, t: Row, after: bool): seq<Row>
    decreases |rows|
  {
    if rows == [] then []
    else if rows[0] == t then (if after then [t, m] else [m, t]) + rows[1..]
    else [rows[0]] + PlaceBeside(rows[1..], m, t, after)
  }

  /** The order that a drop asks for. */
  function Dropped(rows: seq<Row>, m: Row, t: Row, after: bool): seq<Row> {
    PlaceBeside(Filter(IsNot(m), rows), m, t, after)
  }

  // ----- rows and their identities

  lemma {:induction false} IdsMembers(machine: string, rows: seq<Row>, x: Identity)
    ensures Includes(Ids(machine, rows), x)
            <==> x.machine == machine && exists r :: r in rows && r.session.id.Some? && r.session.id.value == x.sessionId
    decreases |rows|
  {
    if rows != [] {
      IdsMembers(machine, rows[1..], x);
      assert rows == [rows[0]] + rows[1..];
      var rest := Ids(machine, rows[1..]);
      if rows[0].session.id.Some? {
        var all := [IdOf(machine, rows[0])] + rest;
        if Includes(rest, x) {
          var i :| 0 <= i < |rest| && Same(rest[i], x);
          assert Same(all[i + 1], x);
        }
        if Same(all[0], x) { assert rows[0] in rows; }
      }
    }
  }

  /** Every row has an id. */
  predicate AllNamed(rows: seq<Row>) {
    forall r :: r in rows ==> r.session.id.Some?
  }

  lemma {:induction false} IdsAt(machine: string, rows: seq<Row>)
    requires AllNamed(rows)
    ensures |Ids(machine, rows)| == |rows| && forall i :: 0 <= i < |rows| ==> Ids(machine, rows)[i] == IdOf(machine, rows[i])
    decreases |rows|
  {
    if rows != [] { IdsAt(machine, rows[1..]); }
  }

  /** Filtering identities is filtering rows. */
  lemma {:induction false} IdsFilter(machine: string, rows: seq<Row>, p: Identity -> bool, q: Row -> bool)
    requires forall r :: r in rows && r.session.id.Some? ==> (p(IdOf(machine, r)) <==> q(r))
    ensures Filter(p, Ids(machine, rows)) == Ids(machine, Filter(q, rows))
    decreases |rows|
  {
    if rows != [] {
      var x := rows[0];
      IdsFilter(machine, rows[1..], p, q);
      var ids, kept := Ids(machine, rows[1..]), Filter(q, rows[1..]);
      if x.session.id.Some? { assert ([IdOf(machine, x)] + ids)[1..] == ids; }
      assert ([x] + kept)[1..] == kept;
    }
  }

  lemma InsertAtCons<T>(x: T, s: seq<T>, k: nat, y: T)
    requires k <= |s|
    ensures InsertAt([x] + s, k + 1, y) == [x] + InsertAt(s, k, y)
  {
  }

  lemma SpliceCons(x: Identity, ids: seq<Identity>, moving: Identity, target: Identity, after: bool)
    requires !Same(x, target)
    ensures Splice([x] + ids, moving, target, after) == [x] + Splice(ids, moving, target, after)
  {
    var k := IndexOf(ids, target);
    assert IndexOf([x] + ids, target) == 1 + k by { assert ([x] + ids)[1..] == ids; }
    if k < |ids| { InsertAtCons(x, ids, if after then k + 1 else k, moving); }
  }

  /** The splice puts the card beside its target. */
  lemma {:induction false} SpliceIsBeside(machine: string, rows: seq<Row>, m: Row, t: Row, after: bool)
    requires UniqueRowIds(rows) && t in rows && t.session.id.Some? && m.session.id.Some?
    ensures Splice(Ids(machine, rows), IdOf(machine, m), IdOf(machine, t), after) == Ids(machine, PlaceBeside(rows, m, t, after))
    decreases |rows|
  {
    var x, rest := rows[0], rows[1..];
    var ids := Ids(machine, rest);
    if x == t {
      var pair := if after then [t, m] else [m, t];
      IdsPair(machine, pair[0], pair[1], rest);
    } else {
      assert t in rest by { assert rows == [x] + rest; }
      SpliceIsBeside(machine, rest, m, t, after);
      var beside := PlaceBeside(rest, m, t, after);
      assert ([x] + beside)[1..] == beside;
      if x.session.id.Some? {
        if x.session.id == t.session.id { SameIdSameRow(rows, x, t); }
        SpliceCons(IdOf(machine, x), ids, IdOf(machine, m), IdOf(machine, t), after);
      }
    }
  }

  lemma IdsPair(machine: string, a: Row, b: Row, rest: seq<Row>)
    requires a.session.id.Some? && b.session.id.Some?
    ensures Ids(machine, [a, b] + rest) == [IdOf(machine, a), IdOf(machine, b)] + Ids(machine, rest)
  {
    var s := [a, b] + rest;
    assert s[1..] == [b] + rest && s[1..][1..] == rest;
  }

  lemma {:induction false} BesideFilter(q: Row -> bool, rows: seq<Row>, m: Row, t: Row, after: bool)
    requires q(m) && q(t)
    ensures Filter(q, PlaceBeside(rows, m, t, after)) == PlaceBeside(Filter(q, rows), m, t, after)
    decreases |rows|
  {
    if rows != [] {
      var x, rest := rows[0], rows[1..];
      if x == t {
        var pair := if after then [t, m] else [m, t];
        FilterAppend(q, pair, rest);
        FilterAll(q, pair);
        var f := Filter(q, rest);
        assert ([x] + f)[1..] == f;
      } else {
        BesideFilter(q, rest, m, t, after);
        var beside, f := PlaceBeside(rest, m, t, after), Filter(q, rest);
        assert ([x] + beside)[1..] == beside && ([x] + f)[1..] == f;
      }
    }
  }

  lemma {:induction false} BesideMembers(rows: seq<Row>, m: Row, t: Row, after: bool)
    requires Distinct(rows) && t in rows && m !in rows
    ensures Distinct(PlaceBeside(rows, m, t, after)) && |PlaceBeside(rows, m, t, after)| == |rows| + 1
    ensures forall x :: x in PlaceBeside(rows, m, t, after) <==> x in rows || x == m
    decreases |rows|
  {
    var x, rest := rows[0], rows[1..];
    assert rows == [x] + rest && x !in rest;
    if x == t {
      DistinctAppend(if after then [t, m] else [m, t], rest);
    } else {
      BesideMembers(rest, m, t, after);
      DistinctAppend([x], PlaceBeside(rest, m, t, after));
    }
  }

  lemma {:induction false} BesideWithout(rows: seq<Row>, m: Row, t: Row, after: bool)
    requires m !in rows && m != t
    ensures Filter(IsNot(m), PlaceBeside(rows, m, t, after)) == rows
    decreases |rows|
  {
    if rows != [] {
      var x, rest := rows[0], rows[1..];
      assert rows == [x] + rest;
      if x == t {
        var pair := if after then [t, m] else [m, t];
        FilterAppend(IsNot(m), pair, rest);
        FilterAll(IsNot(m), rest);
      } else {
        BesideWithout(rest, m, t, after);
        var beside := PlaceBeside(rest, m, t, after);
        assert ([x] + beside)[1..] == beside;
      }
    }
  }

  // ----- the move

  lemma MoveIsBeside(machine: string, out: seq<Row>, group: seq<Row>, m: Row, t: Row, after: bool)
    requires Distinct(out) && UniqueRowIds(out) && m in group && t in group && m != t
    requires AllNamed(group) && forall r :: r in group ==> r in out
    ensures MoveRelative(Ids(machine, out), Ids(machine, group), IdOf(machine, m), IdOf(machine, t), after)
            == Ids(machine, Dropped(out, m, t, after))
  {
    var w := Filter(IsNot(m), out);
    FilterDistinct(IsNot(m), out);
    UniqueIdsSubset(out, w);
    IdsMembers(machine, group, IdOf(machine, m));
    IdsMembers(machine, group, IdOf(machine, t));
    forall r | r in out && r.session.id.Some? ensures IsOther(IdOf(machine, m))(IdOf(machine, r)) <==> IsNot(m)(r) {
      if r.session.id == m.session.id { SameIdSameRow(out, r, m); }
    }
    IdsFilter(machine, out, IsOther(IdOf(machine, m)), IsNot(m));
    IdsMembers(machine, w, IdOf(machine, t));
    if m.session.id == t.session.id { SameIdSameRow(out, m, t); }
    SpliceIsBeside(machine, w, m, t, after);
  }

  function InPart(part: seq<Row>): Row -> bool {
    (r: Row) => r in part
  }

  lemma ScopeIsPart(rows: seq<Row>, machine: string, part: seq<Row>, r: Row)
    requires UniqueRowIds(rows) && r in rows && r.session.id.Some? && forall g :: g in part ==> g in rows
    ensures IsIn(Ids(machine, part))(IdOf(machine, r)) <==> InPart(part)(r)
  {
    IdsMembers(machine, part, IdOf(machine, r));
    if IsIn(Ids(machine, part))(IdOf(machine, r)) {
      var g :| g in part && g.session.id.Some? && g.session.id.value == r.session.id.value;
      SameIdSameRow(rows, g, r);
    }
  }

  lemma ScopedIds(rows: seq<Row>, machine: string, part: seq<Row>, some: seq<Row>)
    requires UniqueRowIds(rows) && (forall g :: g in part ==> g in rows) && forall r :: r in some ==> r in rows
    ensures Filter(IsIn(Ids(machine, part)), Ids(machine, some)) == Ids(machine, Filter(InPart(part), some))
  {
    var p := IsIn(Ids(machine, part));
    forall r | r in some && r.session.id.Some? ensures p(IdOf(machine, r)) <==> InPart(part)(r) {
      ScopeIsPart(rows, machine, part, r);
    }
    IdsFilter(machine, some, p, InPart(part));
  }

  /** A drop on all rows, cut down to some, is the drop on those. */
  lemma DroppedGroup(q: Row -> bool, out: seq<Row>, m: Row, t: Row, after: bool)
    requires q(m) && q(t)
    ensures Filter(q, Dropped(out, m, t, after)) == Dropped(Filter(q, out), m, t, after)
  {
    BesideFilter(q, Filter(IsNot(m), out), m, t, after);
    FilterCommutes(q, IsNot(m), out);
  }

  /** `m` stands directly after `t`, or directly before it. */
  ghost predicate Beside(rows: seq<Row>, m: Row, t: Row, after: bool) {
    exists k :: 0 < k < |rows| && (if after then rows[k - 1] == t && rows[k] == m else rows[k - 1] == m && rows[k] == t)
  }

  lemma {:induction false} PlacedBeside(rows: seq<Row>, m: Row, t: Row, after: bool)
    requires t in rows
    ensures Beside(PlaceBeside(rows, m, t, after), m, t, after)
    decreases |rows|
  {
    var out := PlaceBeside(rows, m, t, after);
    if rows[0] == t {
      assert if after then out[1 - 1] == t && out[1] == m else out[1 - 1] == m && out[1] == t;
    } else {
      PlacedBeside(rows[1..], m, t, after);
      var rest := PlaceBeside(rows[1..], m, t, after);
      var k :| 0 < k < |rest| && (if after then rest[k - 1] == t && rest[k] == m else rest[k - 1] == m && rest[k] == t);
      assert out[k + 1 - 1] == rest[k - 1] && out[k + 1] == rest[k];
    }
  }

  lemma DroppedPermutes(rows: seq<Row>, m: Row, t: Row, after: bool)
    requires Distinct(rows) && m in rows && t in rows && m != t
    ensures Distinct(Dropped(rows, m, t, after)) && |Dropped(rows, m, t, after)| == |rows|
    ensures forall x :: x in Dropped(rows, m, t, after) <==> x in rows
    ensures Filter(IsNot(m), Dropped(rows, m, t, after)) == Filter(IsNot(m), rows) && Beside(Dropped(rows, m, t, after), m, t, after)
  {
    PlacedBeside(Filter(IsNot(m), rows), m, t, after);
    var w := Filter(IsNot(m), rows);
    FilterDistinct(IsNot(m), rows);
    BesideMembers(w, m, t, after);
    BesideWithout(w, m, t, after);
    DistinctSameMembers(Dropped(rows, m, t, after), rows);
    assert |multiset(rows)| == |rows|;
    assert |multiset(Dropped(rows, m, t, after))| == |Dropped(rows, m, t, after)|;
  }

  /** The moved order, cut down to the scope, is the drop on the group cut down to it. */
  lemma MovedSiblings(machine: string, out: seq<Row>, q: Row -> bool, part: seq<Row>, m: Row, t: Row, after: bool)
    requires Distinct(out) && UniqueRowIds(out) && AllNamed(part) && m in part && t in part && m != t
    requires forall r :: r in part ==> r in Filter(q, out)
    ensures var scope := Ids(machine, part);
            Filter(IsIn(scope), MoveRelative(Ids(machine, out), scope, IdOf(machine, m), IdOf(machine, t), after))
            == Ids(machine, Filter(InPart(part), Dropped(Filter(q, out), m, t, after)))
  {
    var moved := Dropped(out, m, t, after);
    MoveIsBeside(machine, out, part, m, t, after);
    DroppedPermutes(out, m, t, after);
    ScopedIds(out, machine, part, moved);
    FilterTwice(InPart(part), q, moved);
    DroppedGroup(q, out, m, t, after);
  }

  // ----- the record

  lemma SiblingIndex(machine: string, rows: seq<Row>, x: Identity)
    requires AllNamed(rows) && UniqueRowIds(rows)
    ensures var k := IndexOf(Ids(machine, rows), x);
            && |Ids(machine, rows)| == |rows|
            && (k < |rows| ==> x.machine == machine && rows[k].session.id == Some(x.sessionId))
            && (k == |rows| ==> x.machine != machine || forall r :: r in rows ==> r.session.id.value != x.sessionId)
  {
    IdsAt(machine, rows);
    var ids := Ids(machine, rows);
    var k := IndexOf(ids, x);
    if k == |rows| && x.machine == machine {
      forall r | r in rows ensures r.session.id.value != x.sessionId {
        var i :| 0 <= i < |rows| && rows[i] == r;
        assert !Same(ids[i], x);
      }
    }
  }

  /** After the record, every placed row of the scope wants the slot it has in it. */
  lemma RecordedPosition(machine: string, manual: seq<Identity>, part: seq<Row>, group: seq<Row>, m: Row, tier: Tier, x: Identity)
    requires AllNamed(part) && UniqueRowIds(part) && UniqueRowIds(group) && m in part && forall r :: r in part ==> r in group
    requires x in RecordMove(manual, Ids(machine, part), Ids(machine, part), IdOf(machine, m), tier)
    requires Applies(group, machine, tier)(x) && SessionRow(group, x.sessionId) in part
    ensures x.position.Some? && x.position.value < |part| && part[x.position.value] == SessionRow(group, x.sessionId)
  {
    var ids, moving := Ids(machine, part), IdOf(machine, m);
    SelfScope(ids);
    SiblingIndex(machine, part, moving);
    SiblingIndex(machine, part, x);
    RecordedIndex(manual, ids, moving, tier, x);
    SameIdSameRow(part, part[IndexOf(ids, x)], SessionRow(group, x.sessionId));
  }

  lemma RecordedIndex(manual: seq<Identity>, ids: seq<Identity>, moving: Identity, tier: Tier, x: Identity)
    requires Filter(IsIn(ids), ids) == ids && IndexOf(ids, moving) < |ids| && x in RecordMove(manual, ids, ids, moving, tier)
    requires IndexOf(ids, x) < |ids| && (x.tier.None? || x.tier.value == tier)
    ensures x.position == Some(IndexOf(ids, x))
  {
    var y := RecordedFrom(manual, ids, moving, tier, x);
    if y in manual && x == Shifted(y, ids, tier) { SameIndexOf(ids, x, y); } else { SameIndexOf(ids, x, moving); }
  }

  /** A recorded identity is the moved one, or an earlier one shifted. */
  lemma RecordedFrom(manual: seq<Identity>, ids: seq<Identity>, moving: Identity, tier: Tier, x: Identity) returns (y: Identity)
    requires Filter(IsIn(ids), ids) == ids && IndexOf(ids, moving) < |ids| && x in RecordMove(manual, ids, ids, moving, tier)
    ensures x == moving.(position := Some(IndexOf(ids, moving)), tier := Some(tier)) || (y in manual && x == Shifted(y, ids, tier))
  {
    var recorded, others := RecordMove(manual, ids, ids, moving, tier), Filter(IsOther(moving), manual);
    var k :| 0 <= k < |recorded| && recorded[k] == x;
    y := if k < |others| then others[k] else x;
  }

  lemma {:induction false} SameIndexOf(ids: seq<Identity>, x: Identity, y: Identity)
    requires Same(x, y)
    ensures IndexOf(ids, x) == IndexOf(ids, y)
    decreases |ids|
  {
    if ids != [] { SameIndexOf(ids[1..], x, y); }
  }

  lemma SelfScope(ids: seq<Identity>)
    ensures Filter(IsIn(ids), ids) == ids
  {
    forall x | x in ids ensures IsIn(ids)(x) {
      var i :| 0 <= i < |ids| && ids[i] == x;
      assert Same(ids[i], x);
    }
    FilterAll(IsIn(ids), ids);
  }

  lemma PlacedMeans(group: seq<Row>, manual: seq<Identity>, machine: string, tier: Tier, r: Row)
    ensures S.IsPlaced(Placements(group, manual, machine, tier))(r)
            <==> exists x :: x in manual && Applies(group, machine, tier)(x) && SessionRow(group, x.sessionId) == r
  {
    var applied, ps := Filter(Applies(group, machine, tier), manual), Placements(group, manual, machine, tier);
    if S.IsPlaced(ps)(r) {
      var p :| p in ps && p.row == r;
      var i :| 0 <= i < |ps| && ps[i] == p;
      assert applied[i] in manual && SessionRow(group, applied[i].sessionId) == r;
    }
    if x :| x in manual && Applies(group, machine, tier)(x) && SessionRow(group, x.sessionId) == r {
      assert x in applied;
      var i :| 0 <= i < |applied| && applied[i] == x;
      assert ps[i] in ps && ps[i].row == r;
    }
  }

  /** What was placed keeps a place, the moved row gains one, and no other does. */
  lemma RecordPlaces(machine: string, manual: seq<Identity>, part: seq<Row>, group: seq<Row>, m: Row, tier: Tier, r: Row)
    requires AllNamed(part) && UniqueRowIds(part) && UniqueRowIds(group) && m in part && forall r :: r in part ==> r in group
    ensures var recorded := RecordMove(manual, Ids(machine, part), Ids(machine, part), IdOf(machine, m), tier);
            S.IsPlaced(Placements(group, recorded, machine, tier))(r)
            <==> r == m || S.IsPlaced(Placements(group, manual, machine, tier))(r)
  {
    var ids, moving := Ids(machine, part), IdOf(machine, m);
    var recorded := RecordMove(manual, ids, ids, moving, tier);
    PlacedMeans(group, recorded, machine, tier, r);
    PlacedMeans(group, manual, machine, tier, r);
    if r == m {
      RecordPlacesMoved(machine, manual, part, group, m, tier);
    } else {
      if x :| x in manual && Applies(group, machine, tier)(x) && SessionRow(group, x.sessionId) == r {
        RecordKeepsPlace(machine, manual, part, group, m, tier, x);
      }
      if x :| x in recorded && Applies(group, machine, tier)(x) && SessionRow(group, x.sessionId) == r {
        RecordAddsNone(machine, manual, part, group, m, tier, x);
      }
    }
  }

  lemma RecordPlacesMoved(machine: string, manual: seq<Identity>, part: seq<Row>, group: seq<Row>, m: Row, tier: Tier)
    requires AllNamed(part) && UniqueRowIds(part) && UniqueRowIds(group) && m in part && forall r :: r in part ==> r in group
    ensures var recorded := RecordMove(manual, Ids(machine, part), Ids(machine, part), IdOf(machine, m), tier);
            S.IsPlaced(Placements(group, recorded, machine, tier))(m)
  {
    var ids, moving := Ids(machine, part), IdOf(machine, m);
    var recorded := RecordMove(manual, ids, ids, moving, tier);
    SelfScope(ids);
    SiblingIndex(machine, part, moving);
    var last := moving.(position := Some(IndexOf(ids, moving)), tier := Some(tier));
    assert last in recorded && HasSession(group, last.sessionId);
    SameIdSameRow(group, SessionRow(group, last.sessionId), m);
    PlacedMeans(group, recorded, machine, tier, m);
  }

  lemma RecordKeepsPlace(machine: string, manual: seq<Identity>, part: seq<Row>, group: seq<Row>, m: Row, tier: Tier, x: Identity)
    requires AllNamed(part) && UniqueRowIds(part) && UniqueRowIds(group) && m in part && forall r :: r in part ==> r in group
    requires x in manual && Applies(group, machine, tier)(x) && SessionRow(group, x.sessionId) != m
    ensures var recorded := RecordMove(manual, Ids(machine, part), Ids(machine, part), IdOf(machine, m), tier);
            S.IsPlaced(Placements(group, recorded, machine, tier))(SessionRow(group, x.sessionId))
  {
    var ids, moving, r := Ids(machine, part), IdOf(machine, m), SessionRow(group, x.sessionId);
    SelfScope(ids);
    SiblingIndex(machine, part, moving);
    assert !Same(x, moving) by { if Same(x, moving) { SameIdSameRow(group, r, m); } }
    ShiftedIsRecorded(manual, ids, moving, tier, x);
    assert Applies(group, machine, tier)(Shifted(x, ids, tier));
    PlacedMeans(group, RecordMove(manual, ids, ids, moving, tier), machine, tier, r);
  }

  lemma RecordAddsNone(machine: string, manual: seq<Identity>, part: seq<Row>, group: seq<Row>, m: Row, tier: Tier, x: Identity)
    requires AllNamed(part) && UniqueRowIds(part) && UniqueRowIds(group) && m in part && forall r :: r in part ==> r in group
    requires x in RecordMove(manual, Ids(machine, part), Ids(machine, part), IdOf(machine, m), tier)
    requires Applies(group, machine, tier)(x) && SessionRow(group, x.sessionId) != m
    ensures S.IsPlaced(Placements(group, manual, machine, tier))(SessionRow(group, x.sessionId))
  {
    var ids, moving, r := Ids(machine, part), IdOf(machine, m), SessionRow(group, x.sessionId);
    SelfScope(ids);
    SiblingIndex(machine, part, moving);
    if x == moving.(position := Some(IndexOf(ids, moving)), tier := Some(tier)) {
      SameIdSameRow(group, r, m);
    } else {
      var y := RecordedFrom(manual, ids, moving, tier, x);
      assert Applies(group, machine, tier)(y);
      PlacedMeans(group, manual, machine, tier, r);
    }
  }

  lemma ShiftedIsRecorded(manual: seq<Identity>, ids: seq<Identity>, moving: Identity, tier: Tier, x: Identity)
    requires x in manual && !Same(x, moving) && Filter(IsIn(ids), ids) == ids && IndexOf(ids, moving) < |ids|
    ensures Shifted(x, ids, tier) in RecordMove(manual, ids, ids, moving, tier)
  {
    var others := Filter(IsOther(moving), manual);
    assert x in others;
    var i :| 0 <= i < |others| && others[i] == x;
    assert ShiftAll(others, ids, tier)[i] == Shifted(x, ids, tier);
  }

  // ----- drop and show

  /** Every row before `r` passes. */
  predicate PassAbove(q: Row -> bool, rows: seq<Row>, r: Row) {
    forall i, j :: 0 <= i < j < |rows| && rows[j] == r ==> q(rows[i])
  }

  /** The scope holds every row before one that was moved or placed by hand. */
  ghost predicate ScopeReaches(q: Row -> bool, dropped: seq<Row>, placements: seq<S.Placement<Row>>, m: Row) {
    forall r :: r == m || S.IsPlaced(placements)(r) ==> PassAbove(q, dropped, r)
  }

  /** A row of the scope has the same index in it exactly when the scope holds all rows before. */
  lemma SameIndex(q: Row -> bool, rows: seq<Row>, k: nat)
    requires Distinct(rows) && k < |Filter(q, rows)|
    ensures PassAbove(q, rows, Filter(q, rows)[k]) <==> k < |rows| && rows[k] == Filter(q, rows)[k]
  {
    var r := Filter(q, rows)[k];
    assert r in rows;
    var j :| 0 <= j < |rows| && rows[j] == r;
    FilterIndex(q, rows, j);
    FilterDistinct(q, rows);
    assert k == |Filter(q, rows[..j])|;
    PassAboveMeans(q, rows, j);
    FilterFull(q, rows[..j]);
  }

  lemma FilterIndex(q: Row -> bool, rows: seq<Row>, j: nat)
    requires j < |rows| && q(rows[j])
    ensures var n := |Filter(q, rows[..j])|; n < |Filter(q, rows)| && Filter(q, rows)[n] == rows[j]
  {
    var before, rest := rows[..j], rows[j + 1..];
    assert rows == before + ([rows[j]] + rest);
    FilterAppend(q, before, [rows[j]] + rest);
    FilterCons(q, rows[j], rest);
  }

  lemma PassAboveMeans(q: Row -> bool, rows: seq<Row>, j: nat)
    requires Distinct(rows) && j < |rows|
    ensures PassAbove(q, rows, rows[j]) <==> forall x :: x in rows[..j] ==> q(x)
  {
    var before := rows[..j];
    if PassAbove(q, rows, rows[j]) {
      forall x | x in before ensures q(x) { var i :| 0 <= i < j && before[i] == x; assert rows[i] == x; }
    } else {
      var i, l :| 0 <= i < l < |rows| && rows[l] == rows[j] && !q(rows[i]);
      assert l == j && before[i] in before;
    }
  }

  lemma {:induction false} FilterFull(q: Row -> bool, rows: seq<Row>)
    ensures |Filter(q, rows)| == |rows| <==> forall x :: x in rows ==> q(x)
    decreases |rows|
  {
    if rows != [] {
      FilterFull(q, rows[1..]);
      assert rows == [rows[0]] + rows[1..];
    }
  }

  /** What the placements are after a drop whose scope is `part`: the rows of
      the scope want the slot that they have in it, the others what they wanted
      without the moved row, which comes last. */
  function PlacementsAfter(group: seq<Row>, manual: seq<Identity>, machine: string, tier: Tier, part: seq<Row>, m: Row): (r: seq<S.Placement<Row>>)
    requires m in part && m.session.id.Some?
  {
    var stay := Placements(group, Filter(IsOther(IdOf(machine, m)), manual), machine, tier);
    AllInScope(part, stay) + [S.Placement(m, S.SlotOf(part, m))]
  }

  function AllInScope(part: seq<Row>, ps: seq<S.Placement<Row>>): (r: seq<S.Placement<Row>>)
    ensures |r| == |ps| && forall i :: 0 <= i < |r| ==> r[i] == InScope(part, ps[i])
  {
    seq(|ps|, i requires 0 <= i < |ps| => InScope(part, ps[i]))
  }

  function InScope(part: seq<Row>, p: S.Placement<Row>): S.Placement<Row> {
    if p.row in part then S.Placement(p.row, S.SlotOf(part, p.row)) else p
  }

  lemma ShiftCons(x: Identity, rest: seq<Identity>, ids: seq<Identity>, tier: Tier)
    ensures ShiftAll([x] + rest, ids, tier) == [Shifted(x, ids, tier)] + ShiftAll(rest, ids, tier)
  {
  }

  lemma AppliesShifted(group: seq<Row>, machine: string, x: Identity, ids: seq<Identity>, tier: Tier)
    ensures Applies(group, machine, tier)(Shifted(x, ids, tier)) <==> Applies(group, machine, tier)(x)
  {
  }

  lemma {:induction false} ShiftFilter(group: seq<Row>, machine: string, manual: seq<Identity>, ids: seq<Identity>, tier: Tier)
    ensures Filter(Applies(group, machine, tier), ShiftAll(manual, ids, tier)) == ShiftAll(Filter(Applies(group, machine, tier), manual), ids, tier)
    decreases |manual|
  {
    if manual != [] {
      var x, rest, p := manual[0], manual[1..], Applies(group, machine, tier);
      ShiftFilter(group, machine, rest, ids, tier);
      assert manual == [x] + rest;
      ShiftCons(x, rest, ids, tier);
      AppliesShifted(group, machine, x, ids, tier);
      FilterCons(p, x, rest);
      FilterCons(p, Shifted(x, ids, tier), ShiftAll(rest, ids, tier));
      ShiftCons(x, Filter(p, rest), ids, tier);
    }
  }

  lemma ShiftedPlacement(machine: string, part: seq<Row>, group: seq<Row>, tier: Tier, x: Identity, i: nat)
    requires AllNamed(part) && UniqueRowIds(part) && UniqueRowIds(group) && (forall r :: r in part ==> r in group)
    requires Applies(group, machine, tier)(x)
    ensures HasSession(group, Shifted(x, Ids(machine, part), tier).sessionId)
    ensures PlacementOf(group, Shifted(x, Ids(machine, part), tier), i) == InScope(part, PlacementOf(group, x, i))
  {
    var ids, r := Ids(machine, part), SessionRow(group, x.sessionId);
    SiblingIndex(machine, part, x);
    var k := IndexOf(ids, x);
    if k < |part| {
      SameIdSameRow(group, part[k], r);
      SameIdSameRow(part, part[k], part[S.SlotOf(part, r)]);
      SlotIs(part, k);
    }
  }

  lemma SlotIs(part: seq<Row>, k: nat)
    requires AllNamed(part) && UniqueRowIds(part) && k < |part|
    ensures S.SlotOf(part, part[k]) == k
  {
    forall j | 0 <= j < k ensures part[j] != part[k] { assert part[j] in part; }
  }

  lemma RecordedApplied(machine: string, manual: seq<Identity>, part: seq<Row>, group: seq<Row>, m: Row, tier: Tier)
    requires AllNamed(part) && UniqueRowIds(part) && UniqueRowIds(group) && m in part && forall r :: r in part ==> r in group
    ensures var ids, moving := Ids(machine, part), IdOf(machine, m);
            var last := moving.(position := Some(S.SlotOf(part, m)), tier := Some(tier));
            && HasSession(group, last.sessionId) && SessionRow(group, last.sessionId) == m
            && Filter(Applies(group, machine, tier), RecordMove(manual, ids, ids, moving, tier))
               == ShiftAll(Filter(Applies(group, machine, tier), Filter(IsOther(moving), manual)), ids, tier) + [last]
  {
    var ids, moving, p := Ids(machine, part), IdOf(machine, m), Applies(group, machine, tier);
    SelfScope(ids);
    SiblingIndex(machine, part, moving);
    var k := IndexOf(ids, moving);
    SameIdSameRow(part, part[k], m);
    SlotIs(part, k);
    var others, last := Filter(IsOther(moving), manual), moving.(position := Some(k), tier := Some(tier));
    assert HasSession(group, last.sessionId) && p(last);
    SameIdSameRow(group, SessionRow(group, last.sessionId), m);
    FilterSnoc(p, ShiftAll(others, ids, tier), last);
    ShiftFilter(group, machine, others, ids, tier);
  }

  lemma ShiftedPlacements(machine: string, part: seq<Row>, group: seq<Row>, tier: Tier, kept: seq<Identity>)
    requires AllNamed(part) && UniqueRowIds(part) && UniqueRowIds(group) && (forall r :: r in part ==> r in group)
    requires forall x :: x in kept ==> Applies(group, machine, tier)(x)
    ensures forall x :: x in ShiftAll(kept, Ids(machine, part), tier) ==> HasSession(group, x.sessionId)
    ensures PlacementsOf(group, ShiftAll(kept, Ids(machine, part), tier)) == AllInScope(part, PlacementsOf(group, kept))
  {
    var shifted := ShiftAll(kept, Ids(machine, part), tier);
    forall i | 0 <= i < |kept|
      ensures HasSession(group, kept[i].sessionId) && HasSession(group, shifted[i].sessionId)
      ensures PlacementOf(group, shifted[i], i) == InScope(part, PlacementOf(group, kept[i], i))
    {
      assert kept[i] in kept;
      ShiftedPlacement(machine, part, group, tier, kept[i], i);
    }
    forall x | x in shifted ensures HasSession(group, x.sessionId) { var i :| 0 <= i < |shifted| && shifted[i] == x; }
  }

  lemma PlacementsSnoc(group: seq<Row>, xs: seq<Identity>, x: Identity)
    requires (forall y :: y in xs ==> HasSession(group, y.sessionId)) && HasSession(group, x.sessionId)
    ensures PlacementsOf(group, xs + [x]) == PlacementsOf(group, xs) + [PlacementOf(group, x, |xs|)]
  {
  }

  /** The record, read as placements. */
  lemma RecordedPlacements(machine: string, manual: seq<Identity>, part: seq<Row>, group: seq<Row>, m: Row, tier: Tier)
    requires AllNamed(part) && UniqueRowIds(part) && UniqueRowIds(group) && m in part && forall r :: r in part ==> r in group
    ensures Placements(group, RecordMove(manual, Ids(machine, part), Ids(machine, part), IdOf(machine, m), tier), machine, tier)
            == PlacementsAfter(group, manual, machine, tier, part, m)
  {
    var moving := IdOf(machine, m);
    var kept := Filter(Applies(group, machine, tier), Filter(IsOther(moving), manual));
    RecordedApplied(machine, manual, part, group, m, tier);
    ShiftedPlacements(machine, part, group, tier, kept);
    PlacementsSnoc(group, ShiftAll(kept, Ids(machine, part), tier), moving.(position := Some(S.SlotOf(part, m)), tier := Some(tier)));
  }

  /** Rows that were moved or placed are in the group, and the others keep their order. */
  lemma RecordKeepsRest(machine: string, manual: seq<Identity>, group: seq<Row>, q: Row -> bool, m: Row, t: Row, after: bool, tier: Tier)
    requires Distinct(group) && UniqueRowIds(group) && DistinctIdentities(manual) && forall r :: r in group && q(r) ==> r.session.id.Some?
    requires m in group && t in group && m != t && q(m)
    ensures var dropped := Dropped(Shown(group, manual, machine, tier), m, t, after);
            var ids := Ids(machine, Filter(q, dropped));
            var recorded := RecordMove(manual, ids, ids, IdOf(machine, m), tier);
            var ps := Placements(group, recorded, machine, tier);
            && DistinctIdentities(recorded) && S.Fits(group, ps)
            && Distinct(dropped) && |dropped| == |group| && (forall r :: r in dropped <==> r in group)
            && Filter(S.IsUnplaced(ps), dropped) == Filter(S.IsUnplaced(ps), group)
  {
    var shown := Shown(group, manual, machine, tier);
    ShownPermutes(group, manual, machine, tier);
    var dropped := Dropped(shown, m, t, after);
    DroppedPermutes(shown, m, t, after);
    var part := Filter(q, dropped);
    FilterDistinct(q, dropped);
    UniqueIdsSubset(group, part);
    var ids := Ids(machine, part);
    var recorded := RecordMove(manual, ids, ids, IdOf(machine, m), tier);
    RecordMoveDistinct(manual, ids, ids, IdOf(machine, m), tier);
    PlacementsFit(group, manual, machine, tier);
    PlacementsFit(group, recorded, machine, tier);
    var ps, ps' := Placements(group, manual, machine, tier), Placements(group, recorded, machine, tier);
    S.ArrangePermutes(group, ps);
    forall r ensures S.IsPlaced(ps')(r) <==> r == m || S.IsPlaced(ps)(r) { RecordPlaces(machine, manual, part, group, m, tier, r); }
    RestAgrees(S.IsUnplaced(ps'), S.IsUnplaced(ps), group, shown, dropped, m);
  }

  /** A drop is shown exactly when every placement that it leads to lands in the
      slot that its row was dropped into, whatever was placed and whatever the
      scope. */
  lemma DropExact(machine: string, manual: seq<Identity>, group: seq<Row>, q: Row -> bool, m: Row, t: Row, after: bool, tier: Tier)
    requires Distinct(group) && UniqueRowIds(group) && DistinctIdentities(manual) && forall r :: r in group && q(r) ==> r.session.id.Some?
    requires m in group && t in group && m != t && q(m)
    ensures var dropped := Dropped(Shown(group, manual, machine, tier), m, t, after);
            var ids := Ids(machine, Filter(q, dropped));
            var recorded := RecordMove(manual, ids, ids, IdOf(machine, m), tier);
            && DistinctIdentities(recorded) && m in Filter(q, dropped)
            && (Shown(group, recorded, machine, tier) == dropped
                <==> S.AllLand(dropped, PlacementsAfter(group, manual, machine, tier, Filter(q, dropped), m)))
  {
    var dropped := Dropped(Shown(group, manual, machine, tier), m, t, after);
    RecordKeepsRest(machine, manual, group, q, m, t, after, tier);
    FilterDistinct(q, dropped);
    UniqueIdsSubset(group, Filter(q, dropped));
    RecordedPlacements(machine, manual, Filter(q, dropped), group, m, tier);
    var ps := PlacementsAfter(group, manual, machine, tier, Filter(q, dropped), m);
    forall j | 0 <= j < |ps| ensures ps[j].row in dropped { assert ps[j] in ps; }
    S.ArrangeExact(group, ps, dropped);
  }

  lemma ArrangedExact(group: seq<Row>, ps: seq<S.Placement<Row>>, q: Row -> bool, target: seq<Row>)
    requires S.Fits(group, ps) && |target| == |group| && Distinct(target)
    requires var part := Filter(q, target);
             forall i :: 0 <= i < |ps| ==> ps[i].wanted < |part| && part[ps[i].wanted] == ps[i].row
    requires Filter(S.IsUnplaced(ps), target) == Filter(S.IsUnplaced(ps), group)
    ensures S.Arrange(group, ps) == target <==> forall r :: S.IsPlaced(ps)(r) ==> PassAbove(q, target, r)
  {
    var part := Filter(q, target);
    FilterDistinct(q, target);
    forall i | 0 <= i < |ps| ensures PassAbove(q, target, ps[i].row) <==> target[ps[i].wanted] == ps[i].row {
      SameIndex(q, target, ps[i].wanted);
    }
    if forall r :: S.IsPlaced(ps)(r) ==> PassAbove(q, target, r) {
      forall i | 0 <= i < |ps| ensures target[ps[i].wanted] == ps[i].row { assert ps[i] in ps && S.IsPlaced(ps)(ps[i].row); }
      S.ArrangeIsUnique(group, ps, target);
    }
    if S.Arrange(group, ps) == target {
      assert S.DistinctInRange(|group|, ps);
      forall r | S.IsPlaced(ps)(r) ensures PassAbove(q, target, r) {
        var p :| p in ps && p.row == r;
        var i :| 0 <= i < |ps| && ps[i] == p;
        S.PositionsAreHonoured(group, ps, i);
      }
    }
  }

  /** A drop whose scope holds the moved row and every row placed by hand is
      shown exactly when the scope holds every row above one of those. */
  lemma ScopedDropExact(machine: string, manual: seq<Identity>, group: seq<Row>, q: Row -> bool, m: Row, t: Row, after: bool, tier: Tier)
    requires Distinct(group) && UniqueRowIds(group) && DistinctIdentities(manual) && forall r :: r in group && q(r) ==> r.session.id.Some?
    requires m in group && t in group && m != t && q(m)
    requires forall r :: S.IsPlaced(Placements(group, manual, machine, tier))(r) ==> q(r)
    ensures var dropped := Dropped(Shown(group, manual, machine, tier), m, t, after);
            var ids := Ids(machine, Filter(q, dropped));
            var recorded := RecordMove(manual, ids, ids, IdOf(machine, m), tier);
            && DistinctIdentities(recorded)
            && (Shown(group, recorded, machine, tier) == dropped
                <==> ScopeReaches(q, dropped, Placements(group, manual, machine, tier), m))
  {
    var dropped := Dropped(Shown(group, manual, machine, tier), m, t, after);
    RecordKeepsRest(machine, manual, group, q, m, t, after, tier);
    var part := Filter(q, dropped);
    FilterDistinct(q, dropped);
    UniqueIdsSubset(group, part);
    var recorded := RecordMove(manual, Ids(machine, part), Ids(machine, part), IdOf(machine, m), tier);
    var ps, ps' := Placements(group, manual, machine, tier), Placements(group, recorded, machine, tier);
    forall r ensures S.IsPlaced(ps')(r) <==> r == m || S.IsPlaced(ps)(r) { RecordPlaces(machine, manual, part, group, m, tier, r); }
    var applied := Filter(Applies(group, machine, tier), recorded);
    forall i | 0 <= i < |ps'| ensures ps'[i].wanted < |part| && part[ps'[i].wanted] == ps'[i].row {
      assert applied[i] in recorded && ps'[i] in ps' && S.IsPlaced(ps')(ps'[i].row);
      RecordedPosition(machine, manual, part, group, m, tier, applied[i]);
    }
    ArrangedExact(group, ps', q, dropped);
    assert ScopeReaches(q, dropped, ps, m) <==> forall r :: S.IsPlaced(ps')(r) ==> PassAbove(q, dropped, r);
  }

  lemma DropArranges(machine: string, manual: seq<Identity>, group: seq<Row>, m: Row, t: Row, after: bool, tier: Tier)
    requires Distinct(group) && UniqueRowIds(group) && AllNamed(group) && DistinctIdentities(manual)
    requires m in group && t in group && m != t
    ensures var dropped := Dropped(Shown(group, manual, machine, tier), m, t, after);
            var recorded := RecordMove(manual, Ids(machine, dropped), Ids(machine, dropped), IdOf(machine, m), tier);
            DistinctIdentities(recorded) && Shown(group, recorded, machine, tier) == dropped
  {
    var all := (r: Row) => true;
    FilterAll(all, Dropped(Shown(group, manual, machine, tier), m, t, after));
    ScopedDropExact(machine, manual, group, all, m, t, after, tier);
  }

  lemma RestAgrees(p: Row -> bool, q: Row -> bool, group: seq<Row>, shown: seq<Row>, dropped: seq<Row>, m: Row)
    requires forall r :: p(r) ==> r != m && q(r)
    requires Filter(q, shown) == Filter(q, group) && Filter(IsNot(m), dropped) == Filter(IsNot(m), shown)
    ensures Filter(p, dropped) == Filter(p, group)
  {
    FilterTwice(p, IsNot(m), dropped);
    FilterTwice(p, IsNot(m), shown);
    FilterTwice(p, q, shown);
    FilterTwice(p, q, group);
  }

  /** The rows of one tier under one parent, as they are shown. */
  ghost function ShownGroup(rows: seq<Row>, manual: seq<Identity>, machine: string, key: Option<SessionId>, tier: Tier): seq<Row>
    requires Distinct(rows) && DistinctIdentities(manual)
  {
    Filter(InGroup(Priorities(rows), key, tier), OrderTriage(rows, manual, machine))
  }

  /** The manual order after a drop whose scope is `part`. */
  ghost function AfterDrop(rows: seq<Row>, manual: seq<Identity>, machine: string, tier: Tier, part: seq<Row>,
                           m: Row, t: Row, after: bool): seq<Identity>
    requires Distinct(rows) && DistinctIdentities(manual) && m.session.id.Some? && t.session.id.Some?
  {
    var next := MoveRelative(Ids(machine, OrderTriage(rows, manual, machine)), Ids(machine, part), IdOf(machine, m), IdOf(machine, t), after);
    RecordMove(manual, next, Ids(machine, part), IdOf(machine, m), tier)
  }

  /** Two rows of a scope that is part of their group as shown. */
  ghost predicate InOneGroup(rows: seq<Row>, manual: seq<Identity>, machine: string, key: Option<SessionId>, tier: Tier, part: seq<Row>, m: Row, t: Row)
    requires Distinct(rows) && DistinctIdentities(manual)
  {
    && AllNamed(part) && m in part && t in part && m != t
    && forall r :: r in part ==> r in ShownGroup(rows, manual, machine, key, tier)
  }

  /** A drop records the order of the dropped rows of its scope. */
  lemma AfterDropIs(rows: seq<Row>, manual: seq<Identity>, machine: string, key: Option<SessionId>, tier: Tier, part: seq<Row>,
                    m: Row, t: Row, after: bool)
    requires UniqueRows(rows) && DistinctIdentities(manual) && InOneGroup(rows, manual, machine, key, tier, part, m, t)
    ensures var ids := Ids(machine, Filter(InPart(part), Dropped(ShownGroup(rows, manual, machine, key, tier), m, t, after)));
            AfterDrop(rows, manual, machine, tier, part, m, t, after) == RecordMove(manual, ids, ids, IdOf(machine, m), tier)
  {
    var out, q := OrderTriage(rows, manual, machine), InGroup(Priorities(rows), key, tier);
    TriagePermutes(rows, manual, machine);
    UniqueIdsSubset(rows, out);
    MovedSiblings(machine, out, q, part, m, t, after);
    SelfScope(Ids(machine, Filter(InPart(part), Dropped(Filter(q, out), m, t, after))));
  }

  /** A group as it is shown and as it is arranged. */
  lemma GroupFacts(rows: seq<Row>, manual: seq<Identity>, machine: string, key: Option<SessionId>, tier: Tier)
    requires UniqueRows(rows) && DistinctIdentities(manual) && ShownByRank(rows, key)
    ensures var group := Group(rows, key, tier);
            && Distinct(group) && UniqueRowIds(group)
            && ShownGroup(rows, manual, machine, key, tier) == Shown(group, manual, machine, tier)
            && forall r :: r in ShownGroup(rows, manual, machine, key, tier) <==> r in group
  {
    GroupIsShown(rows, manual, machine, key, tier);
    GroupIsDistinct(rows, key, tier);
    ShownPermutes(Group(rows, key, tier), manual, machine, tier);
    UniqueIdsSubset(rows, Group(rows, key, tier));
  }

  /** With the whole group as scope, what you drop is what you see. */
  lemma DropIsShown(rows: seq<Row>, manual: seq<Identity>, machine: string, key: Option<SessionId>, tier: Tier, m: Row, t: Row, after: bool)
    requires UniqueRows(rows) && DistinctIdentities(manual) && ShownByRank(rows, key)
    requires InOneGroup(rows, manual, machine, key, tier, ShownGroup(rows, manual, machine, key, tier), m, t)
    ensures var group := ShownGroup(rows, manual, machine, key, tier);
            var recorded := AfterDrop(rows, manual, machine, tier, group, m, t, after);
            && DistinctIdentities(recorded) && ShownGroup(rows, recorded, machine, key, tier) == Dropped(group, m, t, after)
            && Beside(ShownGroup(rows, recorded, machine, key, tier), m, t, after)
  {
    var group, shown := Group(rows, key, tier), ShownGroup(rows, manual, machine, key, tier);
    GroupFacts(rows, manual, machine, key, tier);
    AfterDropIs(rows, manual, machine, key, tier, shown, m, t, after);
    ShownPermutes(group, manual, machine, tier);
    DroppedPermutes(shown, m, t, after);
    FilterAll(InPart(shown), Dropped(shown, m, t, after));
    DropArranges(machine, manual, group, m, t, after, tier);
    GroupFacts(rows, AfterDrop(rows, manual, machine, tier, shown, m, t, after), machine, key, tier);
  }

  // ----- the other groups

  lemma {:induction false} ShiftElsewhere(p: Identity -> bool, manual: seq<Identity>, siblings: seq<Identity>, tier: Tier)
    requires forall x, y :: x in manual && p(y) && Same(x, y) ==> !Includes(siblings, x)
    ensures Filter(p, ShiftAll(manual, siblings, tier)) == Filter(p, manual)
    decreases |manual|
  {
    if manual != [] {
      var x := manual[0];
      ShiftElsewhere(p, manual[1..], siblings, tier);
      assert ShiftAll(manual, siblings, tier)[1..] == ShiftAll(manual[1..], siblings, tier);
      var y := Shifted(x, siblings, tier);
      assert Same(x, y) && Same(x, x);
      if IndexOf(siblings, x) < |siblings| { assert Includes(siblings, x) by { assert Same(siblings[IndexOf(siblings, x)], x); } }
      if Includes(siblings, x) { assert !p(x) && !p(y); } else { assert IndexOf(siblings, x) == |siblings|; }
    }
  }

  /** Recording a move keeps every identity that applies outside the scope. */
  lemma RecordElsewhere(p: Identity -> bool, manual: seq<Identity>, ids: seq<Identity>, moving: Identity, tier: Tier)
    requires forall x, y :: p(y) && Same(x, y) ==> !Includes(ids, x)
    ensures Filter(p, RecordMove(manual, ids, ids, moving, tier)) == Filter(p, manual)
  {
    SelfScope(ids);
    var k := IndexOf(ids, moving);
    if k < |ids| {
      var others, last := Filter(IsOther(moving), manual), moving.(position := Some(k), tier := Some(tier));
      assert Same(ids[k], moving) && Same(moving, last);
      assert Includes(ids, moving);
      assert !p(last);
      FilterAppend(p, ShiftAll(others, ids, tier), [last]);
      ShiftElsewhere(p, others, ids, tier);
      assert forall x :: Same(moving, x) ==> !p(x);
      assert forall x :: Same(x, moving) <==> Same(moving, x);
      FilterTwice(p, IsOther(moving), manual);
    }
  }

  /** A session in two groups is in one group. */
  lemma GroupsShareNoId(rows: seq<Row>, machine: string, key: Option<SessionId>, tier: Tier, dropped: seq<Row>,
                        key': Option<SessionId>, tier': Tier, x: Identity, y: Identity)
    requires UniqueRows(rows) && Applies(Group(rows, key', tier'), machine, tier')(y) && Same(x, y)
    requires forall r :: r in dropped ==> r in rows && InGroup(Priorities(rows), key, tier)(r)
    ensures Includes(Ids(machine, dropped), x) ==> (key, tier) == (key', tier')
  {
    IdsMembers(machine, dropped, x);
    GroupIsDistinct(rows, key', tier');
    if Includes(Ids(machine, dropped), x) {
      var r :| r in dropped && r.session.id.Some? && r.session.id.value == x.sessionId;
      SameIdSameRow(rows, r, SessionRow(Group(rows, key', tier'), y.sessionId));
    }
  }

  /** A drop leaves every other group as it was, whatever its scope. */
  lemma DropElsewhere(rows: seq<Row>, manual: seq<Identity>, machine: string, key: Option<SessionId>, tier: Tier, part: seq<Row>,
                      m: Row, t: Row, after: bool, key': Option<SessionId>, tier': Tier)
    requires UniqueRows(rows) && DistinctIdentities(manual) && ShownByRank(rows, key') && (key, tier) != (key', tier')
    requires InOneGroup(rows, manual, machine, key, tier, part, m, t)
    ensures var recorded := AfterDrop(rows, manual, machine, tier, part, m, t, after);
            && DistinctIdentities(recorded)
            && ShownGroup(rows, recorded, machine, key', tier') == ShownGroup(rows, manual, machine, key', tier')
  {
    var group := Group(rows, key', tier');
    var dropped := Filter(InPart(part), Dropped(ShownGroup(rows, manual, machine, key, tier), m, t, after));
    var ids, p := Ids(machine, dropped), Applies(group, machine, tier');
    AfterDropIs(rows, manual, machine, key, tier, part, m, t, after);
    RecordMoveDistinct(manual, ids, ids, IdOf(machine, m), tier);
    TriagePermutes(rows, manual, machine);
    GroupIsDistinct(rows, key', tier');
    forall x, y | p(y) && Same(x, y) ensures !Includes(ids, x) {
      GroupsShareNoId(rows, machine, key, tier, dropped, key', tier', x, y);
    }
    RecordElsewhere(p, manual, ids, IdOf(machine, m), tier);
    GroupIsShown(rows, manual, machine, key', tier');
    GroupIsShown(rows, AfterDrop(rows, manual, machine, tier, part, m, t, after), machine, key', tier');
  }
}
