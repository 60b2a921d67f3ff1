/**
 Urgency of sessions, and the most urgent member of every subtree:
 public/session-triage.ts.
 */
module SessionTriage {
  import opened Common
  import opened Sequences
  import opened Preorder
  import opened SessionModel

  function TierPriority(t: Tier): nat {
    match t
    case Need => 0
    case Fail => 1
    case Work => 2
    case Idle => 3
  }

  /** compareSessionTriage: negative when `l` is more urgent than `r`. */
  function Compare(l: Session, r: Session): int {
    var priority := TierPriority(l.tier) - TierPriority(r.tier);
    if priority != 0 || l.tier.Fail? then priority else
    var leftAt := if l.tier.Need? then l.changedAt else l.activeAt;
    var rightAt := if l.tier.Need? then r.changedAt else r.activeAt;
    if leftAt.None? then (if rightAt.None? then 0 else 1)
    else if rightAt.None? then -1
    else if l.tier.Need? then leftAt.value - rightAt.value
    else rightAt.value - leftAt.value
  }

  predicate AtLeastAsUrgent(l: Session, r: Session) {
    Compare(l, r) <= 0
  }

  /** Need before fail before work before idle. */
  predicate EarlierTier(s: Tier, t: Tier) {
    match s
    case Need => !t.Need?
    case Fail => t.Work? || t.Idle?
    case Work => t.Idle?
    case Idle => false
  }

  /** A known time before an unknown one. */
  predicate Sooner(a: Option<int>, b: Option<int>) {
    a.Some? && (b.None? || a.value < b.value)
  }

  predicate Later(a: Option<int>, b: Option<int>) {
    a.Some? && (b.None? || a.value > b.value)
  }

  /** Who comes first: by tier; among those in need whoever has waited longer,
      among the working and the idle whoever was active last, and among the
      failed nobody. */
  predicate GoesFirst(l: Session, r: Session) {
    || EarlierTier(l.tier, r.tier)
    || (l.tier == r.tier && l.tier.Need? && Sooner(l.changedAt, r.changedAt))
    || (l.tier == r.tier && (l.tier.Work? || l.tier.Idle?) && Later(l.activeAt, r.activeAt))
  }

  /** The comparison is a total preorder whose two directions agree, and tells
      who comes first. */
  lemma CompareIsTotalPreorder()
    ensures TotalPreorder(AtLeastAsUrgent)
    ensures forall l, r :: Compare(l, r) < 0 <==> Compare(r, l) > 0
    ensures forall l, r :: Compare(l, r) < 0 <==> GoesFirst(l, r)
    ensures forall l, r :: AtLeastAsUrgent(l, r) ==> !EarlierTier(r.tier, l.tier)
  {
  }

  // ----- climbing

  function RowById(rows: seq<Row>, id: SessionId): (r: Option<Row>)
    ensures r.Some? ==> r.value in rows && r.value.session.id == Some(id)
    ensures r.None? ==> forall row :: row in rows ==> row.session.id != Some(id)
    decreases |rows|
  {
    if rows == [] then None
    else if rows[|rows| - 1].session.id == Some(id) then Some(rows[|rows| - 1])
    else RowById(rows[..|rows| - 1], id)
  }

  /** Where an id occurs more than once, the last row with it is the one found. */
  lemma {:induction false} RowByIdIsLast(rows: seq<Row>, i: nat)
    requires i < |rows| && rows[i].session.id.Some? && forall j :: i < j < |rows| ==> rows[j].session.id != rows[i].session.id
    ensures RowById(rows, rows[i].session.id.value) == Some(rows[i])
    decreases |rows|
  {
    if i < |rows| - 1 { RowByIdIsLast(rows[..|rows| - 1], i); }
  }

  function ParentKey(row: Row): Option<SessionId> {
    if row.role.Child? then row.parent else None
  }

  function ParentRow(rows: seq<Row>, row: Row): (r: Option<Row>)
    ensures r.Some? ==> r.value in rows
  {
    if ParentKey(row).Some? then RowById(rows, ParentKey(row).value) else None
  }

  /** `a` is `n` parents above `r`. */
  predicate ClimbsIn(rows: seq<Row>, r: Row, a: Row, n: nat)
    decreases n
  {
    if n == 0 then r == a
    else ParentRow(rows, r).Some? && ClimbsIn(rows, ParentRow(rows, r).value, a, n - 1)
  }

  /** `r` is in the subtree of `a`. */
  ghost predicate Climbs(rows: seq<Row>, r: Row, a: Row) {
    exists n: nat :: ClimbsIn(rows, r, a, n)
  }

  lemma ClimbsSelf(rows: seq<Row>, r: Row)
    ensures Climbs(rows, r, r)
  {
    assert ClimbsIn(rows, r, r, 0);
  }

  lemma ClimbsStep(rows: seq<Row>, r: Row, a: Row)
    requires r != a
    ensures Climbs(rows, r, a) <==> ParentRow(rows, r).Some? && Climbs(rows, ParentRow(rows, r).value, a)
  {
    if Climbs(rows, r, a) {
      var n: nat :| ClimbsIn(rows, r, a, n);
      assert ClimbsIn(rows, ParentRow(rows, r).value, a, n - 1);
    }
    if ParentRow(rows, r).Some? && Climbs(rows, ParentRow(rows, r).value, a) {
      var n: nat :| ClimbsIn(rows, ParentRow(rows, r).value, a, n);
      assert ClimbsIn(rows, r, a, n + 1);
    }
  }

  // ----- priorities

  function RowSet(rows: seq<Row>): set<Row> {
    set r | r in rows
  }

  function MoreUrgent(candidate: Session, current: Session): Session {
    if Compare(candidate, current) < 0 then candidate else current
  }

  /** One upward walk: offers `s` to every ancestor from `a` on, once each. */
  function Offer(rows: seq<Row>, best: map<Row, Session>, s: Session, a: Option<Row>, visited: set<Row>): (r: map<Row, Session>)
    requires best.Keys == RowSet(rows) && (a.Some? ==> a.value in rows)
    ensures r.Keys == RowSet(rows)
    decreases |RowSet(rows) - visited|
  {
    if a.None? || a.value in visited then best
    else
      assert a.value in RowSet(rows) - visited;
      CardinalityLess(RowSet(rows) - (visited + {a.value}), RowSet(rows) - visited);
      Offer(rows, best[a.value := MoreUrgent(s, best[a.value])], s, ParentRow(rows, a.value), visited + {a.value})
  }

  function PrioritiesAfter(rows: seq<Row>, n: nat): (r: map<Row, Session>)
    requires n <= |rows|
    ensures r.Keys == RowSet(rows)
    decreases n
  {
    if n == 0 then map r | r in rows :: r.session
    else Offer(rows, PrioritiesAfter(rows, n - 1), rows[n - 1].session, ParentRow(rows, rows[n - 1]), {rows[n - 1]})
  }

  /** sessionTriagePriorities. */
  function Priorities(rows: seq<Row>): (r: map<Row, Session>)
    ensures r.Keys == RowSet(rows)
  {
    PrioritiesAfter(rows, |rows|)
  }

  /** The upward walk of one row. */
  method OfferUp(rows: seq<Row>, best0: map<Row, Session>, row: Row) returns (best: map<Row, Session>)
    requires best0.Keys == RowSet(rows)
    ensures best == Offer(rows, best0, row.session, ParentRow(rows, row), {row})
  {
    best := best0;
    var visited := {row};
    var ancestor := ParentRow(rows, row);
    while ancestor.Some? && ancestor.value !in visited
      invariant best.Keys == RowSet(rows) && (ancestor.Some? ==> ancestor.value in rows)
      invariant Offer(rows, best, row.session, ancestor, visited) == Offer(rows, best0, row.session, ParentRow(rows, row), {row})
      decreases |RowSet(rows) - visited|
    {
      assert ancestor.value in RowSet(rows) - visited;
      CardinalityLess(RowSet(rows) - (visited + {ancestor.value}), RowSet(rows) - visited);
      visited := visited + {ancestor.value};
      if Compare(row.session, best[ancestor.value]) < 0 {
        best := best[ancestor.value := row.session];
      } else {
        assert best == best[ancestor.value := best[ancestor.value]];
      }
      ancestor := ParentRow(rows, ancestor.value);
    }
  }

  method SessionTriagePriorities(rows: seq<Row>) returns (best: map<Row, Session>)
    ensures best == Priorities(rows)
  {
    best := map r | r in rows :: r.session;
    for i := 0 to |rows|
      invariant best == PrioritiesAfter(rows, i)
    {
      best := OfferUp(rows, best, rows[i]);
    }
  }

  // ----- what the walks leave behind

  ghost predicate ClimbsFrom(rows: seq<Row>, a: Option<Row>, x: Row) {
    a.Some? && Climbs(rows, a.value, x)
  }

  /** The visited rows form the chain below `a`. */
  ghost predicate Below(rows: seq<Row>, visited: set<Row>, a: Option<Row>) {
    forall v :: v in visited ==>
      ParentRow(rows, v) == a || (ParentRow(rows, v).Some? && ParentRow(rows, v).value in visited)
  }

  lemma {:induction false} ClosedChain(rows: seq<Row>, visited: set<Row>, v: Row, x: Row, n: nat)
    requires forall w :: w in visited && ParentRow(rows, w).Some? ==> ParentRow(rows, w).value in visited
    requires v in visited && ClimbsIn(rows, v, x, n)
    ensures x in visited
    decreases n
  {
    if n > 0 { ClosedChain(rows, visited, ParentRow(rows, v).value, x, n - 1); }
  }

  lemma {:induction false} OfferMeans(rows: seq<Row>, best: map<Row, Session>, s: Session, a: Option<Row>, visited: set<Row>, x: Row)
    requires best.Keys == RowSet(rows) && (a.Some? ==> a.value in rows) && x in rows && Below(rows, visited, a)
    ensures Offer(rows, best, s, a, visited)[x]
            == if x !in visited && ClimbsFrom(rows, a, x) then MoreUrgent(s, best[x]) else best[x]
    decreases |RowSet(rows) - visited|
  {
    if a.None? {
    } else if a.value in visited {
      if ClimbsFrom(rows, a, x) {
        var n: nat :| ClimbsIn(rows, a.value, x, n);
        ClosedChain(rows, visited, a.value, x, n);
      }
    } else {
      var up := ParentRow(rows, a.value);
      assert a.value in RowSet(rows) - visited;
      CardinalityLess(RowSet(rows) - (visited + {a.value}), RowSet(rows) - visited);
      OfferMeans(rows, best[a.value := MoreUrgent(s, best[a.value])], s, up, visited + {a.value}, x);
      if x == a.value { ClimbsSelf(rows, x); } else { ClimbsStep(rows, a.value, x); }
    }
  }

  /** `c` has been offered to `a`: it is `a` itself, or one of the first `n` rows and in the subtree of `a`. */
  ghost predicate Offered(rows: seq<Row>, n: nat, c: Row, a: Row)
    requires n <= |rows|
  {
    c == a || (c in rows[..n] && Climbs(rows, c, a))
  }

  ghost predicate BestOf(rows: seq<Row>, n: nat, best: Session, a: Row)
    requires n <= |rows|
  {
    && (exists c :: Offered(rows, n, c, a) && c.session == best)
    && (forall c :: Offered(rows, n, c, a) ==> AtLeastAsUrgent(best, c.session))
  }

  lemma {:induction false} PrioritiesAfterMean(rows: seq<Row>, n: nat, a: Row)
    requires n <= |rows| && a in rows
    ensures BestOf(rows, n, PrioritiesAfter(rows, n)[a], a)
    decreases n
  {
    CompareIsTotalPreorder();
    if n == 0 {
      assert Offered(rows, 0, a, a);
    } else {
      PrioritiesAfterMean(rows, n - 1, a);
      var r, before := rows[n - 1], PrioritiesAfter(rows, n - 1);
      OfferMeans(rows, before, r.session, ParentRow(rows, r), {r}, a);
      assert forall c :: c in rows[..n] <==> c in rows[..n - 1] || c == r;
      if r == a { ClimbsSelf(rows, r); } else { ClimbsStep(rows, r, a); }
      var c :| Offered(rows, n - 1, c, a) && c.session == before[a];
      assert Offered(rows, n, c, a);
      assert r != a && Climbs(rows, r, a) ==> Offered(rows, n, r, a);
    }
  }

  /** Every row's priority is a member of its own subtree, and none is more
      urgent, on any parent graph. */
  lemma PriorityIsMostUrgent(rows: seq<Row>, a: Row)
    requires a in rows
    ensures exists c :: c in rows && Climbs(rows, c, a) && c.session == Priorities(rows)[a]
    ensures forall c :: c in rows && Climbs(rows, c, a) ==> AtLeastAsUrgent(Priorities(rows)[a], c.session)
  {
    PrioritiesAfterMean(rows, |rows|, a);
    assert rows[..|rows|] == rows;
    ClimbsSelf(rows, a);
    var c :| Offered(rows, |rows|, c, a) && c.session == Priorities(rows)[a];
    assert c in rows && Climbs(rows, c, a);
    forall c | c in rows && Climbs(rows, c, a) ensures AtLeastAsUrgent(Priorities(rows)[a], c.session) {
      assert Offered(rows, |rows|, c, a);
    }
  }
}
