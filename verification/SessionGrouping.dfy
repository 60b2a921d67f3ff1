/**
 Label groups of session rows (public/session-grouping.ts) and the rows a
 sidebar shows under collapsed parents (visibleDelegationRows of public/app.ts).
 */
module SessionGrouping {
  import opened Common
  import opened Sequences
  import opened SessionModel
  import opened DelegationSessions
  import opened DelegationRoots
  import opened SessionTriage
  import opened RowOrder
  import opened SessionOrder
  import opened TriageOrder
  import opened TriageTheorems

  // ----- buckets

  /** The kind and label of a group; only the kind "group" has labels. */
  datatype Bucket = Labelled(name: string) | NoLabel | NoRecord | Unsupported

  datatype LabelGroup = LabelGroup(bucket: Bucket, rows: seq<Row>)

  function BucketOf(inventory: seq<Session>, s: Session): Bucket {
    var root := GroupRoot(inventory, s);
    if root.None? then NoRecord else
    match root.value.organization
    case Undeclared => Unsupported
    case Unavailable => NoRecord
    case Organized(group) => if group.Some? then Labelled(group.value) else NoLabel
  }

  function InBucket(inventory: seq<Session>, b: Bucket): Row -> bool {
    (row: Row) => BucketOf(inventory, row.session) == b
  }

  // ----- the order of the buckets

  function KindRank(b: Bucket): nat {
    match b
    case Labelled(_) => 0
    case NoLabel => 1
    case NoRecord => 2
    case Unsupported => 3
  }

  /** The `<` of strings: by code units. */
  predicate StringLess(a: string, b: string)
    decreases |a|
  {
    if b == "" then false
    else if a == "" then true
    else a[0] < b[0] || (a[0] == b[0] && StringLess(a[1..], b[1..]))
  }

  predicate Precedes(a: Bucket, b: Bucket) {
    KindRank(a) < KindRank(b) || (a.Labelled? && b.Labelled? && StringLess(a.name, b.name))
  }

  function NotAfter(): (LabelGroup, LabelGroup) -> bool {
    (a: LabelGroup, b: LabelGroup) => !Precedes(b.bucket, a.bucket)
  }

  lemma {:induction false} StringsCompare(a: string, b: string)
    ensures StringLess(a, b) ==> !StringLess(b, a) && a != b
    ensures StringLess(a, b) || StringLess(b, a) || a == b
    decreases |a|
  {
    if a != "" && b != "" {
      StringsCompare(a[1..], b[1..]);
      assert a == [a[0]] + a[1..] && b == [b[0]] + b[1..];
    }
  }

  lemma {:induction false} StringsTransitive(a: string, b: string, c: string)
    requires StringLess(a, b) && StringLess(b, c)
    ensures StringLess(a, c)
    decreases |a|
  {
    if a != "" && a[0] == b[0] && b[0] == c[0] { StringsTransitive(a[1..], b[1..], c[1..]); }
  }

  lemma BucketsCompare(a: Bucket, b: Bucket)
    ensures Precedes(a, b) ==> !Precedes(b, a) && a != b
    ensures Precedes(a, b) || Precedes(b, a) || a == b
  {
    if a.Labelled? && b.Labelled? { StringsCompare(a.name, b.name); }
  }

  lemma PrecedesTransitive(a: Bucket, b: Bucket, c: Bucket)
    requires Precedes(a, b) && Precedes(b, c)
    ensures Precedes(a, c)
  {
    if a.Labelled? && b.Labelled? && c.Labelled? { StringsTransitive(a.name, b.name, c.name); }
  }

  lemma NotAfterIsTotal()
    ensures TotalPreorder(NotAfter())
  {
    forall x, y ensures NotAfter()(x, y) || NotAfter()(y, x) { BucketsCompare(x.bucket, y.bucket); }
    forall x, y, z | NotAfter()(x, y) && NotAfter()(y, z) ensures NotAfter()(x, z) {
      BucketsCompare(x.bucket, y.bucket);
      BucketsCompare(y.bucket, z.bucket);
      BucketsCompare(x.bucket, z.bucket);
      if Precedes(x.bucket, y.bucket) && Precedes(y.bucket, z.bucket) { PrecedesTransitive(x.bucket, y.bucket, z.bucket); }
    }
  }

  /** `a` is cut short by the end of it, or has the smaller code unit where the two first differ. */
  ghost predicate LessAt(a: string, b: string, k: nat) {
    k <= |a| && k < |b| && a[..k] == b[..k] && (k == |a| || a[k] < b[k])
  }

  ghost predicate Alphabetic(a: string, b: string) {
    exists k: nat :: LessAt(a, b, k)
  }

  lemma {:induction false} StringLessMeans(a: string, b: string)
    ensures StringLess(a, b) <==> Alphabetic(a, b)
    decreases |a|
  {
    if a == "" || b == "" || a[0] != b[0] {
      assert StringLess(a, b) ==> LessAt(a, b, 0);
      forall k: nat | LessAt(a, b, k) ensures StringLess(a, b) {
        if k > 0 { assert a[..k][0] == b[..k][0]; }
      }
    } else {
      StringLessMeans(a[1..], b[1..]);
      if StringLess(a, b) {
        var k: nat :| LessAt(a[1..], b[1..], k);
        assert a[..k + 1] == [a[0]] + a[1..][..k] && b[..k + 1] == [b[0]] + b[1..][..k];
        assert LessAt(a, b, k + 1);
      }
      forall k: nat | LessAt(a, b, k) ensures StringLess(a, b) {
        assert a[1..][..k - 1] == a[..k][1..] && b[1..][..k - 1] == b[..k][1..];
        assert LessAt(a[1..], b[1..], k - 1);
      }
    }
  }

  /** Labels in alphabetic order, then no label, then no record, then no support. */
  ghost predicate ShownBefore(a: Bucket, b: Bucket) {
    match a
    case Labelled(name) => b.Labelled? ==> Alphabetic(name, b.name)
    case NoLabel => b.NoRecord? || b.Unsupported?
    case NoRecord => b.Unsupported?
    case Unsupported => false
  }

  lemma PrecedesMeans(a: Bucket, b: Bucket)
    ensures Precedes(a, b) <==> ShownBefore(a, b)
  {
    if a.Labelled? && b.Labelled? { StringLessMeans(a.name, b.name); }
  }

  // ----- the bucket of a session

  /** A session goes by the record of the highest ancestor there is. */
  lemma BucketIsOfRoot(inventory: seq<Session>, s: Session, root: Session)
    requires UniqueIds(inventory) && s in inventory && Ends(inventory, s, root, true)
    ensures var b := BucketOf(inventory, s);
            && (b.Unsupported? <==> root.organization.Undeclared?)
            && (b.NoRecord? <==> root.organization.Unavailable?)
            && (b.NoLabel? <==> root.organization == Organized(None))
            && (forall name :: b == Labelled(name) <==> root.organization == Organized(Some(name)))
  {
    StartsAtItself(inventory, s);
    DelegationRootMeans(inventory, s, true, root);
  }

  /** Without one, because the ancestors go round or ids repeat, it has no record. */
  lemma BucketWithoutRoot(inventory: seq<Session>, s: Session)
    requires UniqueIds(inventory) ==> s in inventory && forall root :: !Ends(inventory, s, root, true)
    ensures BucketOf(inventory, s) == NoRecord
  {
    if UniqueIds(inventory) {
      StartsAtItself(inventory, s);
      var root := GroupRoot(inventory, s);
      if root.Some? { DelegationRootMeans(inventory, s, true, root.value); }
    }
  }

  // ----- projectSessionGroups

  predicate HasBucket(groups: seq<LabelGroup>, b: Bucket) {
    exists i :: 0 <= i < |groups| && groups[i].bucket == b
  }

  predicate DistinctBuckets(groups: seq<LabelGroup>) {
    forall i, j :: 0 <= i < j < |groups| ==> groups[i].bucket != groups[j].bucket
  }

  /** One group per bucket that occurs, holding the rows of that bucket in their order. */
  ghost predicate Partitions(inventory: seq<Session>, rows: seq<Row>, groups: seq<LabelGroup>) {
    && DistinctBuckets(groups)
    && (forall g :: g in groups ==> g.rows == Filter(InBucket(inventory, g.bucket), rows) && g.rows != [])
    && (forall row :: row in rows ==> HasBucket(groups, BucketOf(inventory, row.session)))
  }

  ghost predicate Ascending(groups: seq<LabelGroup>) {
    forall i, j :: 0 <= i < j < |groups| ==> ShownBefore(groups[i].bucket, groups[j].bucket)
  }

  /** The index of a bucket, or the length: the lookup in the map of groups. */
  function FindBucket(groups: seq<LabelGroup>, b: Bucket): (k: nat)
    ensures k <= |groups| && (k < |groups| ==> groups[k].bucket == b)
    ensures k == |groups| ==> !HasBucket(groups, b)
    decreases |groups|
  {
    if groups == [] then 0
    else if groups[|groups| - 1].bucket == b then |groups| - 1
    else
      var k := FindBucket(groups[..|groups| - 1], b);
      assert groups == groups[..|groups| - 1] + [groups[|groups| - 1]];
      if k == |groups| - 1 then
        assert forall i :: 0 <= i < |groups| - 1 ==> groups[i] == groups[..|groups| - 1][i];
        |groups|
      else k
  }

  lemma HasBucketAfter(before: seq<LabelGroup>, after: seq<LabelGroup>, b: Bucket)
    requires |before| <= |after| && (forall i :: 0 <= i < |before| ==> after[i].bucket == before[i].bucket) && HasBucket(before, b)
    ensures HasBucket(after, b)
  {
    var i :| 0 <= i < |before| && before[i].bucket == b;
    assert after[i].bucket == b;
  }

  lemma ExtendedGroup(inventory: seq<Session>, seen: seq<Row>, groups: seq<LabelGroup>, row: Row, k: nat, i: nat)
    requires Partitions(inventory, seen, groups) && k < |groups| && groups[k].bucket == BucketOf(inventory, row.session) && i < |groups|
    ensures Filter(InBucket(inventory, groups[i].bucket), seen + [row]) == (if i == k then groups[i].rows + [row] else groups[i].rows)
    ensures groups[i].rows != []
  {
    assert groups[i] in groups;
    FilterSnoc(InBucket(inventory, groups[i].bucket), seen, row);
    if i < k { assert groups[i].bucket != groups[k].bucket; } else if k < i { assert groups[k].bucket != groups[i].bucket; }
  }

  lemma PartitionsExtend(inventory: seq<Session>, seen: seq<Row>, groups: seq<LabelGroup>, row: Row, k: nat)
    requires Partitions(inventory, seen, groups) && k < |groups| && groups[k].bucket == BucketOf(inventory, row.session)
    ensures Partitions(inventory, seen + [row], groups[k := LabelGroup(groups[k].bucket, groups[k].rows + [row])])
  {
    var after := groups[k := LabelGroup(groups[k].bucket, groups[k].rows + [row])];
    forall g | g in after ensures g.rows == Filter(InBucket(inventory, g.bucket), seen + [row]) && g.rows != [] {
      var i :| 0 <= i < |after| && after[i] == g;
      ExtendedGroup(inventory, seen, groups, row, k, i);
    }
    forall r | r in seen + [row] ensures HasBucket(after, BucketOf(inventory, r.session)) {
      if r in seen { HasBucketAfter(groups, after, BucketOf(inventory, r.session)); } else { assert after[k].bucket == groups[k].bucket; }
    }
  }

  lemma OtherGroup(inventory: seq<Session>, seen: seq<Row>, groups: seq<LabelGroup>, row: Row, i: nat)
    requires Partitions(inventory, seen, groups) && !HasBucket(groups, BucketOf(inventory, row.session)) && i < |groups|
    ensures Filter(InBucket(inventory, groups[i].bucket), seen + [row]) == groups[i].rows && groups[i].rows != []
    ensures groups[i].bucket != BucketOf(inventory, row.session)
  {
    assert groups[i] in groups;
    FilterSnoc(InBucket(inventory, groups[i].bucket), seen, row);
  }

  lemma FirstOfBucket(inventory: seq<Session>, seen: seq<Row>, groups: seq<LabelGroup>, row: Row)
    requires Partitions(inventory, seen, groups) && !HasBucket(groups, BucketOf(inventory, row.session))
    ensures Filter(InBucket(inventory, BucketOf(inventory, row.session)), seen + [row]) == [row]
  {
    FilterNone(InBucket(inventory, BucketOf(inventory, row.session)), seen);
    FilterSnoc(InBucket(inventory, BucketOf(inventory, row.session)), seen, row);
  }

  lemma PartitionsAdd(inventory: seq<Session>, seen: seq<Row>, groups: seq<LabelGroup>, row: Row)
    requires Partitions(inventory, seen, groups) && !HasBucket(groups, BucketOf(inventory, row.session))
    ensures Partitions(inventory, seen + [row], groups + [LabelGroup(BucketOf(inventory, row.session), [row])])
  {
    var b := BucketOf(inventory, row.session);
    var after := groups + [LabelGroup(b, [row])];
    FirstOfBucket(inventory, seen, groups, row);
    forall i | 0 <= i < |groups|
      ensures after[i].rows == Filter(InBucket(inventory, after[i].bucket), seen + [row]) && after[i].rows != [] && after[i].bucket != b
    {
      OtherGroup(inventory, seen, groups, row, i);
    }
    forall r | r in seen + [row] ensures HasBucket(after, BucketOf(inventory, r.session)) {
      if r in seen { HasBucketAfter(groups, after, BucketOf(inventory, r.session)); } else { assert after[|groups|].bucket == b; }
    }
  }

  method AddToGroup(inventory: seq<Session>, groups0: seq<LabelGroup>, row: Row, ghost seen: seq<Row>) returns (groups: seq<LabelGroup>)
    requires Partitions(inventory, seen, groups0)
    ensures Partitions(inventory, seen + [row], groups)
  {
    var b := BucketOf(inventory, row.session);
    var k := FindBucket(groups0, b);
    if k < |groups0| {
      PartitionsExtend(inventory, seen, groups0, row, k);
      groups := groups0[k := LabelGroup(b, groups0[k].rows + [row])];
    } else {
      PartitionsAdd(inventory, seen, groups0, row);
      groups := groups0 + [LabelGroup(b, [row])];
    }
  }

  /** projectSessionGroups. */
  method ProjectSessionGroups(inventory: seq<Session>, rows: seq<Row>) returns (groups: seq<LabelGroup>)
    ensures Partitions(inventory, rows, groups) && Ascending(groups)
  {
    groups := [];
    for i := 0 to |rows|
      invariant Partitions(inventory, rows[..i], groups)
    {
      assert rows[..i + 1] == rows[..i] + [rows[i]];
      groups := AddToGroup(inventory, groups, rows[i], rows[..i]);
    }
    assert rows[..|rows|] == rows;
    SortedGroups(inventory, rows, groups);
    groups := StableSort(NotAfter(), groups);
  }

  lemma SortedGroups(inventory: seq<Session>, rows: seq<Row>, groups: seq<LabelGroup>)
    requires Partitions(inventory, rows, groups)
    ensures Partitions(inventory, rows, StableSort(NotAfter(), groups)) && Ascending(StableSort(NotAfter(), groups))
  {
    var sorted := StableSort(NotAfter(), groups);
    NotAfterIsTotal();
    SortSorts(NotAfter(), groups);
    SortPermutes(NotAfter(), groups);
    assert Distinct(groups);
    SortDistinct(NotAfter(), groups);
    forall i, j | 0 <= i < j < |sorted| ensures ShownBefore(sorted[i].bucket, sorted[j].bucket) && sorted[i].bucket != sorted[j].bucket {
      PrecedesMeans(sorted[i].bucket, sorted[j].bucket);
      assert NotAfter()(sorted[i], sorted[j]);
      SameBucketSameGroup(groups, sorted[i], sorted[j]);
      BucketsCompare(sorted[i].bucket, sorted[j].bucket);
    }
    forall b | HasBucket(groups, b) ensures HasBucket(sorted, b) {
      var i :| 0 <= i < |groups| && groups[i].bucket == b;
      assert groups[i] in sorted;
      var j :| 0 <= j < |sorted| && sorted[j] == groups[i];
      assert sorted[j].bucket == b;
    }
  }

  lemma SameBucketSameGroup(groups: seq<LabelGroup>, a: LabelGroup, b: LabelGroup)
    requires DistinctBuckets(groups) && a in groups && b in groups
    ensures a.bucket == b.bucket ==> a == b
  {
    var i :| 0 <= i < |groups| && groups[i] == a;
    var j :| 0 <= j < |groups| && groups[j] == b;
  }

  // ----- what a partition promises

  function Flatten(groups: seq<LabelGroup>): seq<Row>
    decreases |groups|
  {
    if groups == [] then [] else Flatten(groups[..|groups| - 1]) + groups[|groups| - 1].rows
  }

  function InGroups(inventory: seq<Session>, groups: seq<LabelGroup>): Row -> bool {
    (row: Row) => HasBucket(groups, BucketOf(inventory, row.session))
  }

  lemma {:induction false} FilterCounts<T>(p: T -> bool, q: T -> bool, r: T -> bool, s: seq<T>)
    requires forall x :: x in s ==> (r(x) <==> p(x) || q(x)) && !(p(x) && q(x))
    ensures multiset(Filter(r, s)) == multiset(Filter(p, s)) + multiset(Filter(q, s))
    decreases |s|
  {
    if s != [] { FilterCounts(p, q, r, s[1..]); }
  }

  lemma LastBucket(groups: seq<LabelGroup>, b: Bucket)
    requires groups != []
    ensures HasBucket(groups, b) <==> HasBucket(groups[..|groups| - 1], b) || b == groups[|groups| - 1].bucket
  {
    var init := groups[..|groups| - 1];
    if HasBucket(init, b) { HasBucketAfter(init, groups, b); }
    if HasBucket(groups, b) && b != groups[|groups| - 1].bucket {
      var i :| 0 <= i < |groups| && groups[i].bucket == b;
      assert init[i].bucket == b;
    }
  }

  lemma {:induction false} FlattenCounts(inventory: seq<Session>, rows: seq<Row>, groups: seq<LabelGroup>)
    requires DistinctBuckets(groups) && forall g :: g in groups ==> g.rows == Filter(InBucket(inventory, g.bucket), rows)
    ensures multiset(Flatten(groups)) == multiset(Filter(InGroups(inventory, groups), rows))
    decreases |groups|
  {
    if groups == [] {
      FilterNone(InGroups(inventory, groups), rows);
    } else {
      var init, last := groups[..|groups| - 1], groups[|groups| - 1];
      assert groups == init + [last] && last in groups;
      FlattenCounts(inventory, rows, init);
      forall b ensures HasBucket(groups, b) <==> HasBucket(init, b) || b == last.bucket { LastBucket(groups, b); }
      assert !HasBucket(init, last.bucket);
      FilterCounts(InGroups(inventory, init), InBucket(inventory, last.bucket), InGroups(inventory, groups), rows);
    }
  }

  /** The groups together hold every row exactly as often as it was given. */
  lemma GroupsPermuteRows(inventory: seq<Session>, rows: seq<Row>, groups: seq<LabelGroup>)
    requires Partitions(inventory, rows, groups)
    ensures multiset(Flatten(groups)) == multiset(rows)
  {
    FlattenCounts(inventory, rows, groups);
    FilterAll(InGroups(inventory, groups), rows);
  }

  /** A tree is never split: a row and the row of its parent in the inventory
      are in the same group, on cycles too. */
  lemma TreesStayTogether(inventory: seq<Session>, rows: seq<Row>, groups: seq<LabelGroup>, child: Row, parent: Row, g: LabelGroup)
    requires Partitions(inventory, rows, groups) && child in rows && parent in rows && g in groups
    requires child.session in inventory && UpFrom(inventory, child.session) == Some(parent.session)
    ensures child in g.rows <==> parent in g.rows
  {
    TreeHasOneBucket(inventory, child.session, parent.session);
    assert child in g.rows <==> InBucket(inventory, g.bucket)(child);
    assert parent in g.rows <==> InBucket(inventory, g.bucket)(parent);
  }

  lemma TreeHasOneBucket(inventory: seq<Session>, child: Session, parent: Session)
    requires child in inventory && UpFrom(inventory, child) == Some(parent)
    ensures BucketOf(inventory, child) == BucketOf(inventory, parent)
  {
    ParentHasSameGroup(inventory, child, parent);
  }

  // ----- visibleDelegationRows

  predicate IsRendered(rows: seq<Row>, id: SessionId) {
    exists row :: row in rows && row.session.id == Some(id)
  }

  /** Rows as a projection orders them: a row whose parent is rendered is a
      child, and comes after the row of its parent. */
  ghost predicate ParentFirst(rows: seq<Row>) {
    forall j :: 0 <= j < |rows| && rows[j].parent.Some? && IsRendered(rows, rows[j].parent.value) ==>
      rows[j].role.Child? && exists i :: 0 <= i < j && rows[i].session.id == rows[j].parent
  }

  /** A row whose parent is rendered has the role of a child, as a projection gives it. */
  ghost predicate ChildrenAreChildren(rows: seq<Row>) {
    forall r :: r in rows && r.parent.Some? && IsRendered(rows, r.parent.value) ==> r.role.Child?
  }

  /** Where no parent chain ends in a cycle, the triage order is parent first. */
  lemma TriageIsParentFirst(rows: seq<Row>, manual: seq<Identity>, machine: string)
    requires UniqueRows(rows) && DistinctIdentities(manual) && ChildrenAreChildren(rows)
    requires forall r :: r in rows && ParentRow(rows, r).Some? ==> HasTop(rows, r)
    ensures ParentFirst(OrderTriage(rows, manual, machine))
  {
    var out := OrderTriage(rows, manual, machine);
    TriagePermutes(rows, manual, machine);
    forall j | 0 <= j < |out| && out[j].parent.Some? && IsRendered(out, out[j].parent.value)
      ensures out[j].role.Child? && exists i :: 0 <= i < j && out[i].session.id == out[j].parent
    {
      assert out[j] in out && IsRendered(rows, out[j].parent.value);
      var p := ParentRow(rows, out[j]).value;
      assert p in out;
      var i :| 0 <= i < |out| && out[i] == p;
      ParentShownFirst(rows, manual, machine, i, j);
    }
  }

  /** A label group keeps the order of its rows, so it is parent first too. */
  lemma GroupIsParentFirst(rows: seq<Row>, q: Row -> bool)
    requires ParentFirst(rows) && UniqueRowIds(rows)
    ensures ParentFirst(Filter(q, rows))
  {
    var some := Filter(q, rows);
    forall j | 0 <= j < |some| && some[j].parent.Some? && IsRendered(some, some[j].parent.value)
      ensures some[j].role.Child? && exists i :: 0 <= i < j && some[i].session.id == some[j].parent
    {
      var l := FilterPlace(q, rows, j);
      var r :| r in some && r.session.id == some[j].parent;
      assert IsRendered(rows, rows[l].parent.value);
      var i :| 0 <= i < l && rows[i].session.id == rows[l].parent;
      SameIdSameRow(rows, rows[i], r);
      FilterIndexed(q, rows, i, l, j);
    }
  }

  /** Where a row of a filtered list comes from. */
  lemma {:induction false} FilterPlace(q: Row -> bool, rows: seq<Row>, j: nat) returns (l: nat)
    requires j < |Filter(q, rows)|
    ensures l < |rows| && rows[l] == Filter(q, rows)[j] && |Filter(q, rows[..l])| == j
    decreases |rows|
  {
    var rest := rows[1..];
    if q(rows[0]) && j == 0 {
      l := 0;
    } else {
      var k := FilterPlace(q, rest, if q(rows[0]) then j - 1 else j);
      l := k + 1;
      assert rows[..l] == [rows[0]] + rest[..k];
      FilterCons(q, rows[0], rest[..k]);
    }
  }

  lemma FilterIndexed(q: Row -> bool, rows: seq<Row>, i: nat, l: nat, j: nat)
    requires i < l < |rows| && q(rows[i]) && |Filter(q, rows[..l])| == j <= |Filter(q, rows)|
    ensures exists k :: 0 <= k < j && Filter(q, rows)[k] == rows[i]
  {
    assert rows == rows[..l] + rows[l..];
    FilterAppend(q, rows[..l], rows[l..]);
    assert rows[..l][i] == rows[i] && rows[i] in rows[..l];
    var before := Filter(q, rows[..l]);
    var k :| 0 <= k < |before| && before[k] == rows[i];
    assert Filter(q, rows)[k] == rows[i];
  }

  /** What the app hands to visibleDelegationRows, a label group of the triage
      order, has unique ids and is parent first. */
  lemma LabelGroupIsParentFirst(rows: seq<Row>, manual: seq<Identity>, machine: string, inventory: seq<Session>, b: Bucket)
    requires UniqueRows(rows) && DistinctIdentities(manual) && ChildrenAreChildren(rows)
    requires forall r :: r in rows && ParentRow(rows, r).Some? ==> HasTop(rows, r)
    ensures var shown := Filter(InBucket(inventory, b), OrderTriage(rows, manual, machine)); UniqueRowIds(shown) && ParentFirst(shown)
  {
    var out := OrderTriage(rows, manual, machine);
    TriageIsParentFirst(rows, manual, machine);
    TriagePermutes(rows, manual, machine);
    UniqueIdsSubset(rows, out);
    GroupIsParentFirst(out, InBucket(inventory, b));
    FilterDistinct(InBucket(inventory, b), out);
    UniqueIdsSubset(rows, Filter(InBucket(inventory, b), out));
  }

  /** Every ancestor on the rendered parent chain of `r` is expanded. */
  ghost predicate Unfolded(rows: seq<Row>, expanded: set<SessionId>, r: Row) {
    forall n: nat, a: Row :: n > 0 && ClimbsIn(rows, r, a, n) ==> a.session.id.Some? && a.session.id.value in expanded
  }

  lemma UnfoldedStep(rows: seq<Row>, expanded: set<SessionId>, r: Row)
    ensures var p := ParentRow(rows, r);
            Unfolded(rows, expanded, r) <==> p.None? || (p.value.session.id.value in expanded && Unfolded(rows, expanded, p.value))
  {
    var p := ParentRow(rows, r);
    if p.Some? {
      assert ClimbsIn(rows, p.value, p.value, 0);
      assert ClimbsIn(rows, r, p.value, 1);
      if Unfolded(rows, expanded, r) {
        forall n: nat, a: Row | n > 0 && ClimbsIn(rows, p.value, a, n) ensures a.session.id.Some? && a.session.id.value in expanded {
          assert ClimbsIn(rows, r, a, n + 1);
        }
      }
      if p.value.session.id.value in expanded && Unfolded(rows, expanded, p.value) {
        forall n: nat, a: Row | n > 0 && ClimbsIn(rows, r, a, n) ensures a.session.id.Some? && a.session.id.value in expanded {
          assert ClimbsIn(rows, p.value, a, n - 1);
        }
      }
    }
  }

  /** After a prefix: exactly the rows that are folded away or collapsed are in the hidden set. */
  ghost predicate Hides(rows: seq<Row>, expanded: set<SessionId>, seen: seq<Row>, hidden: set<SessionId>) {
    && (forall r :: r in seen && r.session.id.Some? && !Unfolded(rows, expanded, r) ==> r.session.id.value in hidden)
    && (forall id :: id in hidden ==> exists r :: r in seen && r.session.id == Some(id) && (!Unfolded(rows, expanded, r) || id !in expanded))
  }

  /** The test of the loop. */
  predicate IsHidden(rows: seq<Row>, expanded: set<SessionId>, hidden: set<SessionId>, row: Row) {
    row.parent.Some? && (row.parent.value in hidden
      || (row.role.Child? && IsRendered(rows, row.parent.value) && row.parent.value !in expanded))
  }

  /** With the parent decided before, the test hides exactly the rows that are folded away. */
  lemma HiddenExact(rows: seq<Row>, expanded: set<SessionId>, j: nat, hidden: set<SessionId>)
    requires UniqueRowIds(rows) && ParentFirst(rows) && j < |rows| && Hides(rows, expanded, rows[..j], hidden)
    ensures IsHidden(rows, expanded, hidden, rows[j]) <==> !Unfolded(rows, expanded, rows[j])
  {
    var row := rows[j];
    UnfoldedStep(rows, expanded, row);
    if row.parent.Some? {
      var id := row.parent.value;
      if id in hidden {
        var r :| r in rows[..j] && r.session.id == Some(id) && (!Unfolded(rows, expanded, r) || id !in expanded);
        assert r in rows && IsRendered(rows, id);
      }
      if IsRendered(rows, id) {
        var i :| 0 <= i < j && rows[i].session.id == row.parent;
        var p := ParentRow(rows, row).value;
        SameIdSameRow(rows, rows[i], p);
        assert p in rows[..j];
        if id in hidden {
          var r :| r in rows[..j] && r.session.id == Some(id) && (!Unfolded(rows, expanded, r) || id !in expanded);
          SameIdSameRow(rows, r, p);
        }
      }
    }
  }

  ghost function IsUnfolded(rows: seq<Row>, expanded: set<SessionId>): Row -> bool {
    (r: Row) => Unfolded(rows, expanded, r)
  }

  lemma HidesStep(rows: seq<Row>, expanded: set<SessionId>, seen: seq<Row>, hidden: set<SessionId>, row: Row, hidden': set<SessionId>)
    requires Hides(rows, expanded, seen, hidden)
    requires if !Unfolded(rows, expanded, row) then hidden' == hidden + IdSet(row.session)
             else hidden' == hidden || (row.session.id.Some? && row.session.id.value !in expanded && hidden' == hidden + IdSet(row.session))
    ensures Hides(rows, expanded, seen + [row], hidden')
  {
    forall id | id in hidden' ensures exists r :: r in seen + [row] && r.session.id == Some(id) && (!Unfolded(rows, expanded, r) || id !in expanded) {
      if id in hidden {
        var r :| r in seen && r.session.id == Some(id) && (!Unfolded(rows, expanded, r) || id !in expanded);
        assert r in seen + [row];
      } else {
        assert row in seen + [row];
      }
    }
  }

  /** One row of the loop. */
  method ShowRow(rows: seq<Row>, expanded: set<SessionId>, hidden0: set<SessionId>, visible0: seq<Row>, row: Row, ghost j: nat)
    returns (hidden: set<SessionId>, visible: seq<Row>)
    requires j < |rows| && row == rows[j]
    ensures UniqueRowIds(rows) && ParentFirst(rows)
            && Hides(rows, expanded, rows[..j], hidden0) && visible0 == Filter(IsUnfolded(rows, expanded), rows[..j])
            ==> Hides(rows, expanded, rows[..j + 1], hidden) && visible == Filter(IsUnfolded(rows, expanded), rows[..j + 1])
  {
    hidden, visible := hidden0, visible0;
    if IsHidden(rows, expanded, hidden, row) {
      hidden := hidden + IdSet(row.session);
    } else {
      visible := visible + [row];
      if row.childCount.Some? && row.session.id.Some? && row.session.id.value !in expanded {
        hidden := hidden + {row.session.id.value};
      }
    }
    if UniqueRowIds(rows) && ParentFirst(rows) && Hides(rows, expanded, rows[..j], hidden0) {
      assert rows[..j + 1] == rows[..j] + [row];
      HiddenExact(rows, expanded, j, hidden0);
      FilterSnoc(IsUnfolded(rows, expanded), rows[..j], row);
      HidesStep(rows, expanded, rows[..j], hidden0, row, hidden);
    }
  }

  /** visibleDelegationRows: on parent-first rows it shows exactly those whose
      ancestors on the rendered parent chain are all expanded. */
  method VisibleDelegationRows(rows: seq<Row>, expanded: set<SessionId>) returns (visible: seq<Row>)
    ensures UniqueRowIds(rows) && ParentFirst(rows) ==> visible == Filter(IsUnfolded(rows, expanded), rows)
  {
    var hidden: set<SessionId> := {};
    visible := [];
    for j := 0 to |rows|
      invariant UniqueRowIds(rows) && ParentFirst(rows)
                ==> Hides(rows, expanded, rows[..j], hidden) && visible == Filter(IsUnfolded(rows, expanded), rows[..j])
    {
      hidden, visible := ShowRow(rows, expanded, hidden, visible, rows[j], j);
    }
    assert rows[..|rows|] == rows;
  }
}
