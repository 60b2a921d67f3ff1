/**
 Reserved slots inside a group of siblings: rows placed by hand take the slot
 they ask for or the next free one, all others fill the gaps in their
 automatic order. The inner part of orderTriageSessionRows in
 public/session-triage.ts.
 */
module Slots {
  import opened Common
  import opened Sequences

  datatype Placement<T> = Placement(row: T, wanted: nat)

  /** The first free slot from `from` on, or the number of slots. */
  function FirstFree<T>(slots: seq<Option<T>>, from: nat): (k: nat)
    requires from <= |slots|
    ensures from <= k <= |slots| && (k < |slots| ==> slots[k].None?)
    ensures forall j :: from <= j < k ==> slots[j].Some?
    decreases |slots| - from
  {
    if from == |slots| || slots[from].None? then from else FirstFree(slots, from + 1)
  }

  function FreeCount<T>(slots: seq<Option<T>>): nat
    decreases |slots|
  {
    if slots == [] then 0 else (if slots[0].None? then 1 else 0) + FreeCount(slots[1..])
  }

  /** The slot a placement gets: clipped to the group, else the next free one, else any. */
  function Choose<T>(slots: seq<Option<T>>, wanted: nat): (k: nat)
    requires FreeCount(slots) > 0
    ensures k < |slots| && slots[k].None?
  {
    HasFree(slots);
    var desired := if wanted < |slots| then wanted else |slots| - 1;
    var k := FirstFree(slots, desired);
    if k < |slots| then k else FirstFree(slots, 0)
  }

  lemma {:induction false} HasFree<T>(slots: seq<Option<T>>)
    requires FreeCount(slots) > 0
    ensures slots != [] && FirstFree(slots, 0) < |slots|
    decreases |slots|
  {
    var k := FirstFree(slots, 0);
    if k == |slots| { AllTaken(slots); }
  }

  lemma {:induction false} AllTaken<T>(slots: seq<Option<T>>)
    requires forall j :: 0 <= j < |slots| ==> slots[j].Some?
    ensures FreeCount(slots) == 0
    decreases |slots|
  {
    if slots != [] { AllTaken(slots[1..]); }
  }

  lemma {:induction false} TakeOne<T>(slots: seq<Option<T>>, k: nat, x: T)
    requires k < |slots| && slots[k].None?
    ensures FreeCount(slots[k := Some(x)]) == FreeCount(slots) - 1
    decreases |slots|
  {
    if k == 0 {
      assert slots[0 := Some(x)][1..] == slots[1..];
    } else {
      assert slots[k := Some(x)][1..] == slots[1..][k - 1 := Some(x)];
      TakeOne(slots[1..], k - 1, x);
    }
  }

  lemma {:induction false} AllFree<T>(n: nat)
    ensures FreeCount(seq<Option<T>>(n, _ => None)) == n
    decreases n
  {
    if n > 0 {
      AllFree<T>(n - 1);
      assert seq<Option<T>>(n, _ => None)[1..] == seq<Option<T>>(n - 1, _ => None);
    }
  }

  /** Placing in order. There is a free slot for every placement. */
  function PlaceAll<T>(n: nat, placements: seq<Placement<T>>): (slots: seq<Option<T>>)
    requires |placements| <= n
    ensures |slots| == n && FreeCount(slots) == n - |placements|
    decreases |placements|
  {
    if placements == [] then
      AllFree<T>(n);
      seq(n, _ => None)
    else
      var before := PlaceAll(n, placements[..|placements| - 1]);
      var p := placements[|placements| - 1];
      TakeOne(before, Choose(before, p.wanted), p.row);
      before[Choose(before, p.wanted) := Some(p.row)]
  }

  /** The free slots take `rest` in order. */
  function FillIn<T>(slots: seq<Option<T>>, rest: seq<T>): (out: seq<T>)
    requires FreeCount(slots) == |rest|
    ensures |out| == |slots|
    ensures forall k :: 0 <= k < |slots| && slots[k].Some? ==> out[k] == slots[k].value
    decreases |slots|
  {
    if slots == [] then []
    else if slots[0].Some? then [slots[0].value] + FillIn(slots[1..], rest)
    else [rest[0]] + FillIn(slots[1..], rest[1..])
  }

  function IsPlaced<T(==)>(placements: seq<Placement<T>>): T -> bool {
    (x: T) => exists p :: p in placements && p.row == x
  }

  function IsUnplaced<T(==)>(placements: seq<Placement<T>>): T -> bool {
    (x: T) => !IsPlaced(placements)(x)
  }

  predicate DistinctRows<T(==)>(placements: seq<Placement<T>>) {
    forall i, j :: 0 <= i < j < |placements| ==> placements[i].row != placements[j].row
  }

  /** What the source requires of its own data: placed rows belong to the group, once each. */
  predicate Fits<T(==)>(group: seq<T>, placements: seq<Placement<T>>) {
    Distinct(group) && DistinctRows(placements) && forall p :: p in placements ==> p.row in group
  }

  // ----- the numbers work out

  /** There is a slot for every placement, and a row for every gap. */
  lemma CountsAgree<T>(group: seq<T>, placements: seq<Placement<T>>)
    requires Fits(group, placements)
    ensures |placements| <= |group|
    ensures |Filter(IsUnplaced(placements), group)| == |group| - |placements|
  {
    var placed := Filter(IsPlaced(placements), group);
    FilterDistinct(IsPlaced(placements), group);
    var rowsOf := RowsOf(placements);
    assert forall x :: x in placed <==> x in rowsOf by {
      forall x | x in rowsOf ensures x in placed {
        var i :| 0 <= i < |rowsOf| && rowsOf[i] == x;
        assert placements[i] in placements;
      }
    }
    DistinctSameMembers(placed, rowsOf);
    assert |multiset(placed)| == |placed| && |multiset(rowsOf)| == |rowsOf|;
    FilterSplits(IsPlaced(placements), IsUnplaced(placements), group);
  }

  function RowsOf<T>(placements: seq<Placement<T>>): (r: seq<T>)
    ensures |r| == |placements| && forall i :: 0 <= i < |r| ==> r[i] == placements[i].row
  {
    seq(|placements|, i requires 0 <= i < |placements| => placements[i].row)
  }

  /** The order of a group. */
  function Arrange<T(==)>(group: seq<T>, placements: seq<Placement<T>>): (out: seq<T>)
    requires Fits(group, placements)
    ensures |out| == |group|
  {
    CountsAgree(group, placements);
    FillIn(PlaceAll(|group|, placements), Filter(IsUnplaced(placements), group))
  }

  // ----- what an arrangement is

  /** The slots hold exactly the placed rows, each once. */
  ghost predicate Holds<T(!new)>(slots: seq<Option<T>>, placements: seq<Placement<T>>) {
    && (forall i :: 0 <= i < |placements| ==> Some(placements[i].row) in slots)
    && (forall k :: 0 <= k < |slots| && slots[k].Some? ==> IsPlaced(placements)(slots[k].value))
    && (forall j, k :: 0 <= j < k < |slots| && slots[j].Some? ==> slots[j] != slots[k])
  }

  lemma HoldsStep<T(!new)>(slots: seq<Option<T>>, placements: seq<Placement<T>>, p: Placement<T>, k: nat)
    requires Holds(slots, placements) && k < |slots| && slots[k].None? && DistinctRows(placements + [p])
    ensures Holds(slots[k := Some(p.row)], placements + [p])
  {
    var next, all := slots[k := Some(p.row)], placements + [p];
    assert all[|placements|] == p && p in all;
    assert forall x :: IsPlaced(placements)(x) ==> IsPlaced(all)(x) by {
      forall x | IsPlaced(placements)(x) ensures IsPlaced(all)(x) {
        var q :| q in placements && q.row == x;
        assert q in all;
      }
    }
    forall i | 0 <= i < |all| ensures Some(all[i].row) in next {
      if i < |placements| {
        assert all[i] == placements[i];
        var j :| 0 <= j < |slots| && slots[j] == Some(placements[i].row);
        assert next[j] == slots[j];
      } else {
        assert next[k] == Some(p.row);
      }
    }
    forall j | 0 <= j < |slots| && slots[j].Some? ensures slots[j].value != p.row {
      var q :| q in placements && q.row == slots[j].value;
      var i :| 0 <= i < |placements| && placements[i] == q;
      assert all[i] == q;
    }
  }

  lemma {:induction false} PlaceAllHolds<T(!new)>(n: nat, placements: seq<Placement<T>>)
    requires |placements| <= n && DistinctRows(placements)
    ensures Holds(PlaceAll(n, placements), placements)
    decreases |placements|
  {
    if placements != [] {
      var init, p := placements[..|placements| - 1], placements[|placements| - 1];
      assert placements == init + [p];
      PlaceAllHolds(n, init);
      HoldsStep(PlaceAll(n, init), init, p, Choose(PlaceAll(n, init), p.wanted));
    }
  }

  lemma {:induction false} FillInMembers<T(!new)>(slots: seq<Option<T>>, rest: seq<T>, x: T)
    requires FreeCount(slots) == |rest|
    ensures x in FillIn(slots, rest) <==> x in rest || Some(x) in slots
    decreases |slots|
  {
    if slots != [] {
      assert slots == [slots[0]] + slots[1..];
      if slots[0].Some? {
        FillInMembers(slots[1..], rest, x);
      } else {
        assert rest == [rest[0]] + rest[1..];
        FillInMembers(slots[1..], rest[1..], x);
      }
    }
  }

  lemma {:induction false} FillInDistinct<T(!new)>(slots: seq<Option<T>>, rest: seq<T>)
    requires FreeCount(slots) == |rest| && Distinct(rest)
    requires forall j, k :: 0 <= j < k < |slots| && slots[j].Some? ==> slots[j] != slots[k]
    requires forall x :: x in rest ==> Some(x) !in slots
    ensures Distinct(FillIn(slots, rest))
    decreases |slots|
  {
    if slots != [] {
      var tail := slots[1..];
      assert forall k :: 0 <= k < |tail| ==> tail[k] == slots[k + 1];
      assert forall y :: y in tail ==> y in slots;
      var head, more := if slots[0].Some? then slots[0].value else rest[0], if slots[0].Some? then rest else rest[1..];
      assert forall x :: x in more ==> x in rest;
      FillInDistinct(tail, more);
      FillInMembers(tail, more, head);
      if slots[0].Some? { assert Some(head) in slots; } else { assert head in rest && head !in rest[1..]; }
      assert FillIn(slots, rest) == [head] + FillIn(tail, more);
    }
  }

  lemma {:induction false} FillInKeepsRest<T(!new)>(slots: seq<Option<T>>, rest: seq<T>, q: T -> bool)
    requires FreeCount(slots) == |rest|
    requires forall x :: x in rest ==> q(x)
    requires forall k :: 0 <= k < |slots| && slots[k].Some? ==> !q(slots[k].value)
    ensures Filter(q, FillIn(slots, rest)) == rest
    decreases |slots|
  {
    if slots != [] {
      var tail := slots[1..];
      assert forall k :: 0 <= k < |tail| ==> tail[k] == slots[k + 1];
      var out := FillIn(slots, rest);
      if slots[0].Some? {
        FillInKeepsRest(tail, rest, q);
        assert out[1..] == FillIn(tail, rest);
      } else {
        FillInKeepsRest(tail, rest[1..], q);
        assert out[1..] == FillIn(tail, rest[1..]);
      }
    }
  }

  /** An arrangement is a permutation of its group in which the rows that were
      not placed by hand keep their order. */
  lemma ArrangePermutes<T(!new)>(group: seq<T>, placements: seq<Placement<T>>)
    requires Fits(group, placements)
    ensures Distinct(Arrange(group, placements))
    ensures forall x :: x in Arrange(group, placements) <==> x in group
    ensures Filter(IsUnplaced(placements), Arrange(group, placements)) == Filter(IsUnplaced(placements), group)
  {
    CountsAgree(group, placements);
    var slots, rest := PlaceAll(|group|, placements), Filter(IsUnplaced(placements), group);
    PlaceAllHolds(|group|, placements);
    FilterDistinct(IsUnplaced(placements), group);
    forall x | x in rest ensures Some(x) !in slots {}
    FillInDistinct(slots, rest);
    FillInKeepsRest(slots, rest, IsUnplaced(placements));
    forall x ensures x in FillIn(slots, rest) <==> x in group {
      FillInMembers(slots, rest, x);
      SlotOrRest(group, placements, slots, x);
    }
  }

  lemma SlotOrRest<T(!new)>(group: seq<T>, placements: seq<Placement<T>>, slots: seq<Option<T>>, x: T)
    requires Fits(group, placements) && Holds(slots, placements)
    ensures x in group <==> x in Filter(IsUnplaced(placements), group) || Some(x) in slots
  {
    if Some(x) in slots {
      var k :| 0 <= k < |slots| && slots[k] == Some(x);
      assert IsPlaced(placements)(slots[k].value);
    }
    if x in group && IsPlaced(placements)(x) {
      var p :| p in placements && p.row == x;
      var i :| 0 <= i < |placements| && placements[i] == p;
      assert Some(placements[i].row) in slots;
    }
  }

  // ----- positions are honoured

  predicate DistinctInRange<T>(n: nat, placements: seq<Placement<T>>) {
    && (forall i :: 0 <= i < |placements| ==> placements[i].wanted < n)
    && (forall i, j :: 0 <= i < j < |placements| ==> placements[i].wanted != placements[j].wanted)
  }

  /** Exactly the wanted slots are taken, each by the row that wants it. */
  ghost predicate Honoured<T(!new)>(slots: seq<Option<T>>, placements: seq<Placement<T>>) {
    && (forall i :: 0 <= i < |placements| ==> placements[i].wanted < |slots| && slots[placements[i].wanted] == Some(placements[i].row))
    && (forall k :: 0 <= k < |slots| && slots[k].Some? ==> exists i :: 0 <= i < |placements| && placements[i].wanted == k)
  }

  lemma HonouredStep<T(!new)>(slots: seq<Option<T>>, placements: seq<Placement<T>>, p: Placement<T>)
    requires Honoured(slots, placements) && p.wanted < |slots|
    requires forall i :: 0 <= i < |placements| ==> placements[i].wanted != p.wanted
    ensures slots[p.wanted].None?
    ensures Honoured(slots[p.wanted := Some(p.row)], placements + [p])
  {
    var next, all := slots[p.wanted := Some(p.row)], placements + [p];
    forall k | 0 <= k < |next| && next[k].Some? ensures exists i :: 0 <= i < |all| && all[i].wanted == k {
      if k == p.wanted {
        assert all[|placements|].wanted == k;
      } else {
        var i :| 0 <= i < |placements| && placements[i].wanted == k;
        assert all[i] == placements[i];
      }
    }
  }

  lemma {:induction false} PlaceAllHonours<T(!new)>(n: nat, placements: seq<Placement<T>>)
    requires |placements| <= n && DistinctInRange(n, placements)
    ensures Honoured(PlaceAll(n, placements), placements)
    decreases |placements|
  {
    if placements != [] {
      var init, p := placements[..|placements| - 1], placements[|placements| - 1];
      assert placements == init + [p];
      PlaceAllHonours(n, init);
      HonouredStep(PlaceAll(n, init), init, p);
      assert Choose(PlaceAll(n, init), p.wanted) == p.wanted;
    }
  }

  /** Distinct positions inside the group are honoured exactly. */
  lemma PositionsAreHonoured<T(!new)>(group: seq<T>, placements: seq<Placement<T>>, i: nat)
    requires Fits(group, placements) && DistinctInRange(|group|, placements) && i < |placements|
    ensures Arrange(group, placements)[placements[i].wanted] == placements[i].row
  {
    CountsAgree(group, placements);
    PlaceAllHonours(|group|, placements);
  }

  /** A sequence is restored from its placed rows and the order of the others. */
  lemma {:induction false} FillInRestores<T(!new)>(slots: seq<Option<T>>, target: seq<T>, q: T -> bool)
    requires |slots| == |target| && FreeCount(slots) == |Filter(q, target)|
    requires forall k :: 0 <= k < |slots| ==> slots[k] == (if q(target[k]) then None else Some(target[k]))
    ensures FillIn(slots, Filter(q, target)) == target
    decreases |slots|
  {
    if slots != [] {
      assert forall k :: 0 <= k < |slots[1..]| ==> slots[1..][k] == slots[k + 1] && target[1..][k] == target[k + 1];
      FillInRestores(slots[1..], target[1..], q);
      assert target == [target[0]] + target[1..];
      if q(target[0]) { assert Filter(q, target)[1..] == Filter(q, target[1..]); }
    }
  }

  lemma MaskIsPlaced<T(!new)>(group: seq<T>, placements: seq<Placement<T>>, target: seq<T>, k: nat)
    requires Fits(group, placements) && |target| == |group| && |placements| <= |group| && Distinct(target) && k < |target|
    requires forall i :: 0 <= i < |placements| ==> placements[i].wanted < |target| && target[placements[i].wanted] == placements[i].row
    requires Honoured(PlaceAll(|group|, placements), placements)
    ensures PlaceAll(|group|, placements)[k] == if IsUnplaced(placements)(target[k]) then None else Some(target[k])
  {
    var slots := PlaceAll(|group|, placements);
    if slots[k].Some? {
      var i :| 0 <= i < |placements| && placements[i].wanted == k;
      assert placements[i] in placements;
    }
    if IsPlaced(placements)(target[k]) {
      var p :| p in placements && p.row == target[k];
      var i :| 0 <= i < |placements| && placements[i] == p;
      assert placements[i].wanted == k;
    }
  }

  /** The arrangement is the only order of the group that has every placed row
      where it wants to be and the other rows in their automatic order. */
  lemma ArrangeIsUnique<T(!new)>(group: seq<T>, placements: seq<Placement<T>>, target: seq<T>)
    requires Fits(group, placements) && |target| == |group| && Distinct(target)
    requires forall i :: 0 <= i < |placements| ==> placements[i].wanted < |target| && target[placements[i].wanted] == placements[i].row
    requires Filter(IsUnplaced(placements), target) == Filter(IsUnplaced(placements), group)
    ensures Arrange(group, placements) == target
  {
    CountsAgree(group, placements);
    assert DistinctInRange(|group|, placements) by {
      forall i, j | 0 <= i < j < |placements| ensures placements[i].wanted != placements[j].wanted {
        assert target[placements[i].wanted] != target[placements[j].wanted];
      }
    }
    PlaceAllHonours(|group|, placements);
    var slots := PlaceAll(|group|, placements);
    forall k | 0 <= k < |slots| ensures slots[k] == (if IsUnplaced(placements)(target[k]) then None else Some(target[k])) {
      MaskIsPlaced(group, placements, target, k);
    }
    FillInRestores(slots, target, IsUnplaced(placements));
  }

  // ----- any positions at all

  /** Where an order has a row. */
  function SlotOf<T(==)>(target: seq<T>, x: T): (k: nat)
    requires x in target
    ensures k < |target| && target[k] == x && forall j :: 0 <= j < k ==> target[j] != x
    decreases |target|
  {
    if target[0] == x then 0 else
    assert target == [target[0]] + target[1..];
    1 + SlotOf(target[1..], x)
  }

  /** A slot of `target` goes to one of the first `i` placements. */
  predicate IsTaken<T(==)>(target: seq<T>, placements: seq<Placement<T>>, i: nat, k: nat)
    requires i <= |placements| && k < |target|
  {
    exists j :: 0 <= j < i && placements[j].row == target[k]
  }

  /** The `i`-th placement gets the slot that `target` has for its row: the one
      it wants, clipped to the group, or the next one that no placement before
      it takes, or the first one at all. */
  predicate Lands<T(==)>(target: seq<T>, placements: seq<Placement<T>>, i: nat)
    requires i < |placements| && placements[i].row in target
  {
    var n, at, wanted := |target|, SlotOf(target, placements[i].row), placements[i].wanted;
    var desired := if wanted < n then wanted else n - 1;
    || (desired <= at && forall k :: desired <= k < at ==> IsTaken(target, placements, i, k))
    || ((forall k :: desired <= k < n ==> IsTaken(target, placements, i, k)) && forall k :: 0 <= k < at ==> IsTaken(target, placements, i, k))
  }

  ghost predicate AllLand<T(!new)>(target: seq<T>, placements: seq<Placement<T>>) {
    forall i :: 0 <= i < |placements| ==> placements[i].row in target && Lands(target, placements, i)
  }

  /** The slots of `target` that the first `i` placements take. */
  function Mask<T(==)>(target: seq<T>, placements: seq<Placement<T>>, i: nat): (slots: seq<Option<T>>)
    requires i <= |placements|
    ensures |slots| == |target|
    ensures forall k :: 0 <= k < |target| ==> slots[k] == if IsTaken(target, placements, i, k) then Some(target[k]) else None
  {
    seq(|target|, k requires 0 <= k < |target| => if IsTaken(target, placements, i, k) then Some(target[k]) else None)
  }

  lemma ChooseLands<T(!new)>(target: seq<T>, placements: seq<Placement<T>>, i: nat)
    requires DistinctRows(placements) && Distinct(target) && i < |placements| && placements[i].row in target
    requires FreeCount(Mask(target, placements, i)) > 0
    ensures Choose(Mask(target, placements, i), placements[i].wanted) == SlotOf(target, placements[i].row) <==> Lands(target, placements, i)
  {
    var mask, n, at := Mask(target, placements, i), |target|, SlotOf(target, placements[i].row);
    assert mask[at].None?;
    var desired := if placements[i].wanted < n then placements[i].wanted else n - 1;
    var k := FirstFree(mask, desired);
    HasFree(mask);
    forall j | 0 <= j < n ensures IsTaken(target, placements, i, j) <==> mask[j].Some? {}
    if k < n { assert !IsTaken(target, placements, i, k); } else { assert at < desired; }
  }

  lemma MaskStep<T(!new)>(target: seq<T>, placements: seq<Placement<T>>, i: nat)
    requires Distinct(target) && i < |placements| && placements[i].row in target
    ensures Mask(target, placements, i + 1) == Mask(target, placements, i)[SlotOf(target, placements[i].row) := Some(placements[i].row)]
  {
    var at := SlotOf(target, placements[i].row);
    forall k | 0 <= k < |target| ensures IsTaken(target, placements, i + 1, k) <==> IsTaken(target, placements, i, k) || k == at {
      if IsTaken(target, placements, i + 1, k) {
        var j :| 0 <= j < i + 1 && placements[j].row == target[k];
        if j == i { assert target[k] == target[at]; }
      }
      if k == at { assert placements[i].row == target[k]; }
    }
  }

  lemma PlaceAllStep<T>(n: nat, placements: seq<Placement<T>>, i: nat)
    requires i < |placements| <= n
    ensures var before := PlaceAll(n, placements[..i]);
            FreeCount(before) > 0
            && PlaceAll(n, placements[..i + 1]) == before[Choose(before, placements[i].wanted) := Some(placements[i].row)]
  {
    assert placements[..i + 1][..i] == placements[..i];
  }

  lemma {:induction false} PlaceAllMasks<T(!new)>(n: nat, placements: seq<Placement<T>>, target: seq<T>, i: nat)
    requires DistinctRows(placements) && Distinct(target) && |target| == n && i <= |placements| <= n
    requires AllLand(target, placements)
    ensures PlaceAll(n, placements[..i]) == Mask(target, placements, i)
    decreases i
  {
    if i == 0 {
      assert placements[..0] == [];
    } else {
      PlaceAllMasks(n, placements, target, i - 1);
      PlaceAllStep(n, placements, i - 1);
      ChooseLands(target, placements, i - 1);
      MaskStep(target, placements, i - 1);
    }
  }

  /** A slot that was taken stays taken. */
  lemma {:induction false} PlaceAllGrows<T>(n: nat, placements: seq<Placement<T>>, i: nat, k: nat)
    requires i <= |placements| <= n && k < n && PlaceAll(n, placements[..i])[k].Some?
    ensures PlaceAll(n, placements)[k] == PlaceAll(n, placements[..i])[k]
    decreases |placements| - i
  {
    if i == |placements| {
      assert placements[..i] == placements;
    } else {
      PlaceAllStep(n, placements, i);
      PlaceAllGrows(n, placements, i + 1, k);
    }
  }

  /** The slot that a placement chose is where the arrangement has its row. */
  lemma ArrangedChoice<T(!new)>(group: seq<T>, placements: seq<Placement<T>>, target: seq<T>, i: nat)
    requires Fits(group, placements) && Distinct(target) && |target| == |group| && Arrange(group, placements) == target
    requires i < |placements| <= |group| && placements[i].row in target
    ensures var before := PlaceAll(|group|, placements[..i]);
            FreeCount(before) > 0 && Choose(before, placements[i].wanted) == SlotOf(target, placements[i].row)
  {
    PlaceAllStep(|group|, placements, i);
    var c := Choose(PlaceAll(|group|, placements[..i]), placements[i].wanted);
    PlaceAllGrows(|group|, placements, i + 1, c);
    CountsAgree(group, placements);
    assert target[c] == placements[i].row;
  }

  lemma {:induction false} ArrangedMask<T(!new)>(group: seq<T>, placements: seq<Placement<T>>, target: seq<T>, i: nat)
    requires Fits(group, placements) && Distinct(target) && |target| == |group| && Arrange(group, placements) == target
    requires i <= |placements| <= |group| && forall j :: 0 <= j < |placements| ==> placements[j].row in target
    ensures PlaceAll(|group|, placements[..i]) == Mask(target, placements, i)
    decreases i
  {
    if i == 0 {
      assert placements[..0] == [];
    } else {
      ArrangedMask(group, placements, target, i - 1);
      PlaceAllStep(|group|, placements, i - 1);
      ArrangedChoice(group, placements, target, i - 1);
      MaskStep(target, placements, i - 1);
    }
  }

  lemma ArrangedLands<T(!new)>(group: seq<T>, placements: seq<Placement<T>>, target: seq<T>, i: nat)
    requires Fits(group, placements) && Distinct(target) && |target| == |group| && Arrange(group, placements) == target
    requires i < |placements| <= |group| && forall j :: 0 <= j < |placements| ==> placements[j].row in target
    ensures Lands(target, placements, i)
  {
    ArrangedMask(group, placements, target, i);
    ArrangedChoice(group, placements, target, i);
    ChooseLands(target, placements, i);
  }

  lemma TakenIsPlaced<T(!new)>(target: seq<T>, placements: seq<Placement<T>>, k: nat)
    requires k < |target|
    ensures IsTaken(target, placements, |placements|, k) <==> IsPlaced(placements)(target[k])
  {
    if IsPlaced(placements)(target[k]) {
      var p :| p in placements && p.row == target[k];
      var j :| 0 <= j < |placements| && placements[j] == p;
    }
    if IsTaken(target, placements, |placements|, k) {
      var j :| 0 <= j < |placements| && placements[j].row == target[k];
      assert placements[j] in placements;
    }
  }

  /** An order that keeps the rows not placed by hand in their automatic order
      is the arrangement exactly when every placement lands in its slot of it. */
  lemma ArrangeExact<T(!new)>(group: seq<T>, placements: seq<Placement<T>>, target: seq<T>)
    requires Fits(group, placements) && |target| == |group| && Distinct(target)
    requires forall j :: 0 <= j < |placements| ==> placements[j].row in target
    requires Filter(IsUnplaced(placements), target) == Filter(IsUnplaced(placements), group)
    ensures Arrange(group, placements) == target <==> AllLand(target, placements)
  {
    var m := |placements|;
    CountsAgree(group, placements);
    assert placements[..m] == placements;
    if Arrange(group, placements) == target {
      forall i | 0 <= i < m ensures Lands(target, placements, i) { ArrangedLands(group, placements, target, i); }
    }
    if AllLand(target, placements) {
      PlaceAllMasks(|group|, placements, target, m);
      forall k | 0 <= k < |target| ensures IsTaken(target, placements, m, k) <==> IsPlaced(placements)(target[k]) {
        TakenIsPlaced(target, placements, k);
      }
      FillInRestores(PlaceAll(|group|, placements), target, IsUnplaced(placements));
    }
  }
}
