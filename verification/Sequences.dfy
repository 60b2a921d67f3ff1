/** Filtering and stable sorting, as the session modules use them on arrays. */
module Sequences {

  function Filter<T>(p: T -> bool, s: seq<T>): (r: seq<T>)
    ensures forall x :: x in r ==> x in s && p(x)
    ensures forall x :: x in s && p(x) ==> x in r
    ensures |r| <= |s|
    decreases |s|
  {
    if s == [] then [] else if p(s[0]) then [s[0]] + Filter(p, s[1..]) else Filter(p, s[1..])
  }

  predicate Distinct<T(==)>(s: seq<T>) {
    forall i, j :: 0 <= i < j < |s| ==> s[i] != s[j]
  }

  lemma {:induction false} FilterAppend<T>(p: T -> bool, a: seq<T>, b: seq<T>)
    ensures Filter(p, a + b) == Filter(p, a) + Filter(p, b)
    decreases |a|
  {
    if a == [] {
      assert a + b == b;
    } else {
      assert (a + b)[1..] == a[1..] + b;
      FilterAppend(p, a[1..], b);
    }
  }

  lemma PrefixSnoc<T>(s: seq<T>, j: nat)
    requires j < |s|
    ensures s[..j + 1] == s[..j] + [s[j]]
  {
  }

  lemma ConcatAssociates<T>(a: seq<T>, b: seq<T>, c: seq<T>)
    ensures a + (b + c) == (a + b) + c
  {
  }

  /** A part that passes as a whole, or not at all. */
  lemma FilterWhole<T>(p: T -> bool, a: seq<T>, b: seq<T>, all: bool)
    requires forall x :: x in a ==> p(x) == all
    ensures Filter(p, a + b) == (if all then a else []) + Filter(p, b)
  {
    FilterAppend(p, a, b);
    if all { FilterAll(p, a); } else { FilterNone(p, a); }
  }

  lemma {:induction false} FilterNone<T>(p: T -> bool, s: seq<T>)
    requires forall x :: x in s ==> !p(x)
    ensures Filter(p, s) == []
    decreases |s|
  {
    if s != [] { FilterNone(p, s[1..]); }
  }

  lemma {:induction false} FilterAll<T>(p: T -> bool, s: seq<T>)
    requires forall x :: x in s ==> p(x)
    ensures Filter(p, s) == s
    decreases |s|
  {
    if s != [] { FilterAll(p, s[1..]); }
  }

  lemma {:induction false} FilterSame<T>(p: T -> bool, q: T -> bool, s: seq<T>)
    requires forall x :: x in s ==> (p(x) <==> q(x))
    ensures Filter(p, s) == Filter(q, s)
    decreases |s|
  {
    if s != [] { FilterSame(p, q, s[1..]); }
  }

  lemma {:induction false} FilterDistinct<T>(p: T -> bool, s: seq<T>)
    requires Distinct(s)
    ensures Distinct(Filter(p, s))
    decreases |s|
  {
    if s != [] {
      FilterDistinct(p, s[1..]);
      assert s[0] !in s[1..];
      var r := Filter(p, s[1..]);
      assert s[0] !in r;
    }
  }

  lemma FilterCons<T>(q: T -> bool, x: T, s: seq<T>)
    ensures Filter(q, [x] + s) == if q(x) then [x] + Filter(q, s) else Filter(q, s)
  {
    assert ([x] + s)[1..] == s;
  }

  lemma FilterPrefix<T>(q: T -> bool, a: seq<T>, b: seq<T>)
    requires forall x :: x in a ==> !q(x)
    ensures Filter(q, a + b) == Filter(q, b)
  {
    FilterAppend(q, a, b);
    FilterNone(q, a);
  }

  lemma FilterSnoc<T>(p: T -> bool, s: seq<T>, x: T)
    ensures Filter(p, s + [x]) == if p(x) then Filter(p, s) + [x] else Filter(p, s)
  {
    FilterAppend(p, s, [x]);
    assert [x][1..] == [];
  }

  lemma {:induction false} FilterTwice<T>(p: T -> bool, q: T -> bool, s: seq<T>)
    requires forall x :: x in s && p(x) ==> q(x)
    ensures Filter(p, Filter(q, s)) == Filter(p, s)
    decreases |s|
  {
    if s != [] {
      FilterTwice(p, q, s[1..]);
      var f := Filter(q, s[1..]);
      assert ([s[0]] + f)[1..] == f;
    }
  }

  lemma {:induction false} FilterKeepsOrder<T>(q: T -> bool, s: seq<T>, i: nat, j: nat) returns (k: nat, l: nat)
    requires i < j < |s| && q(s[i]) && q(s[j])
    ensures k < l < |Filter(q, s)| && Filter(q, s)[k] == s[i] && Filter(q, s)[l] == s[j]
    decreases |s|
  {
    if i > 0 {
      k, l := FilterKeepsOrder(q, s[1..], i - 1, j - 1);
      if q(s[0]) { k, l := k + 1, l + 1; }
    } else {
      k := 0;
      assert s[j] == s[1..][j - 1] && s[j] in s[1..];
      var rest := Filter(q, s[1..]);
      var m: nat :| m < |rest| && rest[m] == s[j];
      l := m + 1;
    }
  }

  lemma {:induction false} FilterCommutes<T>(p: T -> bool, q: T -> bool, s: seq<T>)
    ensures Filter(p, Filter(q, s)) == Filter(q, Filter(p, s))
    decreases |s|
  {
    if s != [] {
      FilterCommutes(p, q, s[1..]);
      var a, b := Filter(q, s[1..]), Filter(p, s[1..]);
      assert ([s[0]] + a)[1..] == a && ([s[0]] + b)[1..] == b;
    }
  }

  lemma {:induction false} FilterSplits<T>(p: T -> bool, q: T -> bool, s: seq<T>)
    requires forall x :: x in s ==> (p(x) <==> !q(x))
    ensures |Filter(p, s)| + |Filter(q, s)| == |s|
    decreases |s|
  {
    if s != [] { FilterSplits(p, q, s[1..]); }
  }

  lemma DistinctAppend<T>(a: seq<T>, b: seq<T>)
    requires Distinct(a) && Distinct(b) && (forall x :: x in a ==> x !in b)
    ensures Distinct(a + b)
  {
    var c := a + b;
    forall i, j | 0 <= i < j < |c|
      ensures c[i] != c[j]
    {
      if i < |a| <= j { assert c[i] in a && c[j] in b; }
    }
  }

  lemma DistinctSameMembers<T>(a: seq<T>, b: seq<T>)
    requires Distinct(a) && Distinct(b) && (forall x :: x in a <==> x in b)
    ensures multiset(a) == multiset(b)
  {
    forall x ensures multiset(a)[x] == multiset(b)[x] {
      DistinctCount(a, x);
      DistinctCount(b, x);
    }
  }

  lemma {:induction false} DistinctCount<T>(s: seq<T>, x: T)
    requires Distinct(s)
    ensures multiset(s)[x] == if x in s then 1 else 0
    decreases |s|
  {
    if s != [] {
      assert s == [s[0]] + s[1..];
      assert s[0] !in s[1..];
      DistinctCount(s[1..], x);
    }
  }

  // ----- stable sorting

  ghost predicate TotalPreorder<T(!new)>(leq: (T, T) -> bool) {
    && (forall x, y :: leq(x, y) || leq(y, x))
    && (forall x, y, z :: leq(x, y) && leq(y, z) ==> leq(x, z))
  }

  ghost predicate SortedBy<T>(leq: (T, T) -> bool, s: seq<T>) {
    forall i, j :: 0 <= i < j < |s| ==> leq(s[i], s[j])
  }

  function Insert<T>(leq: (T, T) -> bool, x: T, s: seq<T>): (r: seq<T>)
    decreases |s|
  {
    if s == [] || leq(x, s[0]) then [x] + s else [s[0]] + Insert(leq, x, s[1..])
  }

  /** Array.prototype.sort: equal elements keep their order. */
  function StableSort<T>(leq: (T, T) -> bool, s: seq<T>): (r: seq<T>)
    decreases |s|
  {
    if s == [] then [] else Insert(leq, s[0], StableSort(leq, s[1..]))
  }

  lemma {:induction false} InsertMembers<T>(leq: (T, T) -> bool, x: T, s: seq<T>)
    ensures multiset(Insert(leq, x, s)) == multiset(s) + multiset{x}
    ensures |Insert(leq, x, s)| == |s| + 1
    ensures forall y :: y in Insert(leq, x, s) <==> y == x || y in s
    decreases |s|
  {
    if !(s == [] || leq(x, s[0])) {
      InsertMembers(leq, x, s[1..]);
      assert s == [s[0]] + s[1..];
    }
  }

  lemma {:induction false} InsertSorted<T(!new)>(leq: (T, T) -> bool, x: T, s: seq<T>)
    requires TotalPreorder(leq) && SortedBy(leq, s)
    ensures SortedBy(leq, Insert(leq, x, s))
    decreases |s|
  {
    if s == [] {
    } else if leq(x, s[0]) {
      forall j | 0 <= j < |s| ensures leq(x, s[j]) {
        if j > 0 { assert leq(s[0], s[j]); }
      }
    } else {
      InsertSorted(leq, x, s[1..]);
      InsertMembers(leq, x, s[1..]);
      var r := Insert(leq, x, s[1..]);
      forall j | 0 <= j < |r| ensures leq(s[0], r[j]) {
        if r[j] != x {
          assert r[j] in s[1..];
          var k :| 0 <= k < |s[1..]| && s[1..][k] == r[j];
          assert leq(s[0], s[k + 1]);
        }
      }
    }
  }

  lemma {:induction false} SortPermutes<T>(leq: (T, T) -> bool, s: seq<T>)
    ensures multiset(StableSort(leq, s)) == multiset(s)
    ensures |StableSort(leq, s)| == |s|
    ensures forall y :: y in StableSort(leq, s) <==> y in s
    decreases |s|
  {
    if s != [] {
      SortPermutes(leq, s[1..]);
      InsertMembers(leq, s[0], StableSort(leq, s[1..]));
      assert s == [s[0]] + s[1..];
    }
  }

  lemma {:induction false} SortDistinct<T>(leq: (T, T) -> bool, s: seq<T>)
    requires Distinct(s)
    ensures Distinct(StableSort(leq, s))
  {
    SortPermutes(leq, s);
    var r := StableSort(leq, s);
    forall i, j | 0 <= i < j < |r| ensures r[i] != r[j] {
      if r[i] == r[j] {
        assert r == r[..j] + [r[j]] + r[j + 1..];
        assert r[i] in r[..j];
        assert multiset(r)[r[i]] >= 2;
        DistinctCount(s, r[i]);
      }
    }
  }

  lemma {:induction false} SortSorts<T(!new)>(leq: (T, T) -> bool, s: seq<T>)
    requires TotalPreorder(leq)
    ensures SortedBy(leq, StableSort(leq, s))
    decreases |s|
  {
    if s != [] {
      SortSorts(leq, s[1..]);
      InsertSorted(leq, s[0], StableSort(leq, s[1..]));
    }
  }

  lemma {:induction false} InsertFilter<T(!new)>(leq: (T, T) -> bool, p: T -> bool, x: T, s: seq<T>)
    requires TotalPreorder(leq) && SortedBy(leq, s)
    ensures Filter(p, Insert(leq, x, s)) == if p(x) then Insert(leq, x, Filter(p, s)) else Filter(p, s)
    decreases |s|
  {
    if s == [] {
    } else if leq(x, s[0]) {
      assert ([x] + s)[1..] == s;
      InsertFront(leq, p, x, s);
    } else {
      InsertFilter(leq, p, x, s[1..]);
      var r := Insert(leq, x, s[1..]);
      assert ([s[0]] + r)[1..] == r;
      if p(s[0]) {
        var f := Filter(p, s[1..]);
        assert ([s[0]] + f)[1..] == f;
      }
    }
  }

  lemma InsertFront<T(!new)>(leq: (T, T) -> bool, p: T -> bool, x: T, s: seq<T>)
    requires TotalPreorder(leq) && SortedBy(leq, s) && (s == [] || leq(x, s[0]))
    ensures Insert(leq, x, Filter(p, s)) == [x] + Filter(p, s)
  {
    var f := Filter(p, s);
    if f != [] {
      assert f[0] in s;
      var k :| 0 <= k < |s| && s[k] == f[0];
      assert k == 0 || leq(s[0], s[k]);
    }
  }

  /** Sorting a part of an array gives the part of the sorted array: the sort is stable. */
  lemma {:induction false} SortFilter<T(!new)>(leq: (T, T) -> bool, p: T -> bool, s: seq<T>)
    requires TotalPreorder(leq)
    ensures Filter(p, StableSort(leq, s)) == StableSort(leq, Filter(p, s))
    decreases |s|
  {
    if s != [] {
      SortSorts(leq, s[1..]);
      InsertFilter(leq, p, s[0], StableSort(leq, s[1..]));
      SortFilter(leq, p, s[1..]);
      var f := Filter(p, s[1..]);
      assert ([s[0]] + f)[1..] == f;
    }
  }

  lemma {:induction false} SortedIsFixed<T>(leq: (T, T) -> bool, s: seq<T>)
    requires SortedBy(leq, s)
    ensures StableSort(leq, s) == s
    decreases |s|
  {
    if s != [] {
      SortedIsFixed(leq, s[1..]);
      assert |s| > 1 ==> leq(s[0], s[1]);
    }
  }

  // ----- two elements

  function IsEither<T(==)>(a: T, b: T): T -> bool {
    (x: T) => x == a || x == b
  }

  lemma {:induction false} FilterOnly<T>(q: T -> bool, s: seq<T>, k: nat)
    requires k < |s| && q(s[k]) && forall i :: 0 <= i < |s| && i != k ==> !q(s[i])
    ensures Filter(q, s) == [s[k]]
    decreases |s|
  {
    if k == 0 { FilterNone(q, s[1..]); } else { FilterOnly(q, s[1..], k - 1); }
  }

  lemma {:induction false} FilterTwo<T>(q: T -> bool, s: seq<T>, i: nat, j: nat)
    requires i < j < |s| && q(s[i]) && q(s[j]) && forall k :: 0 <= k < |s| && k != i && k != j ==> !q(s[k])
    ensures Filter(q, s) == [s[i], s[j]]
    decreases |s|
  {
    if i == 0 { FilterOnly(q, s[1..], j - 1); } else { FilterTwo(q, s[1..], i - 1, j - 1); }
  }

  lemma FilterPair<T>(s: seq<T>, i: nat, j: nat)
    requires Distinct(s) && i < j < |s|
    ensures Filter(IsEither(s[i], s[j]), s) == [s[i], s[j]]
  {
    FilterTwo(IsEither(s[i], s[j]), s, i, j);
  }

  lemma PairInOrder<T>(s: seq<T>, a: T, b: T, i: nat, j: nat)
    requires i < |s| && j < |s| && s[i] == a && s[j] == b && a != b && Filter(IsEither(a, b), s) == [a, b]
    ensures i < j
  {
    if j < i { var k, l := FilterKeepsOrder(IsEither(a, b), s, j, i); }
  }

  /** Of two, the lesser one is first, or the one that was first already. */
  lemma SortPair<T(!new)>(leq: (T, T) -> bool, a: T, b: T)
    requires TotalPreorder(leq) && leq(a, b)
    ensures StableSort(leq, [a, b]) == [a, b]
    ensures !leq(b, a) ==> StableSort(leq, [b, a]) == [a, b]
  {
    SortedIsFixed(leq, [a, b]);
    assert [b, a][1..] == [a] && [a][1..] == [];
    assert StableSort(leq, [a]) == [a];
    if !leq(b, a) { assert Insert(leq, b, [a]) == [a, b]; }
  }

  /** Elements that compare equal keep their order. */
  lemma SortIsStable<T(!new)>(leq: (T, T) -> bool, s: seq<T>, p: nat, q: nat, i: nat, j: nat)
    requires TotalPreorder(leq) && Distinct(s) && p < q < |s| && leq(s[p], s[q])
    requires var r := StableSort(leq, s); i < |r| && j < |r| && r[i] == s[p] && r[j] == s[q]
    ensures i < j
  {
    FilterPair(s, p, q);
    SortFilter(leq, IsEither(s[p], s[q]), s);
    SortPair(leq, s[p], s[q]);
    PairInOrder(StableSort(leq, s), s[p], s[q], i, j);
  }
}
