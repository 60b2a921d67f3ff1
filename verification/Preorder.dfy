/**
 The traversal that both session modules share: visit a work list in order,
 each node once, its children right after it. Written on an explicit work
 list; `WalkAppend` is the step to the recursive form.
 */
module Preorder {
  import opened Sequences

  /** A finite graph: what identifies a node, and its children in order. */
  datatype Graph<!T, !K> = Graph(all: set<T>, key: T -> K, kids: T -> seq<T>)

  ghost predicate Closed<T(!new), K>(g: Graph<T, K>) {
    forall x, y :: x in g.all && y in g.kids(x) ==> y in g.all
  }

  ghost predicate Within<T(!new), K>(g: Graph<T, K>, work: seq<T>) {
    forall x :: x in work ==> x in g.all
  }

  ghost function Keys<T, K>(g: Graph<T, K>, out: seq<T>): set<K> {
    set x | x in out :: g.key(x)
  }

  ghost function AllKeys<T, K>(g: Graph<T, K>): set<K> {
    set x | x in g.all :: g.key(x)
  }

  ghost function Walk<T(!new), K>(g: Graph<T, K>, work: seq<T>, visited: set<K>): (out: seq<T>)
    requires Closed(g) && Within(g, work)
    decreases |AllKeys(g) - visited|, |work|
  {
    if work == [] then []
    else if g.key(work[0]) in visited then Walk(g, work[1..], visited)
    else
      OneLess(g, work[0], visited);
      [work[0]] + Walk(g, g.kids(work[0]) + work[1..], visited + {g.key(work[0])})
  }

  lemma {:induction false} CardinalityLess<K>(a: set<K>, b: set<K>)
    requires a < b
    ensures |a| < |b|
    decreases |a|
  {
    if a != {} {
      var x :| x in a;
      var y :| y in b && y !in a;
      assert y in b - {x} && y !in a - {x};
      CardinalityLess(a - {x}, b - {x});
    }
  }

  ghost predicate DistinctKeys<T, K>(g: Graph<T, K>, out: seq<T>) {
    forall i, j :: 0 <= i < j < |out| ==> g.key(out[i]) != g.key(out[j])
  }

  lemma KeysCons<T, K>(g: Graph<T, K>, x: T, rest: seq<T>)
    ensures Keys(g, [x] + rest) == {g.key(x)} + Keys(g, rest)
  {
    assert forall y :: y in [x] + rest <==> y == x || y in rest;
  }

  /** One visit: the children go to the front of the work list. */
  lemma WalkStep<T(!new), K>(g: Graph<T, K>, work: seq<T>, visited: set<K>)
    requires Closed(g) && Within(g, work) && work != [] && g.key(work[0]) !in visited
    ensures var x, next, v := work[0], g.kids(work[0]) + work[1..], visited + {g.key(work[0])};
            && Within(g, next) && |AllKeys(g) - v| < |AllKeys(g) - visited|
            && Walk(g, work, visited) == [x] + Walk(g, next, v)
            && visited + Keys(g, Walk(g, work, visited)) == v + Keys(g, Walk(g, next, v))
  {
    var x, next, v := work[0], g.kids(work[0]) + work[1..], visited + {g.key(work[0])};
    OneLess(g, x, visited);
    KeysCons(g, x, Walk(g, next, v));
  }

  lemma OneLess<T, K>(g: Graph<T, K>, x: T, visited: set<K>)
    requires x in g.all && g.key(x) !in visited
    ensures |AllKeys(g) - (visited + {g.key(x)})| < |AllKeys(g) - visited|
  {
    assert g.key(x) in AllKeys(g) - visited;
    CardinalityLess(AllKeys(g) - (visited + {g.key(x)}), AllKeys(g) - visited);
  }

  lemma DistinctCons<T, K>(g: Graph<T, K>, x: T, rest: seq<T>)
    requires DistinctKeys(g, rest) && forall y :: y in rest ==> g.key(y) != g.key(x)
    ensures DistinctKeys(g, [x] + rest)
  {
  }

  /** A walk visits what is new, once each, and leaves nothing of its work unvisited. */
  lemma {:induction false} WalkVisits<T(!new), K>(g: Graph<T, K>, work: seq<T>, visited: set<K>)
    requires Closed(g) && Within(g, work)
    ensures Within(g, Walk(g, work, visited)) && DistinctKeys(g, Walk(g, work, visited))
    ensures forall x :: x in Walk(g, work, visited) ==> g.key(x) !in visited
    ensures forall x :: x in work ==> g.key(x) in visited + Keys(g, Walk(g, work, visited))
    decreases |AllKeys(g) - visited|, |work|
  {
    if work == [] {
    } else if g.key(work[0]) in visited {
      WalkVisits(g, work[1..], visited);
      assert work == [work[0]] + work[1..];
    } else {
      WalkStep(g, work, visited);
      var x, next, v := work[0], g.kids(work[0]) + work[1..], visited + {g.key(work[0])};
      WalkVisits(g, next, v);
      DistinctCons(g, x, Walk(g, next, v));
      forall y | y in work ensures g.key(y) in visited + Keys(g, Walk(g, work, visited)) {
        if y != x { assert y in work[1..] && y in next; }
      }
    }
  }

  /** Everything on the work list of a first walk has its key visited. */
  lemma WalkCovers<T(!new), K>(g: Graph<T, K>, work: seq<T>, x: T) returns (t: T)
    requires Closed(g) && Within(g, work) && x in work
    ensures t in Walk(g, work, {}) && g.key(t) == g.key(x)
  {
    WalkVisits(g, work, {});
    assert g.key(x) in Keys(g, Walk(g, work, {}));
    t :| t in Walk(g, work, {}) && g.key(t) == g.key(x);
  }

  /** Only what the functions of a graph give on its nodes matters. */
  lemma {:induction false} WalkSame<T(!new), K>(g: Graph<T, K>, h: Graph<T, K>, work: seq<T>, visited: set<K>)
    requires Closed(g) && Closed(h) && Within(g, work) && Within(h, work) && g.all == h.all
    requires forall x :: x in g.all ==> g.key(x) == h.key(x) && g.kids(x) == h.kids(x)
    ensures Walk(g, work, visited) == Walk(h, work, visited)
    decreases |AllKeys(g) - visited|, |work|
  {
    if work != [] {
      if g.key(work[0]) in visited {
        WalkSame(g, h, work[1..], visited);
      } else {
        WalkStep(g, work, visited);
        WalkStep(h, work, visited);
        WalkSame(g, h, g.kids(work[0]) + work[1..], visited + {g.key(work[0])});
      }
    }
  }

  ghost predicate Splits<T(!new), K>(g: Graph<T, K>, a: seq<T>, b: seq<T>, visited: set<K>)
    requires Closed(g) && Within(g, a) && Within(g, b)
  {
    Walk(g, a + b, visited) == Walk(g, a, visited) + Walk(g, b, visited + Keys(g, Walk(g, a, visited)))
  }

  lemma SplitsStep<T(!new), K>(g: Graph<T, K>, a: seq<T>, b: seq<T>, visited: set<K>)
    requires Closed(g) && Within(g, a) && Within(g, b) && a != [] && g.key(a[0]) !in visited
    requires Within(g, g.kids(a[0]) + a[1..]) && Splits(g, g.kids(a[0]) + a[1..], b, visited + {g.key(a[0])})
    ensures Splits(g, a, b, visited)
  {
    var x := a[0];
    var next, v := g.kids(x) + a[1..], visited + {g.key(x)};
    assert g.kids(x) + (a + b)[1..] == next + b;
    WalkStep(g, a, visited);
    WalkStep(g, a + b, visited);
    var first, second := Walk(g, next, v), Walk(g, b, v + Keys(g, Walk(g, next, v)));
    assert [x] + (first + second) == ([x] + first) + second;
  }

  /** A work list can be split: the second part sees what the first visited. */
  lemma {:induction false} WalkAppend<T(!new), K>(g: Graph<T, K>, a: seq<T>, b: seq<T>, visited: set<K>)
    requires Closed(g) && Within(g, a) && Within(g, b)
    ensures Splits(g, a, b, visited)
    decreases |AllKeys(g) - visited|, |a|
  {
    if a == [] {
      assert a + b == b;
      assert visited + Keys(g, []) == visited;
    } else if g.key(a[0]) in visited {
      assert (a + b)[1..] == a[1..] + b;
      WalkAppend(g, a[1..], b, visited);
    } else {
      WalkStep(g, a, visited);
      WalkAppend(g, g.kids(a[0]) + a[1..], b, visited + {g.key(a[0])});
      SplitsStep(g, a, b, visited);
    }
  }

  /** Position `j` was on the work list or comes after a parent of it. */
  ghost predicate Follows<T(!new), K>(g: Graph<T, K>, work: seq<T>, out: seq<T>, j: nat)
    requires j < |out|
  {
    out[j] in work || exists i :: 0 <= i < j && out[j] in g.kids(out[i])
  }

  /** Whatever a walk visits was on its work list or follows a parent of it. */
  lemma {:induction false} WalkParentsFirst<T(!new), K>(g: Graph<T, K>, work: seq<T>, visited: set<K>, j: nat)
    requires Closed(g) && Within(g, work) && j < |Walk(g, work, visited)|
    ensures Follows(g, work, Walk(g, work, visited), j)
    decreases |AllKeys(g) - visited|, |work|
  {
    if g.key(work[0]) in visited {
      WalkParentsFirst(g, work[1..], visited, j);
      FollowsSkip(g, work, Walk(g, work[1..], visited), j);
    } else {
      WalkStep(g, work, visited);
      var next, v := g.kids(work[0]) + work[1..], visited + {g.key(work[0])};
      if j > 0 { WalkParentsFirst(g, next, v, j - 1); }
      FollowsVisit(g, work, Walk(g, next, v), j);
    }
  }

  lemma FollowsSkip<T(!new), K>(g: Graph<T, K>, work: seq<T>, out: seq<T>, j: nat)
    requires work != [] && j < |out| && Follows(g, work[1..], out, j)
    ensures Follows(g, work, out, j)
  {
  }

  lemma FollowsVisit<T(!new), K>(g: Graph<T, K>, work: seq<T>, rest: seq<T>, j: nat)
    requires work != [] && j <= |rest| && (j > 0 ==> Follows(g, g.kids(work[0]) + work[1..], rest, j - 1))
    ensures Follows(g, work, [work[0]] + rest, j)
  {
    if j > 0 {
      FollowsCons(g, work[0], work[1..], rest, j - 1);
      assert work == [work[0]] + work[1..];
    }
  }

  lemma FollowsCons<T(!new), K>(g: Graph<T, K>, x: T, work: seq<T>, rest: seq<T>, j: nat)
    requires j < |rest| && Follows(g, g.kids(x) + work, rest, j)
    ensures Follows(g, [x] + work, [x] + rest, j + 1)
  {
    var out := [x] + rest;
    if rest[j] in g.kids(x) {
      assert out[j + 1] in g.kids(out[0]);
    } else if rest[j] !in work {
      var i :| 0 <= i < j && rest[j] in g.kids(rest[i]);
      assert out[i + 1] == rest[i];
    }
  }

  /** A walk from one node starts with it; everything after is a child of something before. */
  lemma WalkOne<T(!new), K>(g: Graph<T, K>, w: T, visited: set<K>, i: nat) returns (k: nat)
    requires Closed(g) && w in g.all && i < |Walk(g, [w], visited)|
    ensures var tree := Walk(g, [w], visited);
            Within(g, tree) && tree[0] == w && (i > 0 ==> k < i && tree[i] in g.kids(tree[k]))
  {
    var tree := Walk(g, [w], visited);
    assert [w][1..] == [];
    WalkStep(g, [w], visited);
    WalkVisits(g, [w], visited);
    if i > 0 {
      WalkParentsFirst(g, [w], visited, i);
      assert tree[i] != w by { assert g.key(tree[0]) != g.key(tree[i]); }
      k :| 0 <= k < i && tree[i] in g.kids(tree[k]);
    } else {
      k := 0;
    }
  }

  /** The children of what a walk visits are visited too. */
  lemma {:induction false} WalkClosed<T(!new), K>(g: Graph<T, K>, work: seq<T>, visited: set<K>, x: T, y: T)
    requires Closed(g) && Within(g, work) && x in Walk(g, work, visited) && y in g.kids(x)
    ensures g.key(y) in visited + Keys(g, Walk(g, work, visited))
    decreases |AllKeys(g) - visited|, |work|
  {
    var w := work[0];
    if g.key(w) in visited {
      WalkClosed(g, work[1..], visited, x, y);
    } else {
      WalkStep(g, work, visited);
      var next, v := g.kids(w) + work[1..], visited + {g.key(w)};
      if x == w {
        WalkVisits(g, next, v);
        assert y in next;
      } else {
        WalkClosed(g, next, v, x, y);
      }
    }
  }

  /** appendTree: visits a node and, recursively, its children. */
  method AppendTree<T(==, !new), K(==)>(g: Graph<T, K>, x: T, visited: set<K>) returns (out: seq<T>, seen: set<K>)
    requires Closed(g) && x in g.all
    ensures out == Walk(g, [x], visited) && seen == visited + Keys(g, out)
    decreases |AllKeys(g) - visited|, 0
  {
    assert [x][1..] == [];
    if g.key(x) in visited {
      out, seen := [], visited;
    } else {
      WalkStep(g, [x], visited);
      var kids := g.kids(x);
      assert kids + [x][1..] == kids;
      var rest;
      rest, seen := AppendTrees(g, kids, visited + {g.key(x)});
      out := [x] + rest;
    }
  }

  /** Calls AppendTree on each node of a list in turn. */
  method AppendTrees<T(==, !new), K(==)>(g: Graph<T, K>, work: seq<T>, visited: set<K>) returns (out: seq<T>, seen: set<K>)
    requires Closed(g) && Within(g, work)
    ensures out == Walk(g, work, visited) && seen == visited + Keys(g, out)
    decreases |AllKeys(g) - visited|, 1
  {
    out, seen := [], visited;
    var i := 0;
    while i < |work|
      invariant 0 <= i <= |work|
      invariant out == Walk(g, work[..i], visited) && seen == visited + Keys(g, out)
    {
      CardinalityAtMost(AllKeys(g) - seen, AllKeys(g) - visited);
      var more, next := AppendTree(g, work[i], seen);
      WalkExtends(g, work, i, visited);
      out, seen := out + more, next;
      i := i + 1;
    }
    assert work[..i] == work;
  }

  lemma WalkExtends<T(!new), K>(g: Graph<T, K>, work: seq<T>, i: nat, visited: set<K>)
    requires Closed(g) && Within(g, work) && i < |work|
    ensures var out := Walk(g, work[..i], visited);
            var more := Walk(g, [work[i]], visited + Keys(g, out));
            Walk(g, work[..i + 1], visited) == out + more && Keys(g, out + more) == Keys(g, out) + Keys(g, more)
  {
    WalkAppend(g, work[..i], [work[i]], visited);
    assert work[..i] + [work[i]] == work[..i + 1];
    var out := Walk(g, work[..i], visited);
    var more := Walk(g, [work[i]], visited + Keys(g, out));
    assert forall y :: y in out + more <==> y in out || y in more;
  }

  lemma CardinalityAtMost<K>(a: set<K>, b: set<K>)
    requires a <= b
    ensures |a| <= |b|
  {
    if a != b { CardinalityLess(a, b); }
  }
}
