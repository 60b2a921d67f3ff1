/**
 Walks over a forest: every node has one parent at most, so nothing is ever
 met twice. Then siblings come out in the order of their list, and a subtree
 is one contiguous stretch that starts with its root.
 */
module Forest {
  import opened Sequences
  import opened Preorder

  /** Nodes identify themselves, and no node is listed as a child twice. */
  ghost predicate Treelike<T(!new)>(g: Graph<T, T>) {
    && Closed(g)
    && (forall x :: g.key(x) == x)
    && (forall x :: x in g.all ==> Distinct(g.kids(x)))
    && (forall x, y, z :: x in g.all && y in g.all && z in g.kids(x) && z in g.kids(y) ==> x == y)
  }

  /** The work list is new, and nothing on it or visited is a child of something still to come. */
  ghost predicate Frontier<T(!new)>(g: Graph<T, T>, work: seq<T>, visited: set<T>) {
    && Within(g, work) && Distinct(work)
    && (forall x :: x in work ==> x !in visited)
    && (forall x, z :: x in g.all && x !in visited && z in g.kids(x) ==> z !in work && z !in visited)
  }

  lemma FrontierStep<T(!new)>(g: Graph<T, T>, work: seq<T>, visited: set<T>)
    requires Treelike(g) && Frontier(g, work, visited) && work != []
    ensures g.key(work[0]) !in visited
    ensures Frontier(g, g.kids(work[0]) + work[1..], visited + {work[0]})
  {
    var x, kids, rest := work[0], g.kids(work[0]), work[1..];
    assert forall y :: y in rest ==> y in work;
    assert x !in rest;
    DistinctAppend(kids, rest);
    assert forall y :: y in kids + rest <==> y in kids || y in rest;
  }

  lemma FrontierPart<T(!new)>(g: Graph<T, T>, a: seq<T>, b: seq<T>, visited: set<T>)
    requires Frontier(g, a + b, visited)
    ensures Frontier(g, a, visited)
  {
    var c := a + b;
    assert forall i :: 0 <= i < |a| ==> a[i] == c[i];
    assert forall x :: x in a ==> x in c;
  }

  // ----- siblings

  /** Nodes that are nobody's children any more come out in the order of the work list. */
  lemma {:induction false} WalkKeepsOrder<T(!new)>(g: Graph<T, T>, work: seq<T>, visited: set<T>, q: T -> bool)
    requires Treelike(g) && Frontier(g, work, visited)
    requires forall x, z :: x in g.all && x !in visited && z in g.kids(x) ==> !q(z)
    ensures Filter(q, Walk(g, work, visited)) == Filter(q, work)
    decreases |AllKeys(g) - visited|, |work|
  {
    if work != [] {
      FrontierStep(g, work, visited);
      WalkStep(g, work, visited);
      var x, rest, v := work[0], work[1..], visited + {work[0]};
      WalkKeepsOrder(g, g.kids(x) + rest, v, q);
      FilterCons(q, x, Walk(g, g.kids(x) + rest, v));
      FilterPrefix(q, g.kids(x), rest);
    }
  }

  /** The children of every node that is visited come out in the order of their list. */
  lemma {:induction false} WalkOrdersSiblings<T(!new)>(g: Graph<T, T>, work: seq<T>, visited: set<T>, p: T, q: T -> bool)
    requires Treelike(g) && Frontier(g, work, visited)
    requires p in Walk(g, work, visited) && (forall z :: q(z) <==> z in g.kids(p))
    ensures Filter(q, Walk(g, work, visited)) == g.kids(p)
    decreases |AllKeys(g) - visited|, |work|
  {
    FrontierStep(g, work, visited);
    WalkStep(g, work, visited);
    WalkVisits(g, work, visited);
    var x, rest, v := work[0], work[1..], visited + {work[0]};
    var next := g.kids(x) + rest;
    FilterCons(q, x, Walk(g, next, v));
    assert p in g.all && p !in visited;
    assert !q(x);
    if x == p {
      WalkKeepsOrder(g, next, v, q);
      FilterAppend(q, g.kids(p), rest);
      FilterAll(q, g.kids(p));
      assert forall y :: y in rest ==> y in work;
      FilterNone(q, rest);
    } else {
      WalkOrdersSiblings(g, next, v, p, q);
    }
  }

  // ----- siblings off the trees, where nodes can be met twice

  /** The children of `p`. */
  ghost predicate AreKids<T(!new)>(g: Graph<T, T>, p: T, q: T -> bool) {
    p in g.all && forall z :: q(z) <==> z in g.kids(p)
  }

  lemma NoNewKids<T(!new)>(g: Graph<T, T>, work: seq<T>, visited: set<T>, p: T, q: T -> bool)
    requires Treelike(g) && Within(g, work) && AreKids(g, p, q) && p in visited
    requires forall x :: x in work && q(x) ==> x in visited
    ensures Filter(q, Walk(g, work, visited)) == []
  {
    var out := Walk(g, work, visited);
    WalkVisits(g, work, visited);
    forall x | x in out ensures !q(x) {
      var j :| 0 <= j < |out| && out[j] == x;
      WalkParentsFirst(g, work, visited, j);
      assert forall i :: 0 <= i < |out| ==> out[i] in out && out[i] in g.all;
    }
    FilterNone(q, out);
  }

  /** Once `p` was visited, its children that are new come out in the order they are listed. */
  lemma {:induction false} KidsKeepOrder<T(!new)>(g: Graph<T, T>, a: seq<T>, b: seq<T>, visited: set<T>, p: T, q: T -> bool)
    requires Treelike(g) && Within(g, a) && Within(g, b) && AreKids(g, p, q) && p in visited
    requires Distinct(Filter(q, a)) && forall x :: x in a && q(x) ==> x !in visited
    requires forall x :: x in b && q(x) ==> x in a || x in visited
    ensures Filter(q, Walk(g, a + b, visited)) == Filter(q, a)
    decreases |AllKeys(g) - visited|, |a|
  {
    if a == [] {
      assert a + b == b;
      NoNewKids(g, b, visited, p, q);
    } else {
      var x, rest := a[0], a[1..];
      assert (a + b)[1..] == rest + b && (a + b)[0] == x && a == [x] + rest;
      if q(x) { TailDistinct(Filter(q, a)); }
      if x in visited {
        KidsKeepOrder(g, rest, b, visited, p, q);
      } else {
        WalkStep(g, a + b, visited);
        FilterPrefix(q, g.kids(x), rest);
        ConcatAssociates(g.kids(x), rest, b);
        assert forall y :: y in g.kids(x) ==> !q(y);
        KidsKeepOrder(g, g.kids(x) + rest, b, visited + {x}, p, q);
        FilterCons(q, x, Walk(g, g.kids(x) + rest + b, visited + {x}));
      }
    }
  }

  lemma TailDistinct<T>(s: seq<T>)
    requires Distinct(s) && s != []
    ensures Distinct(s[1..]) && s[0] !in s[1..]
  {
  }

  /** No child of `p` comes before it, nor is it a child of its own. */
  ghost predicate ComesFirst<T(!new)>(out: seq<T>, p: T, q: T -> bool) {
    exists k :: 0 <= k < |out| && out[k] == p && forall i :: 0 <= i <= k ==> !q(out[i])
  }

  lemma ComesFirstTail<T(!new)>(x: T, after: seq<T>, p: T, q: T -> bool)
    requires ComesFirst([x] + after, p, q)
    ensures !q(x) && (x != p ==> ComesFirst(after, p, q))
  {
    var out := [x] + after;
    var k :| 0 <= k < |out| && out[k] == p && forall i :: 0 <= i <= k ==> !q(out[i]);
    assert out[0] == x;
    if x != p { assert after[k - 1] == p && forall i :: 0 <= i <= k - 1 ==> after[i] == out[i + 1]; }
  }

  /** The children of a node that comes before all of them come out in the order of their list. */
  lemma {:induction false} WalkOrdersKids<T(!new)>(g: Graph<T, T>, work: seq<T>, visited: set<T>, p: T, q: T -> bool)
    requires Treelike(g) && Within(g, work) && AreKids(g, p, q) && (forall x :: x in visited ==> !q(x))
    requires ComesFirst(Walk(g, work, visited), p, q)
    ensures Filter(q, Walk(g, work, visited)) == g.kids(p)
    decreases |AllKeys(g) - visited|, |work|
  {
    var x, rest := work[0], work[1..];
    if x in visited {
      WalkOrdersKids(g, rest, visited, p, q);
    } else {
      WalkStep(g, work, visited);
      var v := visited + {x};
      var after := Walk(g, g.kids(x) + rest, v);
      ComesFirstTail(x, after, p, q);
      FilterCons(q, x, after);
      if x == p {
        FilterAll(q, g.kids(p));
        KidsKeepOrder(g, g.kids(p), rest, v, p, q);
      } else {
        WalkOrdersKids(g, g.kids(x) + rest, v, p, q);
      }
    }
  }

  // ----- subtrees

  ghost predicate Path<T(!new), K>(g: Graph<T, K>, p: seq<T>) {
    p != [] && forall i :: 0 <= i < |p| - 1 ==> p[i + 1] in g.kids(p[i])
  }

  ghost predicate Leads<T(!new), K>(g: Graph<T, K>, p: seq<T>, x: T, y: T) {
    Path(g, p) && p[0] == x && p[|p| - 1] == y
  }

  /** `y` is `x` or one of its descendants. */
  ghost predicate Reaches<T(!new), K>(g: Graph<T, K>, x: T, y: T) {
    exists p :: Leads(g, p, x, y)
  }

  lemma ReachesSelf<T(!new), K>(g: Graph<T, K>, x: T)
    ensures Reaches(g, x, x)
  {
    assert Leads(g, [x], x, x);
  }

  lemma ReachesCons<T(!new), K>(g: Graph<T, K>, x: T, c: T, y: T)
    requires c in g.kids(x) && Reaches(g, c, y)
    ensures Reaches(g, x, y)
  {
    var p :| Leads(g, p, c, y);
    var q := [x] + p;
    forall i | 0 <= i < |q| - 1 ensures q[i + 1] in g.kids(q[i]) {
      if i > 0 { assert q[i] == p[i - 1] && q[i + 1] == p[i]; }
    }
    assert Leads(g, q, x, y);
  }

  lemma ReachesSplit<T(!new), K>(g: Graph<T, K>, x: T, y: T) returns (c: T)
    requires Reaches(g, x, y) && x != y
    ensures c in g.kids(x) && Reaches(g, c, y)
  {
    var p :| Leads(g, p, x, y);
    c := p[1];
    assert Leads(g, p[1..], c, y) by {
      assert forall i :: 0 <= i < |p[1..]| ==> p[1..][i] == p[i + 1];
    }
  }

  /** What an unvisited node leads to is unvisited, and on no work list but as that node itself. */
  lemma {:induction false} PathStaysNew<T(!new)>(g: Graph<T, T>, work: seq<T>, visited: set<T>, p: seq<T>)
    requires Treelike(g) && Frontier(g, work, visited) && Path(g, p) && p[0] in g.all && p[0] !in visited
    ensures p[|p| - 1] in g.all && p[|p| - 1] !in visited && (|p| > 1 ==> p[|p| - 1] !in work)
    decreases |p|
  {
    if |p| > 1 {
      var q := p[..|p| - 1];
      PathStaysNew(g, work, visited, q);
      assert p[|p| - 1] in g.kids(q[|q| - 1]) by { assert p[|p| - 2 + 1] in g.kids(p[|p| - 2]); }
    }
  }

  /** A walk visits what its work list leads to. */
  lemma {:induction false} WalkReaches<T(!new)>(g: Graph<T, T>, work: seq<T>, visited: set<T>, y: T) returns (w: T)
    requires Treelike(g) && Frontier(g, work, visited) && y in Walk(g, work, visited)
    ensures w in work && Reaches(g, w, y)
    decreases |AllKeys(g) - visited|, |work|
  {
    FrontierStep(g, work, visited);
    WalkStep(g, work, visited);
    var x := work[0];
    if y == x {
      ReachesSelf(g, x);
      w := x;
    } else {
      var c := WalkReaches(g, g.kids(x) + work[1..], visited + {x}, y);
      if c in g.kids(x) {
        ReachesCons(g, x, c, y);
        w := x;
      } else {
        w := c;
      }
    }
  }

  lemma KeysAreMembers<T(!new)>(g: Graph<T, T>, out: seq<T>)
    requires Treelike(g)
    ensures forall y :: y in Keys(g, out) <==> y in out
  {
  }

  /** A walk visits all its work list leads to. */
  lemma {:induction false} WalkReachesAll<T(!new)>(g: Graph<T, T>, work: seq<T>, visited: set<T>, p: seq<T>)
    requires Treelike(g) && Frontier(g, work, visited) && Path(g, p) && p[0] in work
    ensures p[|p| - 1] in Walk(g, work, visited)
    decreases |p|
  {
    WalkVisits(g, work, visited);
    KeysAreMembers(g, Walk(g, work, visited));
    if |p| > 1 {
      var q := p[..|p| - 1];
      WalkReachesAll(g, work, visited, q);
      var x, y := q[|q| - 1], p[|p| - 1];
      assert y in g.kids(x) by { assert p[|p| - 2 + 1] in g.kids(p[|p| - 2]); }
      WalkClosed(g, work, visited, x, y);
    }
  }

  /** `out[i..i + n]` is the subtree of `x`: it starts with `x` and holds exactly what `x` leads to. */
  ghost predicate Spans<T(!new)>(g: Graph<T, T>, out: seq<T>, x: T, i: nat, n: nat) {
    && i + n < |out| && out[i] == x
    && (forall j :: 0 <= j < |out| ==> (Reaches(g, x, out[j]) <==> i <= j <= i + n))
  }

  /** The first node, then the walk over its children, then the rest. */
  lemma FrontDecomposes<T(!new)>(g: Graph<T, T>, work: seq<T>, visited: set<T>) returns (post: seq<T>)
    requires Treelike(g) && Frontier(g, work, visited) && work != []
    ensures var x, v := work[0], visited + {work[0]};
            && Frontier(g, g.kids(x), v)
            && Walk(g, work, visited) == [x] + (Walk(g, g.kids(x), v) + post)
            && Distinct([x] + (Walk(g, g.kids(x), v) + post))
  {
    FrontierStep(g, work, visited);
    WalkStep(g, work, visited);
    var x, v := work[0], visited + {work[0]};
    FrontierPart(g, g.kids(x), work[1..], v);
    WalkAppend(g, g.kids(x), work[1..], v);
    post := Walk(g, work[1..], v + Keys(g, Walk(g, g.kids(x), v)));
    DistinctNodes(g, work, visited);
  }

  lemma DistinctNodes<T(!new)>(g: Graph<T, T>, work: seq<T>, visited: set<T>)
    requires Treelike(g) && Frontier(g, work, visited)
    ensures Distinct(Walk(g, work, visited))
  {
    WalkVisits(g, work, visited);
  }

  lemma DescendantsAreWalked<T(!new)>(g: Graph<T, T>, x: T, visited: set<T>, y: T)
    requires Treelike(g) && x in g.all && Frontier(g, g.kids(x), visited)
    ensures y in Walk(g, g.kids(x), visited) ==> Reaches(g, x, y)
    ensures y != x && Reaches(g, x, y) ==> y in Walk(g, g.kids(x), visited)
  {
    if y in Walk(g, g.kids(x), visited) {
      var c := WalkReaches(g, g.kids(x), visited, y);
      ReachesCons(g, x, c, y);
    }
    if y != x && Reaches(g, x, y) {
      var c := ReachesSplit(g, x, y);
      var p :| Leads(g, p, c, y);
      WalkReachesAll(g, g.kids(x), visited, p);
    }
  }

  /** The first node of a work list is followed by its descendants, and by nothing of them later. */
  lemma FrontSpans<T(!new)>(g: Graph<T, T>, work: seq<T>, visited: set<T>) returns (n: nat)
    requires Treelike(g) && Frontier(g, work, visited) && work != []
    ensures Spans(g, Walk(g, work, visited), work[0], 0, n)
  {
    var x, v := work[0], visited + {work[0]};
    var post := FrontDecomposes(g, work, visited);
    var sub := Walk(g, g.kids(x), v);
    n := |sub|;
    SpansFront(g, x, v, sub, post);
  }

  lemma SpansFront<T(!new)>(g: Graph<T, T>, x: T, v: set<T>, sub: seq<T>, post: seq<T>)
    requires Treelike(g) && x in g.all && Frontier(g, g.kids(x), v) && sub == Walk(g, g.kids(x), v)
    requires Distinct([x] + (sub + post))
    ensures Spans(g, [x] + (sub + post), x, 0, |sub|)
  {
    var out := [x] + (sub + post);
    forall j | 0 <= j < |out| ensures Reaches(g, x, out[j]) <==> j <= |sub| {
      DescendantsAreWalked(g, x, v, out[j]);
      if j == 0 {
        ReachesSelf(g, x);
      } else if j <= |sub| {
        assert out[j] == sub[j - 1];
      } else {
        assert out[j] != out[0];
        forall k | 0 <= k < |sub| ensures sub[k] != out[j] { assert out[k + 1] == sub[k]; }
      }
    }
  }

  lemma SpansShift<T(!new)>(g: Graph<T, T>, w: T, rest: seq<T>, x: T, k: nat, n: nat)
    requires Spans(g, rest, x, k, n) && !Reaches(g, x, w)
    ensures Spans(g, [w] + rest, x, k + 1, n)
  {
    var out := [w] + rest;
    forall j | 0 <= j < |out| ensures Reaches(g, x, out[j]) <==> k + 1 <= j <= k + 1 + n {
      if j > 0 { assert out[j] == rest[j - 1]; }
    }
  }

  lemma FrontIsNoDescendant<T(!new)>(g: Graph<T, T>, work: seq<T>, visited: set<T>, x: T)
    requires Treelike(g) && Frontier(g, work, visited) && work != [] && x in Walk(g, work, visited) && x != work[0]
    ensures !Reaches(g, x, work[0])
  {
    WalkVisits(g, work, visited);
    if Reaches(g, x, work[0]) {
      var p :| Leads(g, p, x, work[0]);
      PathStaysNew(g, work, visited, p);
    }
  }

  lemma LaterSpans<T(!new)>(g: Graph<T, T>, work: seq<T>, visited: set<T>, x: T, k: nat, n: nat)
    requires Treelike(g) && Frontier(g, work, visited) && work != [] && x in Walk(g, work, visited) && x != work[0]
    requires Within(g, g.kids(work[0]) + work[1..])
    requires Spans(g, Walk(g, g.kids(work[0]) + work[1..], visited + {work[0]}), x, k, n)
    ensures Spans(g, Walk(g, work, visited), x, k + 1, n)
  {
    WalkStep(g, work, visited);
    FrontIsNoDescendant(g, work, visited, x);
    SpansShift(g, work[0], Walk(g, g.kids(work[0]) + work[1..], visited + {work[0]}), x, k, n);
  }

  /** In a walk over a forest every subtree is contiguous and starts with its root. */
  lemma {:induction false} WalkSpans<T(!new)>(g: Graph<T, T>, work: seq<T>, visited: set<T>, x: T) returns (i: nat, n: nat)
    requires Treelike(g) && Frontier(g, work, visited) && x in Walk(g, work, visited)
    ensures Spans(g, Walk(g, work, visited), x, i, n)
    decreases |AllKeys(g) - visited|, |work|
  {
    FrontierStep(g, work, visited);
    if x == work[0] {
      i := 0;
      n := FrontSpans(g, work, visited);
    } else {
      assert x in Walk(g, g.kids(work[0]) + work[1..], visited + {work[0]}) by { WalkStep(g, work, visited); }
      assert |AllKeys(g) - (visited + {work[0]})| < |AllKeys(g) - visited| by { WalkStep(g, work, visited); }
      i, n := WalkSpans(g, g.kids(work[0]) + work[1..], visited + {work[0]}, x);
      LaterSpans(g, work, visited, x, i, n);
      i := i + 1;
    }
  }
}
