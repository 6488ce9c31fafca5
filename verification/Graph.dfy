/** Directed graphs given by adjacency lists, and reachability by counted walks.
    A node may be a heap reference, so no definition quantifies over all nodes. */
module Graph {

  ghost predicate Closed<N>(g: map<N, seq<N>>) {
    forall x, y :: x in g && y in g[x] ==> y in g
  }

  ghost predicate Walk<N>(g: map<N, seq<N>>, a: N, b: N, steps: nat)
    decreases steps
  {
    if steps == 0 then a == b
    else a in g && exists c :: c in g[a] && Walk(g, c, b, steps - 1)
  }

  ghost predicate Reaches<N>(g: map<N, seq<N>>, a: N, b: N) {
    exists steps: nat :: Walk(g, a, b, steps)
  }

  /** At least one edge is taken: the relation "b is an (indirect) dependency of a". */
  ghost predicate DependsOn<N>(g: map<N, seq<N>>, a: N, b: N) {
    a in g && exists c :: c in g[a] && Reaches(g, c, b)
  }

  ghost predicate Distinct<N>(s: seq<N>) {
    forall i, j :: 0 <= i < j < |s| ==> s[i] != s[j]
  }

  lemma ReachesSelf<N>(g: map<N, seq<N>>, a: N)
    ensures Reaches(g, a, a)
  {
    assert Walk(g, a, a, 0);
  }

  lemma {:induction false} WalkTrans<N>(g: map<N, seq<N>>, a: N, b: N, c: N, m: nat, n: nat)
    requires Walk(g, a, b, m) && Walk(g, b, c, n)
    ensures Walk(g, a, c, m + n)
    decreases m
  {
    if m > 0 {
      var d :| d in g[a] && Walk(g, d, b, m - 1);
      WalkTrans(g, d, b, c, m - 1, n);
    }
  }

  lemma ReachesTrans<N>(g: map<N, seq<N>>, a: N, b: N, c: N)
    requires Reaches(g, a, b) && Reaches(g, b, c)
    ensures Reaches(g, a, c)
  {
    var m: nat :| Walk(g, a, b, m);
    var n: nat :| Walk(g, b, c, n);
    WalkTrans(g, a, b, c, m, n);
  }

  lemma ReachesEdge<N>(g: map<N, seq<N>>, a: N, b: N)
    requires a in g && b in g[a]
    ensures Reaches(g, a, b)
  {
    assert Walk(g, b, b, 0);
    assert Walk(g, a, b, 1);
  }

  lemma ReachesStep<N>(g: map<N, seq<N>>, a: N, b: N, c: N)
    requires Reaches(g, a, b) && b in g && c in g[b]
    ensures Reaches(g, a, c)
  {
    ReachesEdge(g, b, c);
    ReachesTrans(g, a, b, c);
  }

  /** A set that is closed under edges and holds the start holds everything reachable. */
  lemma {:induction false} WalkStaysInside<N>(g: map<N, seq<N>>, s: set<N>, a: N, b: N, steps: nat)
    requires a in s && Walk(g, a, b, steps)
    requires forall x, y :: x in s && x in g && y in g[x] ==> y in s
    ensures b in s
    decreases steps
  {
    if steps > 0 {
      var c :| c in g[a] && Walk(g, c, b, steps - 1);
      WalkStaysInside(g, s, c, b, steps - 1);
    }
  }

  lemma ReachesStaysInside<N>(g: map<N, seq<N>>, s: set<N>, a: N, b: N)
    requires a in s && Reaches(g, a, b)
    requires forall x, y :: x in s && x in g && y in g[x] ==> y in s
    ensures b in s
  {
    var k: nat :| Walk(g, a, b, k);
    WalkStaysInside(g, s, a, b, k);
  }

  lemma {:induction false} DistinctSize<N>(s: seq<N>, v: set<N>)
    requires Distinct(s)
    requires forall x :: x in s ==> x in v
    ensures |s| <= |v|
  {
    if s != [] {
      assert s == [s[0]] + s[1..];
      forall x | x in s[1..] ensures x in v - {s[0]} { assert x in s; }
      DistinctSize(s[1..], v - {s[0]});
      assert |v - {s[0]}| == |v| - 1 by { assert s[0] in v; }
    }
  }

  /** A sequence has no more different elements than slots. */
  lemma {:induction false} ElementsSize<N>(s: seq<N>, v: set<N>)
    requires forall x :: x in v ==> x in s
    ensures |v| <= |s|
  {
    if s != [] {
      ElementsSize(s[1..], v - {s[0]});
      assert |v - {s[0]}| >= |v| - 1;
    }
  }

  /** A walk that meets none of the nodes in `avoid`. */
  ghost predicate Detour<N>(g: map<N, seq<N>>, a: N, b: N, avoid: seq<N>, steps: nat)
    decreases steps
  {
    && a !in avoid
    && if steps == 0 then a == b
       else a in g && exists c :: c in g[a] && Detour(g, c, b, avoid, steps - 1)
  }

  ghost predicate Detours<N>(g: map<N, seq<N>>, a: N, b: N, avoid: seq<N>) {
    exists steps: nat :: Detour(g, a, b, avoid, steps)
  }

  /** `path` goes along edges from `a` to `b` and meets no node twice. */
  ghost predicate SimplePath<N>(g: map<N, seq<N>>, a: N, b: N, path: seq<N>) {
    && path != [] && path[0] == a && path[|path| - 1] == b && Distinct(path)
    && forall k :: 0 <= k < |path| - 1 ==> path[k] in g && path[k + 1] in g[path[k]]
  }

  /** A set that holds the start and whose edges lead back into it or to `avoid` holds the end of every detour. */
  lemma {:induction false} DetourStaysInside<N>(g: map<N, seq<N>>, s: set<N>, a: N, b: N, avoid: seq<N>, steps: nat)
    requires a in s && Detour(g, a, b, avoid, steps)
    requires forall x, y :: x in s && x in g && y in g[x] ==> y in s || y in avoid
    ensures b in s
    decreases steps
  {
    if steps > 0 {
      var c :| c in g[a] && Detour(g, c, b, avoid, steps - 1);
      assert c !in avoid;
      DetourStaysInside(g, s, c, b, avoid, steps - 1);
    }
  }

  lemma {:induction false} DetourStep<N>(g: map<N, seq<N>>, a: N, b: N, c: N, avoid: seq<N>, steps: nat)
    requires Detour(g, a, b, avoid, steps) && b in g && c in g[b] && c !in avoid
    ensures Detour(g, a, c, avoid, steps + 1)
    decreases steps
  {
    if steps == 0 {
      assert Detour(g, c, c, avoid, 0);
    } else {
      var e :| e in g[a] && Detour(g, e, b, avoid, steps - 1);
      DetourStep(g, e, b, c, avoid, steps - 1);
    }
  }

  lemma DetoursStep<N>(g: map<N, seq<N>>, a: N, b: N, c: N, avoid: seq<N>)
    requires Detours(g, a, b, avoid) && b in g && c in g[b] && c !in avoid
    ensures Detours(g, a, c, avoid)
  {
    var k: nat :| Detour(g, a, b, avoid, k);
    DetourStep(g, a, b, c, avoid, k);
  }

  /** A walk from a node that reaches nothing in `avoid` is a detour. */
  lemma {:induction false} WalkIsDetour<N>(g: map<N, seq<N>>, a: N, b: N, avoid: seq<N>, steps: nat)
    requires Walk(g, a, b, steps) && forall x :: x in avoid ==> !Reaches(g, a, x)
    ensures Detour(g, a, b, avoid, steps)
    decreases steps
  {
    ReachesSelf(g, a);
    if steps > 0 {
      var c :| c in g[a] && Walk(g, c, b, steps - 1);
      forall x | x in avoid ensures !Reaches(g, c, x) {
        if Reaches(g, c, x) {
          ReachesEdge(g, a, c);
          ReachesTrans(g, a, c, x);
        }
      }
      WalkIsDetour(g, c, b, avoid, steps - 1);
    }
  }

  lemma {:induction false} PathReaches<N>(g: map<N, seq<N>>, a: N, b: N, path: seq<N>, k: nat)
    requires SimplePath(g, a, b, path) && k < |path|
    ensures Reaches(g, path[k], b)
    decreases |path| - k
  {
    if k == |path| - 1 {
      ReachesSelf(g, b);
    } else {
      PathReaches(g, a, b, path, k + 1);
      ReachesEdge(g, path[k], path[k + 1]);
      ReachesTrans(g, path[k], path[k + 1], b);
    }
  }

  /** The same edges, listed in some order. */
  ghost predicate Reordered<N>(g: map<N, seq<N>>, h: map<N, seq<N>>) {
    h.Keys == g.Keys && forall x :: x in g ==> multiset(h[x]) == multiset(g[x])
  }

  lemma ReorderedEdges<N>(g: map<N, seq<N>>, h: map<N, seq<N>>, x: N, y: N)
    requires Reordered(g, h) && x in g
    ensures y in g[x] <==> y in h[x]
  {
    assert y in g[x] <==> y in multiset(g[x]);
    assert y in h[x] <==> y in multiset(h[x]);
  }

  lemma {:induction false} ReorderedDetour<N>(g: map<N, seq<N>>, h: map<N, seq<N>>, a: N, b: N, avoid: seq<N>,
    steps: nat)
    requires Reordered(g, h) && Detour(g, a, b, avoid, steps)
    ensures Detour(h, a, b, avoid, steps)
    decreases steps
  {
    if steps > 0 {
      var c :| c in g[a] && Detour(g, c, b, avoid, steps - 1);
      ReorderedEdges(g, h, a, c);
      ReorderedDetour(g, h, c, b, avoid, steps - 1);
    }
  }

  lemma {:induction false} ReorderedWalk<N>(g: map<N, seq<N>>, h: map<N, seq<N>>, a: N, b: N, steps: nat)
    requires Reordered(g, h) && Walk(g, a, b, steps)
    ensures Walk(h, a, b, steps)
    decreases steps
  {
    if steps > 0 {
      var c :| c in g[a] && Walk(g, c, b, steps - 1);
      ReorderedEdges(g, h, a, c);
      ReorderedWalk(g, h, c, b, steps - 1);
    }
  }
}
