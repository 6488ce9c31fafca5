/** Exactly which dependencies the constructor search orders, whatever order the dependency lists are in. */
module CtorExact {
  import opened Graph
  import opened CtorOrder

  ghost predicate Precedes<N>(queue: seq<N>, d: N, p: N) {
    exists i: nat, j: nat :: i < j < |queue| && queue[i] == d && queue[j] == p
  }

  /** A path without its end. */
  ghost function Earlier<N>(path: seq<N>): seq<N> {
    if path == [] then [] else path[..|path| - 1]
  }

  /** On every path to `p` there is a way from `p` to `d` around the earlier DSOs of the path. */
  ghost predicate AroundEveryPath<N(!new)>(g: map<N, seq<N>>, root: N, p: N, d: N) {
    forall path: seq<N> :: SimplePath(g, root, p, path) ==> Detours(g, p, d, Earlier(path))
  }

  /** However the lists are ordered, the search queues `d` before `p`. */
  ghost predicate AlwaysPrecedes<N(!new)>(g: map<N, seq<N>>, root: N, p: N, d: N) {
    forall h: map<N, seq<N>>, queue: seq<N> :: Reordered(g, h) && Yields(h, root, queue) ==> Precedes(queue, d, p)
  }

  // The search ends

  lemma {:induction false} Finishes<N>(g: map<N, seq<N>>, root: N, n: nat) returns (m: nat)
    requires Closed(g) && root in g
    ensures Run(g, Start(root), m).active == []
    decreases Unmarked(g, Run(g, Start(root), n)), |Run(g, Start(root), n).active|, Unseen(g, Run(g, Start(root), n))
  {
    RunInv(g, root, n);
    var s := Run(g, Start(root), n);
    if s.active == [] {
      m := n;
    } else {
      RunMore(g, Start(root), n);
      RunInv(g, root, n + 1);
      StepDecreases(g, root, s);
      m := Finishes(g, root, n + 1);
    }
  }

  ghost function Unmarked<N>(g: map<N, seq<N>>, s: Search<N>): int {
    |g.Keys| - |s.queue| - |s.active|
  }

  ghost function Unseen<N>(g: map<N, seq<N>>, s: Search<N>): int {
    if CanStep(g, s) then |g[s.active[0]]| - s.next[s.active[0]] else 0
  }

  lemma StepDecreases<N>(g: map<N, seq<N>>, root: N, s: Search<N>)
    requires Inv(g, root, s) && CanStep(g, s) && Inv(g, root, Step(g, s))
    ensures 0 <= Unmarked(g, Step(g, s)) <= Unmarked(g, s)
    ensures Unmarked(g, Step(g, s)) == Unmarked(g, s) ==>
              |Step(g, s).active| < |s.active|
                || (|Step(g, s).active| == |s.active| && 0 <= Unseen(g, Step(g, s)) < Unseen(g, s))
  {
    MarkedBound(g, root, Step(g, s), g.Keys);
  }

  // A way around every path is enough

  lemma StackGivesOrder<N(!new)>(g: map<N, seq<N>>, h: map<N, seq<N>>, root: N, queue: seq<N>, p: N, d: N)
    requires Closed(g) && root in g && Reaches(g, root, p) && d != p && Reordered(g, h)
    requires AroundEveryPath(g, root, p, d) && Yields(h, root, queue)
    ensures Precedes(queue, d, p)
  {
    var n: nat :| Run(h, Start(root), n).active == [] && Run(h, Start(root), n).queue == queue;
    ReorderedClosed(g, h);
    RunInv(h, root, n);
    var r: nat :| Walk(g, root, p, r);
    ReorderedWalk(g, h, root, p, r);
    AllQueued(h, root, Run(h, Start(root), n), p);
    var j :| 0 <= j < |queue| && queue[j] == p;
    var m := FinishMoment(h, root, n, j);
    var s := Run(h, Start(root), m);
    RunInv(h, root, m);
    FinishingFacts(h, root, s, queue, j);
    StackIsPath(h, root, s);
    PathReordered(h, g, root, p, Reversed(s.active));
    var path := Reversed(s.active);
    var avoid := Earlier(path);
    var k: nat :| Detour(g, p, d, avoid, k);
    ReorderedDetour(g, h, p, d, avoid, k);
    StackBelow(s.active);
    SameAvoided(h, p, d, avoid, s.active[1..], k);
    AroundStack(h, root, s, d);
    assert d in queue[..j];
    var i :| 0 <= i < j && queue[i] == d;
  }

  lemma ReorderedClosed<N>(g: map<N, seq<N>>, h: map<N, seq<N>>)
    requires Closed(g) && Reordered(g, h)
    ensures Closed(h)
  {
    forall x, y | x in h && y in h[x] ensures y in h { ReorderedEdges(g, h, x, y); }
  }

  lemma PathReordered<N>(g: map<N, seq<N>>, h: map<N, seq<N>>, a: N, b: N, path: seq<N>)
    requires SimplePath(g, a, b, path) && Reordered(h, g)
    ensures SimplePath(h, a, b, path)
  {
    forall k | 0 <= k < |path| - 1 ensures path[k] in h && path[k + 1] in h[path[k]] {
      ReorderedEdges(h, g, path[k], path[k + 1]);
    }
  }

  lemma StackBelow<N>(active: seq<N>)
    requires active != []
    ensures forall x :: x in active[1..] ==> x in Reversed(active)[..|active| - 1]
  {
    forall x | x in active[1..] ensures x in Reversed(active)[..|active| - 1] {
      var k :| 0 <= k < |active[1..]| && active[1..][k] == x;
      assert Reversed(active)[..|active| - 1][|active| - 2 - k] == x;
    }
  }

  // And it is needed: let the lists put the path first

  ghost function MoveFirst<N>(list: seq<N>, c: N): (r: seq<N>)
    requires c in list
    ensures multiset(r) == multiset(list) && r[0] == c
  {
    var k :| 0 <= k < |list| && list[k] == c;
    assert list == list[..k] + [c] + list[k + 1..];
    [c] + list[..k] + list[k + 1..]
  }

  ghost predicate Follows<N>(path: seq<N>, x: N, k: nat) {
    k < |path| - 1 && path[k] == x
  }

  ghost function Aim<N>(list: seq<N>, path: seq<N>, x: N): (r: seq<N>)
    ensures multiset(r) == multiset(list)
  {
    if exists k: nat :: Follows(path, x, k) && path[k + 1] in list
    then
      var k: nat :| Follows(path, x, k) && path[k + 1] in list;
      MoveFirst(list, path[k + 1])
    else list
  }

  /** Each DSO of the path lists its successor first. */
  ghost function Straight<N>(g: map<N, seq<N>>, path: seq<N>): map<N, seq<N>> {
    map x | x in g :: Aim(g[x], path, x)
  }

  lemma StraightFirst<N>(g: map<N, seq<N>>, a: N, b: N, path: seq<N>, k: nat)
    requires SimplePath(g, a, b, path) && k < |path| - 1
    ensures path[k] in g && Straight(g, path)[path[k]] != [] && Straight(g, path)[path[k]][0] == path[k + 1]
  {
    var x := path[k];
    assert Follows(path, x, k) && path[k + 1] in g[x];
    forall j: nat | Follows(path, x, j) ensures j == k {}
    assert |Straight(g, path)[x]| == |multiset(g[x])|;
  }

  ghost function Zeros<N>(nodes: seq<N>): map<N, nat> {
    map x | x in nodes :: 0
  }

  lemma StraightStep<N>(h: map<N, seq<N>>, seen: seq<N>, x: N)
    requires seen != [] && x !in seen
    requires seen[|seen| - 1] in h && h[seen[|seen| - 1]] != [] && h[seen[|seen| - 1]][0] == x
    ensures var s := Search([], Reversed(seen), Zeros(seen));
            CanStep(h, s) && Step(h, s) == Search([], Reversed(seen + [x]), Zeros(seen + [x]))
  {
    ReversedMembers(seen);
    assert Reversed(seen)[0] == seen[|seen| - 1] && seen[|seen| - 1] in seen;
    assert Reversed(seen + [x]) == [x] + Reversed(seen);
    assert Zeros(seen + [x]) == Zeros(seen)[x := 0];
  }

  /** The search first goes straight down the path. */
  lemma {:induction false} StraightRun<N>(g: map<N, seq<N>>, root: N, p: N, path: seq<N>, k: nat)
    requires SimplePath(g, root, p, path) && k < |path| && p in g
    ensures Run(Straight(g, path), Start(root), k) == Search([], Reversed(path[..k + 1]), Zeros(path[..k + 1]))
  {
    hide *;
    var h := Straight(g, path);
    if k == 0 {
      StraightStart(g, root, p, path);
    } else {
      StraightRun(g, root, p, path, k - 1);
      StraightNext(g, root, p, path, k);
      StraightStep(h, path[..k], path[k]);
      RunMore(h, Start(root), k - 1);
    }
  }

  lemma StraightStart<N>(g: map<N, seq<N>>, root: N, p: N, path: seq<N>)
    requires SimplePath(g, root, p, path)
    ensures Run(Straight(g, path), Start(root), 0) == Search([], Reversed(path[..1]), Zeros(path[..1]))
  {
    hide Straight;
    assert path[..1] == [root];
    assert Reversed([root]) == [root];
    assert Zeros([root]) == map[root := 0];
  }

  lemma StraightNext<N>(g: map<N, seq<N>>, root: N, p: N, path: seq<N>, k: nat)
    requires SimplePath(g, root, p, path) && 0 < k < |path|
    ensures path[..k] != [] && path[k] !in path[..k] && path[..k + 1] == path[..k] + [path[k]]
    ensures path[..k][|path[..k]| - 1] == path[k - 1]
    ensures var h := Straight(g, path); path[k - 1] in h && h[path[k - 1]] != [] && h[path[k - 1]][0] == path[k]
  {
    hide Aim;
    StraightFirst(g, root, p, path, k - 1);
  }

  lemma StraightReordered<N>(g: map<N, seq<N>>, path: seq<N>)
    ensures Reordered(g, Straight(g, path))
  {}

  /** The path is on the stack, and all else that was met is what the last DSO of the path reaches around it. */
  ghost predicate Above<N>(g: map<N, seq<N>>, p: N, path: seq<N>, s: Search<N>) {
    && path != [] && |s.active| >= |path|
    && s.active[|s.active| - |path|..] == Reversed(path)
    && (forall x :: x in s.queue ==> Detours(g, p, x, Earlier(path)))
    && (forall x :: x in s.active[..|s.active| - |path| + 1] ==> Detours(g, p, x, Earlier(path)))
  }

  lemma AboveTop<N>(g: map<N, seq<N>>, p: N, path: seq<N>, s: Search<N>)
    requires Above(g, p, path, s)
    ensures s.active != [] && Detours(g, p, s.active[0], Earlier(path))
    ensures forall x :: x in Earlier(path) ==> x in s.active
  {
    assert s.active[..|s.active| - |path| + 1][0] == s.active[0];
    ReversedMembers(path);
    forall x | x in Earlier(path) ensures x in s.active {
      assert x in path;
      assert x in s.active[|s.active| - |path|..];
    }
  }

  lemma AbovePush<N>(g: map<N, seq<N>>, p: N, path: seq<N>, s: Search<N>, d: N, next: map<N, nat>)
    requires Above(g, p, path, s) && Detours(g, p, d, Earlier(path))
    ensures Above(g, p, path, Search(s.queue, [d] + s.active, next))
  {
    var t := Search(s.queue, [d] + s.active, next);
    assert t.active[|t.active| - |path|..] == s.active[|s.active| - |path|..];
    assert t.active[..|t.active| - |path| + 1] == [d] + s.active[..|s.active| - |path| + 1];
  }

  lemma AboveFinish<N>(g: map<N, seq<N>>, p: N, path: seq<N>, s: Search<N>)
    requires Above(g, p, path, s) && path[|path| - 1] == p
    ensures var t := Search(s.queue + [s.active[0]], s.active[1..], s.next);
            Above(g, p, path, t) || p in t.queue
  {
    AboveTop(g, p, path, s);
    var t := Search(s.queue + [s.active[0]], s.active[1..], s.next);
    if |s.active| == |path| {
      assert s.active[0] == s.active[|s.active| - |path|..][0] == Reversed(path)[0];
      assert p in t.queue;
    } else {
      assert t.active[|t.active| - |path|..] == s.active[|s.active| - |path|..];
      assert t.active[..|t.active| - |path| + 1] == s.active[..|s.active| - |path| + 1][1..];
    }
  }

  lemma AboveStep<N>(g: map<N, seq<N>>, h: map<N, seq<N>>, root: N, p: N, path: seq<N>, s: Search<N>)
    requires Inv(h, root, s) && CanStep(h, s) && Reordered(g, h) && SimplePath(g, root, p, path)
    requires Above(g, p, path, s) || p in s.queue
    ensures Above(g, p, path, Step(h, s)) || p in Step(h, s).queue
  {
    hide Inv, Detours;
    var top := s.active[0];
    if p !in s.queue {
      if s.next[top] >= |h[top]| {
        AboveFinish(g, p, path, s);
      } else {
        var d := h[top][s.next[top]];
        if !s.Marked(d) {
          AboveTop(g, p, path, s);
          ReorderedEdges(g, h, top, d);
          DetoursStep(g, p, top, d, Earlier(path));
          AbovePush(g, p, path, s, d, s.next[d := 0]);
        }
      }
    }
  }

  lemma {:induction false} AboveRun<N>(g: map<N, seq<N>>, root: N, p: N, path: seq<N>, n: nat)
    requires Closed(g) && root in g && SimplePath(g, root, p, path) && p in g && n >= |path| - 1
    ensures var s := Run(Straight(g, path), Start(root), n);
            Above(g, p, path, s) || p in s.queue
    decreases n
  {
    hide *;
    var h := Straight(g, path);
    PathStarts(g, root, p, path);
    if n == |path| - 1 {
      StraightRun(g, root, p, path, n);
      AboveStart(g, root, p, path);
    } else {
      AboveRun(g, root, p, path, n - 1);
      var s := Run(h, Start(root), n - 1);
      StraightReordered(g, path);
      ReorderedClosed(g, h);
      RootKept(g, h, root);
      RunInv(h, root, n - 1);
      if CanStep(h, s) {
        RunMore(h, Start(root), n - 1);
        AboveStep(g, h, root, p, path, s);
      } else {
        RunStops(h, Start(root), n - 1);
      }
    }
  }

  lemma PathStarts<N>(g: map<N, seq<N>>, a: N, b: N, path: seq<N>)
    requires SimplePath(g, a, b, path)
    ensures |path| > 0 && path[..|path| - 1 + 1] == path[..|path|]
  {}

  lemma RootKept<N>(g: map<N, seq<N>>, h: map<N, seq<N>>, root: N)
    requires Reordered(g, h) && root in g
    ensures root in h
  {}

  lemma AboveStart<N>(g: map<N, seq<N>>, root: N, p: N, path: seq<N>)
    requires SimplePath(g, root, p, path)
    ensures Above(g, p, path, Search([], Reversed(path[..|path|]), Zeros(path[..|path|])))
  {
    assert path[..|path|] == path;
    assert Detour(g, p, p, Earlier(path), 0);
    assert Reversed(path)[..1] == [p];
    assert Reversed(path)[0..] == Reversed(path);
  }

  /** A path without a way around it gives an order of the lists in which `d` does not come first. */
  lemma PathBreaksOrder<N(!new)>(g: map<N, seq<N>>, root: N, p: N, d: N, path: seq<N>) returns (queue: seq<N>)
    requires Closed(g) && root in g && p in g && SimplePath(g, root, p, path) && !Detours(g, p, d, Earlier(path))
    ensures Reordered(g, Straight(g, path)) && Yields(Straight(g, path), root, queue) && !Precedes(queue, d, p)
  {
    hide *;
    var h := Straight(g, path);
    StraightReordered(g, path);
    ReorderedClosed(g, h);
    RootKept(g, h, root);
    var n := Finishes(h, root, 0);
    queue := Run(h, Start(root), n).queue;
    Ends(h, root, n);
    assert !Precedes(queue, d, p) by {
      if Precedes(queue, d, p) { Breaks(g, root, p, d, path, n); }
    }
  }

  lemma Ends<N>(h: map<N, seq<N>>, root: N, n: nat)
    requires Run(h, Start(root), n).active == []
    ensures Yields(h, root, Run(h, Start(root), n).queue)
  {}

  lemma Breaks<N>(g: map<N, seq<N>>, root: N, p: N, d: N, path: seq<N>, n: nat)
    requires Closed(g) && root in g && p in g && SimplePath(g, root, p, path)
    requires Precedes(Run(Straight(g, path), Start(root), n).queue, d, p)
    ensures Detours(g, p, d, Earlier(path))
  {
    hide Run, Detours, Straight, Finishing;
    var queue := Run(Straight(g, path), Start(root), n).queue;
    var i: nat, j: nat :| i < j < |queue| && queue[i] == d && queue[j] == p;
    var m := FinishMoment(Straight(g, path), root, n, j);
    assert queue[..j][i] == d;
    NothingElse(g, root, p, path, m, d, queue[..j]);
  }

  lemma NothingElse<N>(g: map<N, seq<N>>, root: N, p: N, path: seq<N>, m: nat, d: N, before: seq<N>)
    requires Closed(g) && root in g && p in g && SimplePath(g, root, p, path)
    requires Finishing(Straight(g, path), Run(Straight(g, path), Start(root), m), before, p) && d in before
    ensures Detours(g, p, d, Earlier(path))
  {
    hide Detours, Straight, Run;
    var h := Straight(g, path);
    var s := Run(h, Start(root), m);
    assert m >= |path| - 1 by {
      if m < |path| - 1 { StraightRun(g, root, p, path, m); }
    }
    AboveRun(g, root, p, path, m);
    StraightReordered(g, path);
    ReorderedClosed(g, h);
    RunInv(h, root, m);
    NotQueued(s.queue, s.active);
  }

  lemma NotQueued<N>(queue: seq<N>, active: seq<N>)
    requires Distinct(queue + active) && active != []
    ensures active[0] !in queue
  {
    assert (queue + active)[|queue|] == active[0];
    assert forall k :: 0 <= k < |queue| ==> (queue + active)[k] == queue[k];
  }

  /** `d` precedes `p` however the lists are ordered exactly when every path to `p` leaves a way around it to `d`. */
  lemma OrderIff<N(!new)>(g: map<N, seq<N>>, root: N, p: N, d: N)
    requires Closed(g) && root in g && p in g && Reaches(g, root, p) && d != p
    ensures AlwaysPrecedes(g, root, p, d) <==> AroundEveryPath(g, root, p, d)
  {
    hide Yields, Reordered, Detours, Precedes, SimplePath, Closed;
    if AroundEveryPath(g, root, p, d) {
      forall h: map<N, seq<N>>, queue: seq<N> | Reordered(g, h) && Yields(h, root, queue)
        ensures Precedes(queue, d, p) {
        StackGivesOrder(g, h, root, queue, p, d);
      }
    } else {
      var path: seq<N> :| SimplePath(g, root, p, path) && !Detours(g, p, d, Earlier(path));
      var queue := PathBreaksOrder(g, root, p, d, path);
    }
  }
}
