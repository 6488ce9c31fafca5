/** queue_ctors of the dynamic linker: the output queue and the working stack grow from
    opposite ends of one buffer, and the marks and `nextDep` counters live in the objects. */
module CtorQueue {
  import opened Graph
  import opened Dsos
  import opened CtorOrder
  import opened BfsDeps

  /** The dependency list of `dso` is closed: it names everything `dso` depends on. */
  ghost predicate DepsComplete(dso: Dso, all: set<Dso>, g: DepGraph, n: nat)
    reads dso`deps
  {
    && Terminated(dso.deps, n)
    && (forall j :: 0 <= j < n ==> dso.deps[j] in g)
    && (forall x :: x in all && DependsOn(g, dso, x) ==> x in dso.deps[..n])
  }

  /** What extend_bfs_deps leaves behind is what queue_ctors relies on when `bfsBuilt` is set. */
  lemma ClosureIsDepsComplete(dso: Dso, all: set<Dso>, g: DepGraph, n: nat)
    requires dso in g && Terminated(dso.deps, n) && IsClosure(dso, dso.deps[..n], all, g)
    ensures DepsComplete(dso, all, g, n)
  {
    forall j | 0 <= j < n ensures dso.deps[j] in g { assert dso.deps[j] in dso.deps[..n]; }
  }

  /** Objects the search may visit: `reach` holds everything reachable from `dso`. */
  ghost predicate Bounds(dso: Dso, all: set<Dso>, reach: set<Dso>, g: DepGraph) {
    && Complete(all, g)
    && dso in reach && reach <= all
    && (forall x :: x in all && Reaches(g, dso, x) ==> x in reach)
  }

  /** The in-place state: buffer ends, marks and counters agree with the search `s`. */
  ghost predicate Agrees(buf: array<Dso?>, qpos: nat, spos: nat, cnt: nat, reach: set<Dso>, s: Search<Dso?>,
    stack: seq<Dso?>)
    reads buf, reach
  {
    && qpos <= spos <= cnt <= buf.Length
    && buf[..qpos] == s.queue
    && buf[spos..cnt] == stack
    && (forall d :: d in reach ==> (d.mark <==> s.Marked(d)))
    && (forall d :: d in reach && d in s.active ==> d in s.next && d.nextDep == s.next[d])
  }

  lemma VisitedInReach(g: DepGraph, dso: Dso, s: Search<Dso?>, all: set<Dso>, reach: set<Dso>)
    requires Inv(g, dso, s) && Bounds(dso, all, reach, g)
    ensures forall i :: 0 <= i < |s.active| ==> s.active[i] in g && s.active[i] in reach && s.active[i] in s.next
    ensures s.active != [] ==> s.next[s.active[0]] <= |g[s.active[0]]|
    ensures |s.queue| + |s.active| <= |reach|
  {
    forall x | x in s.queue + s.active ensures x in g && x in reach {}
    assert forall i :: 0 <= i < |s.active| ==> s.active[i] in s.queue + s.active;
    var m: set<Dso?> := set d | d in reach;
    MarkedBound(g, dso, s, m);
    SameSize(reach, m);
  }

  /** The dependency looked at next is an object that the search may visit. */
  lemma NextInReach(g: DepGraph, dso: Dso, s: Search<Dso?>, all: set<Dso>, reach: set<Dso>)
    requires Inv(g, dso, s) && Bounds(dso, all, reach, g)
    requires s.active != [] && s.next[s.active[0]] < |g[s.active[0]]|
    ensures var d := g[s.active[0]][s.next[s.active[0]]];
            d in g && d in reach
  {
    var p := s.active[0];
    assert p in s.queue + s.active;
    ReachesStep(g, dso, p, g[p][s.next[p]]);
  }

  lemma {:induction false} SameSize(a: set<Dso>, b: set<Dso?>)
    requires b == set d | d in a
    ensures |a| == |b|
  {
    if a != {} {
      var x :| x in a;
      SameSize(a - {x}, b - {x});
    }
  }

  /** Stack the visited object and start on its unmarked dependency `d`. */
  method Push(p: Dso, d: Dso, buf: array<Dso?>, qpos: nat, top: nat, cnt: nat,
              ghost all: set<Dso>, ghost reach: set<Dso>, ghost g: DepGraph, ghost s: Search<Dso?>)
    returns (spos: nat)
    requires qpos < top && d in reach && d !in s.active && d !in s.queue
    requires s.active != [] && s.active[0] == p
    requires Agrees(buf, qpos, top, cnt, reach, s, s.active[1..])
    modifies d`mark, d`nextDep, buf
    ensures Agrees(buf, qpos, spos, cnt, reach, Search(s.queue, [d] + s.active, s.next[d := 0]), s.active)
  {
    spos := top - 1;
    buf[spos] := p;
    d.nextDep := 0;
    d.mark := true;
    assert buf[spos..cnt] == [p] + buf[top..cnt];
  }

  /** The inner loop: follow unmarked dependencies until an object has none left. */
  method Descend(start: Dso, top: nat, dso: Dso, buf: array<Dso?>, qpos: nat, cnt: nat,
                 ghost all: set<Dso>, ghost reach: set<Dso>, ghost g: DepGraph, ghost s0: Search<Dso?>)
    returns (p: Dso, spos: nat, ghost s: Search<Dso?>)
    requires Bounds(dso, all, reach, g) && |reach| < cnt
    requires HasEdges(reach, g)
    requires Inv(g, dso, s0) && s0.active != [] && s0.active[0] == start
    requires Agrees(buf, qpos, top, cnt, reach, s0, s0.active[1..])
    modifies reach`mark, reach`nextDep, buf
    ensures Inv(g, dso, s) && s.active != [] && s.active[0] == p && p in reach && p.nextDep >= p.ndepsDirect
    ensures Agrees(buf, qpos, spos, cnt, reach, s, s.active[1..])
    ensures s.queue == s0.queue && |s0.active| <= |s.active|
  {
    hide Inv, Bounds;
    p, spos, s := start, top, s0;
    VisitedInReach(g, dso, s, all, reach);
    while p.nextDep < p.ndepsDirect
      invariant Inv(g, dso, s) && s.active != [] && s.active[0] == p && p in reach
      invariant Agrees(buf, qpos, spos, cnt, reach, s, s.active[1..])
      invariant s.queue == s0.queue && |s0.active| <= |s.active| && |s.queue| + |s.active| <= |reach|
      decreases |reach| - |s.queue| - |s.active|, p.ndepsDirect - p.nextDep
    {
      VisitedInReach(g, dso, s, all, reach);
      assert g[p] == p.deps[..p.ndepsDirect];
      NextInReach(g, dso, s, all, reach);
      StepInv(g, dso, s);
      ghost var t := Step(g, s);
      VisitedInReach(g, dso, t, all, reach);
      var d := p.deps[p.nextDep];
      if d.mark {
        p.nextDep := p.nextDep + 1;
      } else {
        spos := Push(p, d, buf, qpos, spos, cnt, all, reach, g, s);
        p := d;
        assert s.active == t.active[1..];
      }
      s := t;
    }
  }

  /** Move the finished object from the stack to the output queue. */
  method Finish(p: Dso, buf: array<Dso?>, qpos: nat, spos: nat, cnt: nat, ghost reach: set<Dso>, ghost g: DepGraph,
    ghost s: Search<Dso?>)
    requires qpos < spos && CanStep(g, s) && s.active[0] == p && s.next[p] >= |g[p]|
    requires Agrees(buf, qpos, spos, cnt, reach, s, s.active[1..])
    modifies buf
    ensures Agrees(buf, qpos + 1, spos, cnt, reach, Step(g, s), s.active[1..])
  {
    buf[qpos] := p;
    assert buf[..qpos + 1] == buf[..qpos] + [p];
    assert forall x: Dso :: x in s.active <==> x == p || x in s.active[1..];
  }

  /** One turn of the outer loop: take the top of the stack and queue the first object that finishes. */
  method Visit(top: nat, dso: Dso, buf: array<Dso?>, qpos: nat, cnt: nat,
               ghost all: set<Dso>, ghost reach: set<Dso>, ghost g: DepGraph, ghost s0: Search<Dso?>)
    returns (spos: nat, ghost s: Search<Dso?>)
    requires Bounds(dso, all, reach, g) && |reach| < cnt
    requires HasEdges(reach, g) && Inv(g, dso, s0)
    requires Agrees(buf, qpos, top, cnt, reach, s0, s0.active) && top < cnt
    modifies reach`mark, reach`nextDep, buf
    ensures Inv(g, dso, s)
    ensures Agrees(buf, qpos + 1, spos, cnt, reach, s, s.active)
    ensures |s0.queue| + |s0.active| <= |s.queue| + |s.active| <= |reach| && |s.queue| == |s0.queue| + 1
  {
    hide Inv, Bounds;
    VisitedInReach(g, dso, s0, all, reach);
    var p := buf[top];
    assert p == s0.active[0] && buf[top + 1..cnt] == s0.active[1..];
    p, spos, s := Descend(p, top + 1, dso, buf, qpos, cnt, all, reach, g, s0);
    VisitedInReach(g, dso, s, all, reach);
    assert g[p] == p.deps[..p.ndepsDirect];
    StepInv(g, dso, s);
    Finish(p, buf, qpos, spos, cnt, reach, g, s);
    s := Step(g, s);
    VisitedInReach(g, dso, s, all, reach);
  }

  /** The initial stack holds just the argument. */
  method Begin(dso: Dso, buf: array<Dso?>, cnt: nat, ghost reach: set<Dso>) returns (spos: nat)
    requires dso in reach && 0 < cnt <= buf.Length
    requires forall d :: d in reach && d != dso ==> !d.mark
    modifies dso`mark, dso`nextDep, buf
    ensures spos < cnt && Agrees(buf, 0, spos, cnt, reach, Start(dso), [dso])
  {
    spos := cnt - 1;
    buf[spos] := dso;
    dso.nextDep := 0;
    dso.mark := true;
  }

  /** The search. `reach` bounds what can be visited, so one buffer of `cnt` slots is enough. */
  method SearchInPlace(dso: Dso, buf: array<Dso?>, cnt: nat, ghost all: set<Dso>, ghost reach: set<Dso>,
    ghost g: DepGraph)
    returns (qpos: nat)
    requires Bounds(dso, all, reach, g) && |reach| < cnt <= buf.Length
    requires HasEdges(reach, g)
    requires forall d :: d in reach && d != dso ==> !d.mark
    modifies reach`mark, reach`nextDep, buf
    ensures qpos < cnt && buf[qpos] == null
    ensures IsCtorQueue(g, dso, buf[..qpos]) && Yields(g, dso, buf[..qpos])
    ensures forall d :: d in reach ==> (d.mark <==> d in buf[..qpos])
  {
    hide Inv, IsCtorQueue, Yields;
    var spos: nat := Begin(dso, buf, cnt, reach);
    qpos := 0;
    ghost var s := Start<Dso?>(dso);
    StartInv(g, dso);
    VisitedInReach(g, dso, s, all, reach);
    hide Bounds, HasEdges;
    while spos < cnt
      invariant HasEdges(reach, g) && Inv(g, dso, s)
      invariant Agrees(buf, qpos, spos, cnt, reach, s, s.active)
      invariant |s.queue| + |s.active| <= |reach|
      decreases |reach| - |s.queue| - |s.active|, |reach| - |s.queue|
    {
      spos, s := Visit(spos, dso, buf, qpos, cnt, all, reach, g, s);
      qpos := qpos + 1;
    }
    DoneIsCtorQueue(g, dso, s);
    buf[qpos] := null;
    assert buf[..qpos] == s.queue;
  }

  /** Clear the marks of a dependency list, counting it. */
  method ClearDeps(deps: seq<Dso?>, ghost n: nat, ghost all: set<Dso>) returns (cnt: nat)
    requires Terminated(deps, n)
    requires forall j :: 0 <= j < n ==> deps[j] in all
    modifies all`mark
    ensures cnt == n
    ensures forall d :: d in all ==> d.mark == (old(d.mark) && d !in deps[..n])
  {
    cnt := 0;
    while deps[cnt] != null
      invariant cnt <= n
      invariant forall d :: d in all ==> d.mark == (old(d.mark) && d !in deps[..cnt])
      decreases n - cnt
    {
      var d := deps[cnt];
      assert deps[..cnt + 1] == deps[..cnt] + [d];
      d.mark := false;
      cnt := cnt + 1;
    }
  }

  /** Everything reachable from `dso` is `dso` itself or one of its dependencies. */
  lemma ReachIsDeps(g: DepGraph, dso: Dso, all: set<Dso>, n: nat)
    requires Complete(all, g) && dso in all && dso in g && DepsComplete(dso, all, g, n)
    ensures var reach := {dso} + set d: Dso | d in all && d in dso.deps[..n];
            Bounds(dso, all, reach, g) && |reach| <= n + 1
  {
    var reach := {dso} + set d: Dso | d in all && d in dso.deps[..n];
    forall x | x in all && Reaches(g, dso, x) ensures x in reach {
      var k: nat :| Walk(g, dso, x, k);
      if k > 0 {
        var c :| c in g[dso] && Walk(g, c, x, k - 1);
        assert DependsOn(g, dso, x) by { assert Reaches(g, c, x); }
      }
    }
    var named := [dso as Dso?] + dso.deps[..n];
    var m: set<Dso?> := set d | d in reach;
    ElementsSize(named, m);
    SameSize(reach, m);
  }

  /** Clear the marks of all that may be visited and bound their number. */
  method Prepare(dso: Dso, head: Dso, ghost list: seq<Dso>, ghost g: DepGraph, ghost ndeps: nat)
    returns (cnt: nat, ghost reach: set<Dso>)
    requires IsList(list) && list[0] == head && dso in list
    requires Complete(Members(list), g) && dso in g
    requires dso.bfsBuilt ==> DepsComplete(dso, Members(list), g, ndeps)
    modifies Members(list)`mark
    ensures Bounds(dso, Members(list), reach, g) && |reach| < cnt
    ensures forall d :: d in reach && d != dso ==> !d.mark
    ensures forall d :: d in list && d.mark ==> old(d.mark) && dso.bfsBuilt
  {
    ghost var all := Members(list);
    if dso.bfsBuilt {
      ReachIsDeps(g, dso, all, ndeps);
      cnt := ClearDeps(dso.deps, ndeps, all);
      cnt := cnt + 1;
      reach := {dso} + set d: Dso | d in all && d in dso.deps[..ndeps];
    } else {
      cnt := ClearList(head, list);
      reach := all;
      ElementsSize(list, all);
    }
    cnt := cnt + 1;
  }

  /** Unmark the queued objects. */
  method ClearQueue(buf: array<Dso?>, qpos: nat, ghost all: set<Dso>)
    requires qpos <= buf.Length
    requires forall i :: 0 <= i < qpos ==> buf[i] in all
    modifies all`mark
    ensures forall d :: d in all ==> d.mark == (old(d.mark) && d !in buf[..qpos])
  {
    var i := 0;
    while i < qpos
      invariant i <= qpos
      invariant forall d :: d in all ==> d.mark == (old(d.mark) && d !in buf[..i])
    {
      assert buf[..i + 1] == buf[..i] + [buf[i]];
      var d := buf[i];
      d.mark := false;
      i := i + 1;
    }
  }

  /** Search and unmark again what was queued. */
  method SearchAndClear(dso: Dso, buf: array<Dso?>, cnt: nat, ghost all: set<Dso>, ghost reach: set<Dso>,
    ghost g: DepGraph)
    returns (qpos: nat)
    requires Bounds(dso, all, reach, g) && |reach| < cnt <= buf.Length
    requires HasEdges(reach, g)
    requires forall d :: d in reach && d != dso ==> !d.mark
    modifies reach`mark, reach`nextDep, buf
    ensures qpos < cnt && buf[qpos] == null
    ensures IsCtorQueue(g, dso, buf[..qpos]) && Yields(g, dso, buf[..qpos])
    ensures forall d :: d in reach ==> !d.mark
    ensures forall x :: x in buf[..qpos] ==> x in reach
  {
    hide *;
    qpos := SearchInPlace(dso, buf, cnt, all, reach, g);
    QueueInside(g, dso, buf[..qpos], all, reach);
    ClearQueue(buf, qpos, reach);
  }

  /** queue_ctors. `builtin` is the static four-slot queue used for a small main program. */
  method QueueCtors(dso: Dso, head: Dso, lddMode: bool, builtin: array<Dso?>,
                    ghost list: seq<Dso>, ghost g: DepGraph, ghost ndeps: nat)
    returns (queue: array?<Dso?>, qpos: nat)
    requires IsList(list) && list[0] == head && dso in list
    requires HasEdges(Members(list), g) && Complete(Members(list), g)
    requires dso.bfsBuilt ==> DepsComplete(dso, Members(list), g, ndeps)
    requires builtin.Length == 4
    modifies Members(list)`mark, Members(list)`nextDep, builtin
    ensures lddMode ==> queue == null
    ensures !lddMode ==> queue != null && qpos < queue.Length && queue[qpos] == null
    ensures !lddMode ==> IsCtorQueue(g, dso, queue[..qpos]) && Yields(g, dso, queue[..qpos])
    ensures !lddMode ==> forall d :: d in list && d.mark ==> old(d.mark) && dso.bfsBuilt && d !in queue[..qpos]
  {
    hide IsCtorQueue, Yields, Bounds, DepsComplete;
    qpos := 0;
    if lddMode {
      return null, 0;
    }
    var cnt;
    ghost var all := Members(list);
    ghost var reach;
    cnt, reach := Prepare(dso, head, list, g, ndeps);
    BoundsInside(dso, all, reach, g);
    var buf: array<Dso?>;
    if dso == head && cnt <= 4 {
      buf := builtin;
    } else {
      buf := new Dso?[cnt](_ => null);
    }
    qpos := SearchAndClear(dso, buf, cnt, all, reach, g);
    queue := buf;
  }

  lemma BoundsInside(dso: Dso, all: set<Dso>, reach: set<Dso>, g: DepGraph)
    requires Bounds(dso, all, reach, g)
    ensures reach <= all && dso in reach
  {}

  lemma QueueInside(g: DepGraph, dso: Dso, queue: seq<Dso?>, all: set<Dso>, reach: set<Dso>)
    requires IsCtorQueue(g, dso, queue) && Bounds(dso, all, reach, g)
    ensures forall i :: 0 <= i < |queue| ==> queue[i] in reach
  {
    forall i | 0 <= i < |queue| ensures queue[i] in reach { assert queue[i] in queue; }
  }
}
