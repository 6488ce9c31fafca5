/** extend_bfs_deps of the dynamic linker: the list of direct dependencies of one object
    is extended, while it is being walked, to the list of everything the object depends on. */
module BfsDeps {
  import opened Graph
  import opened Dsos

  /** The first place of `x`, or the length. */
  ghost function Place(s: seq<Dso?>, x: Dso?): (i: nat)
    ensures i <= |s| && (i < |s| ==> s[i] == x) && forall k :: 0 <= k < i ==> s[k] != x
  {
    if s == [] || s[0] == x then 0 else 1 + Place(s[1..], x)
  }

  ghost predicate Needs(g: DepGraph, d: Dso?, x: Dso?) {
    d in g && x in g[d]
  }

  /** The first listed object that needs `x` directly, or the length. */
  ghost function Parent(g: DepGraph, list: seq<Dso?>, x: Dso?): (i: nat)
    ensures i <= |list| && (i < |list| ==> Needs(g, list[i], x)) && forall k :: 0 <= k < i ==> !Needs(g, list[k], x)
  {
    if list == [] || Needs(g, list[0], x) then 0 else 1 + Parent(g, list[1..], x)
  }

  /** `x` is due before `y`: its parent comes first, or names it first. */
  ghost predicate DueBefore(g: DepGraph, list: seq<Dso?>, x: Dso?, y: Dso?) {
    var i, j := Parent(g, list, x), Parent(g, list, y);
    i < j || (i == j < |list| && list[i] in g && Place(g[list[i]], x) < Place(g[list[i]], y))
  }

  /** Behind the direct dependencies every object comes after its parent, in the order in which they are due. */
  ghost predicate BreadthFirst(g: DepGraph, direct: seq<Dso?>, list: seq<Dso?>) {
    && |direct| <= |list|
    && (forall j :: |direct| <= j < |list| ==> Parent(g, list, list[j]) < j)
    && (forall j, k :: |direct| <= j < k < |list| ==> DueBefore(g, list, list[j], list[k]))
  }

  /** `list` starts with the direct dependencies, adds each further one once, breadth first, and names
      exactly what `p` depends on. */
  ghost predicate IsClosure(p: Dso, list: seq<Dso?>, all: set<Dso>, g: DepGraph)
    requires p in g
  {
    && g[p] <= list
    && Appended(g[p], list)
    && BreadthFirst(g, g[p], list)
    && (forall x :: x in list ==> x in g && DependsOn(g, p, x))
    && (forall x :: x in all && DependsOn(g, p, x) ==> x in list)
  }

  /** Behind the direct dependencies no object repeats an earlier one. */
  ghost predicate Appended(direct: seq<Dso?>, list: seq<Dso?>) {
    |direct| <= |list| && forall i, j :: 0 <= i < j < |list| && |direct| <= j ==> list[i] != list[j]
  }

  /** What was added is needed first by one of the first `done` objects, or is named by the next among the
      first `upto` of its dependencies. */
  ghost predicate AddedBy(g: DepGraph, direct: seq<Dso?>, list: seq<Dso?>, done: nat, upto: nat) {
    forall j :: |direct| <= j < |list| ==>
      var i := Parent(g, list, list[j]);
      i < done || (i == done < |list| && list[done] in g && Place(g[list[done]], list[j]) < upto)
  }

  /** The list so far: its first `done` members have had their dependencies added. */
  ghost predicate Listed(p: Dso, list: seq<Dso?>, done: nat, g: DepGraph)
    requires p in g
  {
    && g[p] <= list && Appended(g[p], list) && done <= |list|
    && (forall x :: x in list ==> x in g && DependsOn(g, p, x))
    && (forall i, x :: 0 <= i < done && list[i] in g && x in g[list[i]] ==> x in list)
  }

  /** The same in breadth-first order, and the next member has had the dependencies before the one at `upto` added. */
  ghost predicate Growing(p: Dso, list: seq<Dso?>, done: nat, upto: nat, g: DepGraph)
    requires p in g
  {
    Listed(p, list, done, g) && BreadthFirst(g, g[p], list) && AddedBy(g, g[p], list, done, upto)
  }

  lemma DirectIsGrowing(p: Dso, g: DepGraph)
    requires p in g && Closed(g)
    ensures Growing(p, g[p], 0, 0, g)
  {
    forall x | x in g[p] ensures DependsOn(g, p, x) {
      ReachesSelf(g, x);
    }
  }

  lemma {:induction false} AllDoneIsClosure(p: Dso, list: seq<Dso?>, all: set<Dso>, g: DepGraph)
    requires p in g && Growing(p, list, |list|, 0, g)
    ensures IsClosure(p, list, all, g)
  {
    var s := set x | x in list;
    forall x | x in all && DependsOn(g, p, x) ensures x in list {
      var c :| c in g[p] && Reaches(g, c, x);
      assert c in list;
      ReachesStaysInside(g, s, c, x);
    }
  }

  /** What has a parent keeps it when the list grows. */
  lemma ParentKept(g: DepGraph, list: seq<Dso?>, x: Dso?, y: Dso?)
    requires Parent(g, list, x) < |list|
    ensures Parent(g, list + [y], x) == Parent(g, list, x)
  {
    var i, j := Parent(g, list, x), Parent(g, list + [y], x);
    assert forall k :: 0 <= k < |list| ==> (list + [y])[k] == list[k];
    assert !(i < j) && !(j < i);
  }

  /** An object that the first `done` do not need has the next as its parent if that needs it. */
  lemma ParentIsNext(p: Dso, list: seq<Dso?>, done: nat, g: DepGraph, x: Dso?, y: Dso?)
    requires p in g && Listed(p, list, done, g) && done < |list|
    requires list[done] in g && x in g[list[done]] && x !in list
    ensures Parent(g, list + [y], x) == done
  {
    var i := Parent(g, list + [y], x);
    assert forall k :: 0 <= k < |list| ==> (list + [y])[k] == list[k];
    assert Needs(g, list[done], x);
    assert forall k :: 0 <= k < done ==> !Needs(g, list[k], x);
  }

  /** Adding the next dependency of the next object, which is not listed yet. */
  lemma AppendInOrder(p: Dso, list: seq<Dso?>, done: nat, upto: nat, g: DepGraph)
    requires p in g && Growing(p, list, done, upto, g) && done < |list|
    requires list[done] in g && upto < |g[list[done]]| && g[list[done]][upto] !in list
    requires forall i :: 0 <= i < upto ==> g[list[done]][i] in list
    ensures var list' := list + [g[list[done]][upto]];
            BreadthFirst(g, g[p], list') && AddedBy(g, g[p], list', done, upto + 1)
  {
    var dep := list[done];
    var x := g[dep][upto];
    var list' := list + [x];
    ParentIsNext(p, list, done, g, x, x);
    hide Listed;
    assert Place(g[dep], x) == upto by {
      var i := Place(g[dep], x);
      assert !(i < upto) && !(upto < i);
    }
    hide Place, Parent;
    forall j | |g[p]| <= j < |list| ensures Parent(g, list', list'[j]) == Parent(g, list, list[j]) {
      ParentKept(g, list, list[j], x);
    }
    forall j, k | |g[p]| <= j < k < |list'| ensures DueBefore(g, list', list'[j], list'[k]) {
      if k < |list| { assert DueBefore(g, list, list[j], list[k]); }
    }
  }

  lemma AppendGrows(p: Dso, list: seq<Dso?>, done: nat, upto: nat, g: DepGraph)
    requires p in g && Growing(p, list, done, upto, g) && Closed(g) && done < |list|
    requires list[done] in g && upto < |g[list[done]]| && g[list[done]][upto] !in list
    requires forall i :: 0 <= i < upto ==> g[list[done]][i] in list
    ensures Growing(p, list + [g[list[done]][upto]], done, upto + 1, g)
  {
    hide Listed, BreadthFirst, AddedBy;
    AppendInOrder(p, list, done, upto, g);
    AppendListed(p, list, done, g, list[done], g[list[done]][upto]);
  }

  lemma AppendListed(p: Dso, list: seq<Dso?>, done: nat, g: DepGraph, dep: Dso?, x: Dso?)
    requires p in g && Listed(p, list, done, g) && Closed(g)
    requires dep in list && dep in g && x in g[dep] && x !in list
    ensures Listed(p, list + [x], done, g)
  {
    var c :| c in g[p] && Reaches(g, c, dep);
    ReachesStep(g, c, dep, x);
    assert DependsOn(g, p, x);
  }

  /** A dependency that is listed already is passed over. */
  lemma SkipGrows(p: Dso, list: seq<Dso?>, done: nat, upto: nat, g: DepGraph)
    requires p in g && Growing(p, list, done, upto, g)
    ensures Growing(p, list, done, upto + 1, g)
  {}

  /** How many entries of `direct` are not listed yet, repetitions included. */
  ghost function Missing(direct: seq<Dso?>, list: seq<Dso?>): nat {
    if direct == [] then 0
    else (if direct[0] in list then 0 else 1) + Missing(direct[1..], list)
  }

  ghost predicate MarksAre(all: set<Dso>, list: seq<Dso?>)
    reads all`mark
  {
    forall d :: d in all ==> (d.mark <==> d in list)
  }

  /** Resize an allocation: the old contents are kept up to the new size. */
  method Realloc(old_: seq<Dso?>, size: nat) returns (tmp: seq<Dso?>)
    ensures |tmp| == size
    ensures forall i :: 0 <= i < size && i < |old_| ==> tmp[i] == old_[i]
  {
    tmp := seq(size, i requires i >= 0 => if i < |old_| then old_[i] else null);
  }

  method MarkDirect(deps: seq<Dso?>, ghost n: nat, ghost all: set<Dso>)
    requires Terminated(deps, n) && forall j :: 0 <= j < n ==> deps[j] in all
    requires MarksAre(all, [])
    modifies all`mark
    ensures MarksAre(all, deps[..n])
  {
    var i := 0;
    while deps[i] != null
      invariant i <= n && MarksAre(all, deps[..i])
      decreases n - i
    {
      assert deps[..i + 1] == deps[..i] + [deps[i]];
      deps[i].mark := true;
      i := i + 1;
    }
  }

  method CountMissing(dep: Dso, ghost list: seq<Dso?>, ghost all: set<Dso>) returns (cnt: nat)
    requires dep.ndepsDirect <= |dep.deps| && MarksAre(all, list)
    requires forall j :: 0 <= j < dep.ndepsDirect ==> dep.deps[j] in all
    ensures cnt == Missing(dep.deps[..dep.ndepsDirect], list)
  {
    cnt := 0;
    var j := 0;
    ghost var direct := dep.deps[..dep.ndepsDirect];
    while j < dep.ndepsDirect
      invariant j <= dep.ndepsDirect
      invariant cnt + Missing(direct[j..], list) == Missing(direct, list)
    {
      assert direct[j..][1..] == direct[j + 1..];
      if !dep.deps[j].mark { cnt := cnt + 1; }
      j := j + 1;
    }
  }

  /** What the loops need to know of the growing list. */
  lemma GrowingFacts(p: Dso, list: seq<Dso?>, done: nat, upto: nat, g: DepGraph)
    requires p in g && Growing(p, list, done, upto, g)
    ensures g[p] <= list && done <= |list| && forall x :: x in list ==> x in g
  {}

  lemma EdgeInside(all: set<Dso>, g: DepGraph, d: Dso?, x: Dso?)
    requires Complete(all, g) && d in g && x in g[d]
    ensures x in g && x != null && x in all
  {}

  /** The list of `p` occupies `used` slots of its buffer and marks agree with it. */
  ghost predicate Listing(p: Dso, used: nat, done: nat, upto: nat, all: set<Dso>, g: DepGraph)
    reads all`mark, all`deps, all`ndepsDirect, p`deps
  {
    && p in all && p in g && Complete(all, g) && HasEdges(all, g)
    && used < |p.deps| && Growing(p, p.deps[..used], done, upto, g)
    && MarksAre(all, p.deps[..used])
  }

  /** Write `x`, the next dependency of the next object, to the end of the list. */
  method Append(p: Dso, x: Dso, used: nat, ghost done: nat, ghost upto: nat, ghost all: set<Dso>, ghost g: DepGraph)
    requires Listing(p, used, done, upto, all, g) && used + 1 < |p.deps| && done < used
    requires p.deps[done] in g && upto < |g[p.deps[done]]| && x == g[p.deps[done]][upto] && !x.mark && x in all
    requires forall i :: 0 <= i < upto ==> g[p.deps[done]][i] in p.deps[..used]
    modifies x`mark, p`deps
    ensures Listing(p, used + 1, done, upto + 1, all, g)
    ensures p.deps[..used + 1] == old(p.deps[..used]) + [x] && |p.deps| == old(|p.deps|)
  {
    hide Growing;
    assert p.deps[..used][done] == p.deps[done];
    AppendGrows(p, p.deps[..used], done, upto, g);
    GrowingFacts(p, p.deps[..used], done, upto, g);
    ghost var direct := p.deps[..p.ndepsDirect];
    x.mark := true;
    p.deps := p.deps[used := x];
    assert p.deps[..used + 1] == old(p.deps[..used]) + [x];
    assert p.deps[..p.ndepsDirect] == direct;
  }

  /** Look at the dependency at `j` of `dep`, the next object. */
  method AppendIfMissing(p: Dso, dep: Dso, j: nat, used: nat, ghost done: nat, ghost all: set<Dso>, ghost g: DepGraph)
    returns (n: nat)
    requires Listing(p, used, done, j, all, g) && done < used && dep == p.deps[done] && dep in all
    requires j < dep.ndepsDirect && forall i :: 0 <= i < j ==> g[dep][i] in p.deps[..used]
    requires dep.deps[j] !in p.deps[..used] ==> used + 1 < |p.deps|
    modifies all`mark, p`deps
    ensures used <= n && Listing(p, n, done, j + 1, all, g) && |p.deps| == old(|p.deps|)
    ensures p.deps[..used] == old(p.deps[..used]) && forall i :: 0 <= i < j + 1 ==> g[dep][i] in p.deps[..n]
    ensures n == used + if g[dep][j] in old(p.deps[..used]) then 0 else 1
  {
    hide Growing;
    n := used;
    var x := dep.deps[j];
    assert x == g[dep][j];
    EdgeInside(all, g, dep, x);
    assert x.mark <==> x in p.deps[..n];
    assert |g[dep]| > j && dep in g;
    hide HasEdges, Complete, MarksAre;
    if !x.mark {
      Append(p, x, n, done, j, all, g);
      n := n + 1;
    } else {
      SkipGrows(p, p.deps[..n], done, j, g);
    }
  }

  /** Copy the unlisted dependencies of `dep`, the next object, to the end of the list of `p`. The buffer was
      sized by counting them, so no write leaves it. `p` may be `dep`. */
  method AppendMissing(p: Dso, dep: Dso, used: nat, ghost done: nat, ghost all: set<Dso>, ghost g: DepGraph)
    returns (n: nat)
    requires Listing(p, used, done, 0, all, g)
    requires done < used && dep == p.deps[done] && dep in all
    requires used + Missing(g[dep], p.deps[..used]) < |p.deps|
    modifies all`mark, p`deps
    ensures used <= n && Listing(p, n, done, |g[dep]|, all, g)
    ensures p.deps[..used] == old(p.deps[..used])
    ensures forall x :: x in g[dep] ==> x in p.deps[..n]
  {
    hide Growing, Complete, MarksAre;
    n := used;
    var j := 0;
    ghost var list0 := p.deps[..used];
    assert list0[done] == dep;
    while j < dep.ndepsDirect
      invariant Listing(p, n, done, j, all, g)
      invariant j <= dep.ndepsDirect && used <= n && |p.deps| == old(|p.deps|)
      invariant n + Missing(g[dep][j..], list0) < |p.deps|
      invariant list0 <= p.deps[..n]
      invariant forall i :: 0 <= i < j ==> g[dep][i] in p.deps[..n]
    {
      assert g[dep][j..][1..] == g[dep][j + 1..];
      assert p.deps[..n][done] == dep;
      n := AppendIfMissing(p, dep, j, n, done, all, g);
      j := j + 1;
    }
  }

  lemma ListBound(p: Dso, list: seq<Dso?>, done: nat, upto: nat, all: set<Dso>, g: DepGraph)
    requires p in g && Complete(all, g) && Growing(p, list, done, upto, g)
    ensures |list| <= |g[p]| + |g.Keys|
  {
    var rest := list[|g[p]|..];
    assert Distinct(rest) by {
      forall i, j | 0 <= i < j < |rest| ensures rest[i] != rest[j] {
        assert rest[i] == list[|g[p]| + i] && rest[j] == list[|g[p]| + j];
      }
    }
    forall x | x in rest ensures x in g.Keys { assert x in list; }
    DistinctSize(rest, g.Keys);
  }

  /** Resize the buffer of `p`, which keeps the list. */
  method Resize(p: Dso, used: nat, size: nat, ghost done: nat, ghost upto: nat, ghost all: set<Dso>, ghost g: DepGraph)
    requires Listing(p, used, done, upto, all, g) && used < size
    modifies p`deps
    ensures Listing(p, used, done, upto, all, g) && |p.deps| == size && p.deps[..used] == old(p.deps[..used])
  {
    hide Growing;
    GrowingFacts(p, p.deps[..used], done, upto, g);
    p.deps := Realloc(p.deps, size);
    assert p.deps[..used] == old(p.deps[..used]);
    assert p.deps[..p.ndepsDirect] == old(p.deps[..p.ndepsDirect]);
  }

  /** Write the terminator behind the list. */
  method Terminate(p: Dso, used: nat, ghost done: nat, ghost upto: nat, ghost all: set<Dso>, ghost g: DepGraph)
    requires Listing(p, used, done, upto, all, g)
    modifies p`deps
    ensures Listing(p, used, done, upto, all, g) && Terminated(p.deps, used) && p.deps[..used] == old(p.deps[..used])
  {
    hide Growing;
    GrowingFacts(p, p.deps[..used], done, upto, g);
    forall j | 0 <= j < used ensures p.deps[j] != null { assert p.deps[j] in p.deps[..used]; }
    p.deps := p.deps[used := null];
    assert p.deps[..used] == old(p.deps[..used]);
    assert p.deps[..p.ndepsDirect] == old(p.deps[..p.ndepsDirect]);
  }

  lemma ListedInside(p: Dso, i: nat, used: nat, all: set<Dso>, g: DepGraph)
    requires Listing(p, used, i, 0, all, g) && i < used
    ensures var dep := p.deps[i];
            && dep in p.deps[..used] && dep != null && dep in all && dep in g
            && dep.ndepsDirect <= |dep.deps| && dep.deps[..dep.ndepsDirect] == g[dep]
            && forall j :: 0 <= j < dep.ndepsDirect ==> dep.deps[j] in all
  {
    var dep := p.deps[i];
    GrowingFacts(p, p.deps[..used], i, 0, g);
    assert dep == p.deps[..used][i];
    forall j | 0 <= j < dep.ndepsDirect ensures dep.deps[j] in all {
      assert dep.deps[j] == g[dep][j];
      EdgeInside(all, g, dep, g[dep][j]);
    }
  }

  /** One turn of the main loop: make room for the unlisted dependencies of the `i`th listed object and add them. */
  method Expand(p: Dso, i: nat, used: nat, ghost all: set<Dso>, ghost g: DepGraph) returns (n: nat)
    requires Listing(p, used, i, 0, all, g) && Terminated(p.deps, used) && i < used
    modifies all`mark, p`deps
    ensures used <= n && Listing(p, n, i + 1, 0, all, g) && Terminated(p.deps, n)
  {
    hide Growing, HasEdges, Complete;
    ListedInside(p, i, used, all, g);
    var dep := p.deps[i];
    var cnt := CountMissing(dep, p.deps[..used], all);
    Resize(p, used, used + cnt + 1, i, 0, all, g);
    assert p.deps[..used][i] == dep;
    n := AppendMissing(p, dep, used, i, all, g);
    Terminate(p, n, i, |g[dep]|, all, g);
    assert p.deps[..used][i] == p.deps[..n][i] == dep;
    DoneGrows(p, p.deps[..n], i, |g[dep]|, g);
  }

  /** Once all dependencies of the next member are listed, one more member is done. */
  lemma DoneGrows(p: Dso, list: seq<Dso?>, done: nat, upto: nat, g: DepGraph)
    requires p in g && Growing(p, list, done, upto, g) && done < |list|
    requires list[done] in g && forall x :: x in g[list[done]] ==> x in list
    ensures Growing(p, list, done + 1, 0, g)
  {
    forall i, x | 0 <= i < done + 1 && list[i] in g && x in g[list[i]] ensures x in list {}
  }

  /** Mark the direct dependencies, so that they are not listed twice. */
  method BeginList(p: Dso, ghost all: set<Dso>, ghost g: DepGraph)
    requires p in all && Complete(all, g) && HasEdges(all, g) && MarksAre(all, [])
    requires Terminated(p.deps, p.ndepsDirect)
    modifies all`mark
    ensures Listing(p, p.ndepsDirect, 0, 0, all, g)
  {
    hide Growing;
    assert p.deps[..p.ndepsDirect] == g[p];
    DirectIsGrowing(p, g);
    GrowingFacts(p, g[p], 0, 0, g);
    MarkDirect(p.deps, p.ndepsDirect, all);
  }

  /** The main loop: the list grows while it is walked. */
  method Grow(p: Dso, ghost all: set<Dso>, ghost g: DepGraph) returns (ghost n: nat)
    requires Listing(p, p.ndepsDirect, 0, 0, all, g) && Terminated(p.deps, p.ndepsDirect)
    modifies all`mark, p`deps
    ensures HasEdges(all, g) && Terminated(p.deps, n) && IsClosure(p, p.deps[..n], all, g)
  {
    hide Growing, IsClosure, HasEdges, MarksAre, Complete;
    var ndepsAll := p.ndepsDirect;
    var i := 0;
    while p.deps[i] != null
      invariant Listing(p, ndepsAll, i, 0, all, g) && Terminated(p.deps, ndepsAll) && i <= ndepsAll
      decreases |g[p]| + |g.Keys| - i
    {
      ndepsAll := Expand(p, i, ndepsAll, all, g);
      i := i + 1;
      ListBound(p, p.deps[..ndepsAll], i, 0, all, g);
    }
    n := ndepsAll;
    AllDoneIsClosure(p, p.deps[..n], all, g);
  }

  /** extend_bfs_deps. */
  method ExtendBfsDeps(p: Dso, head: Dso, ghost list: seq<Dso>, ghost g: DepGraph) returns (ghost n: nat)
    requires IsList(list) && list[0] == head && p in list
    requires HasEdges(Members(list), g) && Complete(Members(list), g)
    requires MarksAre(Members(list), [])
    requires !p.bfsBuilt ==> Terminated(p.deps, p.ndepsDirect)
    modifies Members(list)`mark, p`deps, p`bfsBuilt
    ensures HasEdges(Members(list), g) && p.bfsBuilt
    ensures MarksAre(Members(list), [])
    ensures old(p.bfsBuilt) ==> p.deps == old(p.deps)
    ensures !old(p.bfsBuilt) ==> Terminated(p.deps, n) && IsClosure(p, p.deps[..n], Members(list), g)
  {
    hide IsClosure, Growing;
    n := 0;
    if p.bfsBuilt { return; }
    BeginList(p, Members(list), g);
    n := Grow(p, Members(list), g);
    p.bfsBuilt := true;
    var cleared := ClearList(head, list);
  }
}
