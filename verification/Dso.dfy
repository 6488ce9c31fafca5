/** The loaded shared objects: the fields of `struct dso` that the graph algorithms use. */
module Dsos {
  import opened Graph

  class Dso {
    var next: Dso?         // the global list of loaded objects
    var mark: bool
    var bfsBuilt: bool
    var deps: seq<Dso?>    // the allocated list: direct dependencies first, ended by null
    var ndepsDirect: nat
    var nextDep: nat
  }

  type DepGraph = map<Dso?, seq<Dso?>>

  /** `list` is the null-terminated chain of `next` links from its first element. */
  ghost predicate IsList(list: seq<Dso>)
    reads list`next
  {
    && list != []
    && (forall i :: 0 <= i < |list| - 1 ==> list[i].next == list[i + 1])
    && list[|list| - 1].next == null
  }

  ghost function Members(list: seq<Dso>): set<Dso> {
    set d | d in list
  }

  /** `g` lists the direct dependencies of the objects in `all`. */
  ghost predicate HasEdges(all: set<Dso>, g: DepGraph)
    reads all`deps, all`ndepsDirect
  {
    forall d :: d in all ==> d in g && d.ndepsDirect <= |d.deps| && g[d] == d.deps[..d.ndepsDirect]
  }

  /** The objects in `all` are the nodes of `g` and need nothing outside `all`. */
  ghost predicate Complete(all: set<Dso>, g: DepGraph) {
    (forall d: Dso? :: d in g ==> d != null && d in all) && Closed(g)
  }

  /** `a` is a null-terminated list of `n` objects. */
  ghost predicate Terminated(a: seq<Dso?>, n: nat) {
    n < |a| && a[n] == null && forall j :: 0 <= j < n ==> a[j] != null
  }

  /** Clear the marks of a whole list of objects, counting them. */
  method ClearList(head: Dso, ghost list: seq<Dso>) returns (cnt: nat)
    requires IsList(list) && list[0] == head
    modifies Members(list)`mark
    ensures cnt == |list|
    ensures forall d :: d in list ==> !d.mark
  {
    cnt := 0;
    var p: Dso? := head;
    while p != null
      invariant cnt <= |list|
      invariant p == if cnt < |list| then list[cnt] else null
      invariant forall i :: 0 <= i < cnt ==> !list[i].mark
      decreases |list| - cnt
    {
      p.mark := false;
      cnt := cnt + 1;
      p := p.next;
    }
  }
}
