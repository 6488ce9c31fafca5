/** The constructor-ordering search of the dynamic linker, on values: what an output
    queue must satisfy, the search as a step function, and why every step keeps the
    queue on its way there. CtorQueue runs the same steps in place. */
module CtorOrder {
  import opened Graph

  /** `queue` holds every DSO reachable from `root` once and `root` last, each in its proper place. */
  ghost predicate IsCtorQueue<N>(g: map<N, seq<N>>, root: N, queue: seq<N>) {
    && Distinct(queue)
    && (forall x :: x in queue ==> x in g && Reaches(g, root, x))
    && (forall x :: x in g && Reaches(g, root, x) ==> x in queue)
    && queue != [] && queue[|queue| - 1] == root
    && (forall i: nat :: i < |queue| ==> InPlace(g, root, queue, i))
  }

  /** A DSO comes after all its dependencies but those that it has only through the DSOs on one path to it. */
  ghost predicate InPlace<N>(g: map<N, seq<N>>, root: N, queue: seq<N>, i: nat)
    requires i < |queue|
  {
    exists path: seq<nat> :: FinishedOn(g, root, queue, i, path)
  }

  ghost function Nodes<N>(queue: seq<N>, path: seq<nat>): (r: seq<N>)
    requires forall k :: 0 <= k < |path| ==> path[k] < |queue|
    ensures |r| == |path| && forall k :: 0 <= k < |path| ==> r[k] == queue[path[k]]
  {
    seq(|path|, k requires 0 <= k < |path| => queue[path[k]])
  }

  /**
   * The DSOs at `path`, all later in the queue, lead from the root to this one; what it reaches around them is
   * not later.
   */
  ghost predicate FinishedOn<N>(g: map<N, seq<N>>, root: N, queue: seq<N>, i: nat, path: seq<nat>)
    requires i < |queue|
  {
    && (forall k :: 0 <= k < |path| ==> i < path[k] < |queue|)
    && SimplePath(g, root, queue[i], Nodes(queue, path) + [queue[i]])
    && forall d :: d in g && Detours(g, queue[i], d, Nodes(queue, path)) ==> d in queue[..i + 1]
  }

  /** `active[0]` is the DSO being visited, the rest is the stack with its top first;
      `next` is each active DSO's `next_dep`. A DSO is marked when it is in either list. */
  datatype Search<N> = Search(queue: seq<N>, active: seq<N>, next: map<N, nat>) {
    ghost predicate Marked(x: N) {
      x in queue || x in active
    }
  }

  ghost function Start<N>(root: N): Search<N> {
    Search([], [root], map[root := 0])
  }

  ghost predicate CanStep<N>(g: map<N, seq<N>>, s: Search<N>) {
    s.active != [] && s.active[0] in g && s.active[0] in s.next
  }

  ghost function Step<N>(g: map<N, seq<N>>, s: Search<N>): Search<N>
    requires CanStep(g, s)
  {
    var p := s.active[0];
    if s.next[p] >= |g[p]| then
      Search(s.queue + [p], s.active[1..], s.next)
    else
      var d := g[p][s.next[p]];
      if s.Marked(d) then s.(next := s.next[p := s.next[p] + 1])
      else Search(s.queue, [d] + s.active, s.next[d := 0])
  }

  ghost function Run<N>(g: map<N, seq<N>>, s: Search<N>, n: nat): (r: Search<N>)
    decreases n
  {
    if n == 0 || !CanStep(g, s) then s else Run(g, Step(g, s), n - 1)
  }

  /** The search comes to this state. */
  ghost predicate FromStart<N>(g: map<N, seq<N>>, root: N, s: Search<N>) {
    exists n: nat :: Run(g, Start(root), n) == s
  }

  /** The queue that the search ends with. */
  ghost predicate Yields<N>(g: map<N, seq<N>>, root: N, queue: seq<N>) {
    exists n: nat :: Run(g, Start(root), n).active == [] && Run(g, Start(root), n).queue == queue
  }

  /** Consecutive active DSOs are joined by the edge the lower one is looking at. */
  ghost predicate Linked<N>(g: map<N, seq<N>>, s: Search<N>) {
    && (forall i :: 0 <= i < |s.active| ==> s.active[i] in g && s.active[i] in s.next)
    && (forall i :: 0 < i < |s.active| ==>
          && s.next[s.active[i]] < |g[s.active[i]]|
          && g[s.active[i]][s.next[s.active[i]]] == s.active[i - 1])
  }

  ghost predicate Scanned<N>(g: map<N, seq<N>>, s: Search<N>) {
    && (forall x, d :: x in s.queue && x in g && d in g[x] ==> s.Marked(d))
    && (forall x, j :: x in s.active && x in g && x in s.next && 0 <= j < s.next[x] <= |g[x]| ==> s.Marked(g[x][j]))
  }

  ghost predicate Inv<N>(g: map<N, seq<N>>, root: N, s: Search<N>) {
    && Closed(g)
    && Distinct(s.queue + s.active)
    && Linked(g, s)
    && (s.active != [] ==> s.next[s.active[0]] <= |g[s.active[0]]|)
    && Scanned(g, s)
    && (forall x :: x in s.queue + s.active ==> x in g && Reaches(g, root, x))
    && FromStart(g, root, s)
    && (if s.active != [] then s.active[|s.active| - 1] == root
        else s.queue != [] && s.queue[|s.queue| - 1] == root)
  }

  lemma StartInv<N>(g: map<N, seq<N>>, root: N)
    requires Closed(g) && root in g
    ensures Inv(g, root, Start(root))
  {
    ReachesSelf(g, root);
    assert Run(g, Start(root), 0) == Start(root);
  }

  lemma {:induction false} RunMore<N>(g: map<N, seq<N>>, s: Search<N>, n: nat)
    requires CanStep(g, Run(g, s, n))
    ensures Run(g, s, n + 1) == Step(g, Run(g, s, n))
    decreases n
  {
    if n > 0 && CanStep(g, s) { RunMore(g, Step(g, s), n - 1); }
  }

  lemma StepFromStart<N>(g: map<N, seq<N>>, root: N, s: Search<N>)
    requires FromStart(g, root, s) && CanStep(g, s)
    ensures FromStart(g, root, Step(g, s))
  {
    var n: nat :| Run(g, Start(root), n) == s;
    RunMore(g, Start(root), n);
  }

  lemma FinishInv<N>(g: map<N, seq<N>>, root: N, s: Search<N>)
    requires Inv(g, root, s) && CanStep(g, s)
    requires s.next[s.active[0]] == |g[s.active[0]]|
    ensures Inv(g, root, Step(g, s))
  {
    hide FromStart;
    var p := s.active[0];
    var t := Step(g, s);
    assert s.queue + s.active == t.queue + t.active;
    FinishScanned(g, s);
    assert Linked(g, t) by {
      forall i | 0 <= i < |t.active| ensures t.active[i] == s.active[i + 1] {}
    }
    StepFromStart(g, root, s);
  }

  lemma FinishScanned<N>(g: map<N, seq<N>>, s: Search<N>)
    requires CanStep(g, s) && Scanned(g, s) && s.next[s.active[0]] == |g[s.active[0]]|
    ensures Scanned(g, Search(s.queue + [s.active[0]], s.active[1..], s.next))
  {
    var p, t := s.active[0], Search(s.queue + [s.active[0]], s.active[1..], s.next);
    assert s.active == [p] + s.active[1..];
    assert forall x :: t.Marked(x) <==> s.Marked(x);
    forall x, d | x in t.queue && x in g && d in g[x] ensures t.Marked(d) {
      if x == p { var j :| 0 <= j < |g[p]| && g[p][j] == d; }
      assert s.Marked(d);
    }
    forall x, j | x in t.active && x in g && x in t.next && 0 <= j < t.next[x] <= |g[x]| ensures t.Marked(g[x][j]) {
      assert x in s.active;
    }
  }

  lemma SkipInv<N>(g: map<N, seq<N>>, root: N, s: Search<N>)
    requires Inv(g, root, s) && CanStep(g, s)
    requires s.next[s.active[0]] < |g[s.active[0]]| && s.Marked(g[s.active[0]][s.next[s.active[0]]])
    ensures Inv(g, root, Step(g, s))
  {
    hide FromStart;
    var p := s.active[0];
    var t := Step(g, s);
    assert Linked(g, t) by {
      forall i | 0 < i < |t.active| ensures t.next[t.active[i]] == s.next[s.active[i]] {
        assert (s.queue + s.active)[|s.queue|] == p;
        assert (s.queue + s.active)[|s.queue| + i] == s.active[i];
      }
    }
    SkipScanned(g, s);
    StepFromStart(g, root, s);
  }

  lemma SkipScanned<N>(g: map<N, seq<N>>, s: Search<N>)
    requires CanStep(g, s) && Scanned(g, s) && s.next[s.active[0]] < |g[s.active[0]]|
    requires s.Marked(g[s.active[0]][s.next[s.active[0]]])
    ensures Scanned(g, s.(next := s.next[s.active[0] := s.next[s.active[0]] + 1]))
  {
    var p := s.active[0];
    var t := s.(next := s.next[p := s.next[p] + 1]);
    forall x, d | x in t.queue && x in g && d in g[x] ensures t.Marked(d) { assert s.Marked(d); }
    forall x, j | x in t.active && x in g && x in t.next && 0 <= j < t.next[x] <= |g[x]| ensures t.Marked(g[x][j]) {
      assert (x == p && j == s.next[p]) || s.Marked(g[x][j]);
    }
  }

  lemma DistinctInsert<N>(u: seq<N>, v: seq<N>, d: N)
    requires Distinct(u + v) && d !in u && d !in v
    ensures Distinct(u + ([d] + v))
  {
    var old_, new_ := u + v, u + ([d] + v);
    forall i, j | 0 <= i < j < |new_| ensures new_[i] != new_[j] {
      var i', j' := if i <= |u| then i else i - 1, if j <= |u| then j else j - 1;
      assert i != |u| ==> new_[i] == old_[i'];
      assert j != |u| ==> new_[j] == old_[j'];
    }
  }

  lemma PushScanned<N>(g: map<N, seq<N>>, s: Search<N>, d: N)
    requires Linked(g, s) && Scanned(g, s) && d in g && !s.Marked(d)
    ensures var t := Search(s.queue, [d] + s.active, s.next[d := 0]);
            Linked(g, s.(next := s.next[d := 0])) && Scanned(g, t)
  {
    var t := Search(s.queue, [d] + s.active, s.next[d := 0]);
    assert forall i :: 0 <= i < |s.active| ==> s.active[i] != d;
    forall x, e | x in t.queue && x in g && e in g[x] ensures t.Marked(e) { assert s.Marked(e); }
    forall x, j | x in t.active && x in g && x in t.next && 0 <= j < t.next[x] <= |g[x]|
      ensures t.Marked(g[x][j])
    {
      assert x in s.active && t.next[x] == s.next[x];
      assert s.Marked(g[x][j]);
    }
  }

  lemma PushLinked<N>(g: map<N, seq<N>>, s: Search<N>, d: N)
    requires CanStep(g, s) && Linked(g, s) && s.next[s.active[0]] < |g[s.active[0]]|
    requires d == g[s.active[0]][s.next[s.active[0]]] && d in g && !s.Marked(d)
    requires Linked(g, s.(next := s.next[d := 0]))
    ensures Linked(g, Search(s.queue, [d] + s.active, s.next[d := 0]))
  {
    var t := Search(s.queue, [d] + s.active, s.next[d := 0]);
    forall i | 0 < i < |t.active| ensures t.active[i] == s.active[i - 1] {}
  }

  lemma PushReached<N>(g: map<N, seq<N>>, root: N, s: Search<N>, d: N)
    requires CanStep(g, s) && Closed(g) && d in g[s.active[0]]
    requires forall x :: x in s.queue + s.active ==> x in g && Reaches(g, root, x)
    ensures forall x :: x in s.queue + ([d] + s.active) ==> x in g && Reaches(g, root, x)
  {
    var p := s.active[0];
    assert p in s.queue + s.active;
    ReachesStep(g, root, p, d);
    forall x | x in s.queue + ([d] + s.active) ensures x in g && Reaches(g, root, x) {
      assert x == d || x in s.queue + s.active;
    }
  }

  lemma PushInv<N>(g: map<N, seq<N>>, root: N, s: Search<N>)
    requires Inv(g, root, s) && CanStep(g, s)
    requires s.next[s.active[0]] < |g[s.active[0]]| && !s.Marked(g[s.active[0]][s.next[s.active[0]]])
    ensures Inv(g, root, Step(g, s))
  {
    hide FromStart, Scanned, Linked, Distinct, Reaches;
    var p := s.active[0];
    var d := g[p][s.next[p]];
    StepFromStart(g, root, s);
    DistinctInsert(s.queue, s.active, d);
    PushScanned(g, s, d);
    PushLinked(g, s, d);
    PushReached(g, root, s, d);
  }

  lemma StepInv<N>(g: map<N, seq<N>>, root: N, s: Search<N>)
    requires Inv(g, root, s) && CanStep(g, s)
    ensures Inv(g, root, Step(g, s))
  {
    var p := s.active[0];
    if s.next[p] == |g[p]| {
      FinishInv(g, root, s);
    } else if s.Marked(g[p][s.next[p]]) {
      SkipInv(g, root, s);
    } else {
      PushInv(g, root, s);
    }
  }

  lemma {:induction false} RunInv<N>(g: map<N, seq<N>>, root: N, n: nat)
    requires Closed(g) && root in g
    ensures Inv(g, root, Run(g, Start(root), n))
  {
    if n == 0 {
      StartInv(g, root);
    } else {
      RunInv(g, root, n - 1);
      var s := Run(g, Start(root), n - 1);
      if CanStep(g, s) {
        RunMore(g, Start(root), n - 1);
        StepInv(g, root, s);
      } else {
        RunStops(g, Start(root), n - 1);
      }
    }
  }

  lemma {:induction false} RunStops<N>(g: map<N, seq<N>>, s: Search<N>, n: nat)
    requires !CanStep(g, Run(g, s, n))
    ensures Run(g, s, n + 1) == Run(g, s, n)
    decreases n
  {
    if n > 0 && CanStep(g, s) { RunStops(g, Step(g, s), n - 1); }
  }

  /** The state in which the search was about to queue `p`, with `before` queued. */
  ghost predicate Finishing<N>(g: map<N, seq<N>>, s: Search<N>, before: seq<N>, p: N) {
    CanStep(g, s) && s.queue == before && s.active[0] == p && s.next[p] >= |g[p]|
  }

  /** Every queued DSO was once about to be queued. */
  lemma {:induction false} FinishMoment<N>(g: map<N, seq<N>>, root: N, n: nat, i: nat) returns (m: nat)
    requires i < |Run(g, Start(root), n).queue|
    ensures m < n && Finishing(g, Run(g, Start(root), m), Run(g, Start(root), n).queue[..i],
            Run(g, Start(root), n).queue[i])
  {
    var s := Run(g, Start(root), n - 1);
    if CanStep(g, s) {
      RunMore(g, Start(root), n - 1);
    } else {
      RunStops(g, Start(root), n - 1);
    }
    if i < |s.queue| {
      m := FinishMoment(g, root, n - 1, i);
      assert s.queue[..i] == Run(g, Start(root), n).queue[..i];
    } else {
      m := n - 1;
      assert Run(g, Start(root), n).queue[..i] == s.queue;
    }
  }

  /** What the DSO about to be queued reaches around the stack is queued already. */
  lemma AroundStack<N>(g: map<N, seq<N>>, root: N, s: Search<N>, d: N)
    requires Inv(g, root, s) && s.active != [] && s.next[s.active[0]] >= |g[s.active[0]]|
    requires Detours(g, s.active[0], d, s.active[1..])
    ensures d in s.queue + [s.active[0]]
  {
    var p := s.active[0];
    var inside := (set x | x in s.queue) + {p};
    forall x, y | x in inside && x in g && y in g[x] ensures y in inside || y in s.active[1..] {
      if x == p { var j :| 0 <= j < |g[p]| && g[p][j] == y; }
      assert s.Marked(y);
    }
    var k: nat :| Detour(g, p, d, s.active[1..], k);
    DetourStaysInside(g, inside, p, d, s.active[1..], k);
  }

  ghost function Reversed<N>(s: seq<N>): (r: seq<N>)
    ensures |r| == |s| && forall k :: 0 <= k < |s| ==> r[k] == s[|s| - 1 - k]
  {
    seq(|s|, k requires 0 <= k < |s| => s[|s| - 1 - k])
  }

  lemma ReversedMembers<N>(s: seq<N>)
    ensures forall x :: x in Reversed(s) <==> x in s
  {
    forall x | x in s ensures x in Reversed(s) {
      var k :| 0 <= k < |s| && s[k] == x;
      assert Reversed(s)[|s| - 1 - k] == x;
    }
  }

  /** The stack from its bottom is a path from the root. */
  lemma StackIsPath<N>(g: map<N, seq<N>>, root: N, s: Search<N>)
    requires Inv(g, root, s) && s.active != []
    ensures SimplePath(g, root, s.active[0], Reversed(s.active))
  {
    var path := Reversed(s.active);
    forall i, j | 0 <= i < j < |path| ensures path[i] != path[j] {
      assert (s.queue + s.active)[|s.queue| + |path| - 1 - i] == path[i];
      assert (s.queue + s.active)[|s.queue| + |path| - 1 - j] == path[j];
    }
  }

  lemma {:induction false} Locate<N>(queue: seq<N>, nodes: seq<N>, from: nat) returns (path: seq<nat>)
    requires from <= |queue| && forall x :: x in nodes ==> x in queue[from..]
    ensures |path| == |nodes| && forall k :: 0 <= k < |path| ==> from <= path[k] < |queue| && queue[path[k]] == nodes[k]
  {
    if nodes == [] {
      path := [];
    } else {
      assert nodes[0] in queue[from..];
      var j :| 0 <= j < |queue[from..]| && queue[from..][j] == nodes[0];
      var rest := Locate(queue, nodes[1..], from);
      path := [from + j] + rest;
    }
  }

  lemma AllQueued<N>(g: map<N, seq<N>>, root: N, s: Search<N>, x: N)
    requires Inv(g, root, s) && s.active == [] && Reaches(g, root, x)
    ensures x in s.queue
  {
    var all := set y | y in s.queue;
    forall y, z | y in all && y in g && z in g[y] ensures z in all { assert s.Marked(z); }
    assert root in s.queue;
    ReachesStaysInside(g, all, root, x);
  }

  lemma StillLater<N>(g: map<N, seq<N>>, root: N, s: Search<N>, z: Search<N>, i: nat, x: N)
    requires Inv(g, root, s) && Inv(g, root, z) && z.active == [] && i < |z.queue| && s.active != []
    requires z.queue[..i + 1] == s.queue + [s.active[0]] && x in s.active[1..]
    ensures x in z.queue[i + 1..]
  {
    NotEarlier(s.queue, s.active, x);
    assert x in s.queue + s.active;
    AllQueued(g, root, z, x);
    assert z.queue == z.queue[..i + 1] + z.queue[i + 1..];
  }

  lemma NotEarlier<N>(queue: seq<N>, active: seq<N>, x: N)
    requires Distinct(queue + active) && active != [] && x in active[1..]
    ensures x !in queue + [active[0]] && x in active
  {
    var all := queue + active;
    var k :| 0 <= k < |active[1..]| && active[1..][k] == x;
    assert all[|queue| + 1 + k] == x;
    assert forall j :: 0 <= j <= |queue| ==> (queue + [active[0]])[j] == all[j];
  }

  lemma {:induction false} SameAvoided<N>(g: map<N, seq<N>>, a: N, b: N, avoid: seq<N>, avoid': seq<N>, k: nat)
    requires Detour(g, a, b, avoid, k) && forall x :: x in avoid' ==> x in avoid
    ensures Detour(g, a, b, avoid', k)
    decreases k
  {
    if k > 0 {
      var c :| c in g[a] && Detour(g, c, b, avoid, k - 1);
      SameAvoided(g, c, b, avoid, avoid', k - 1);
    }
  }

  /** A DSO about to be queued is in its place in the final queue, along the stack. */
  lemma PlacedByStack<N>(g: map<N, seq<N>>, root: N, s: Search<N>, z: Search<N>, i: nat)
    requires Inv(g, root, s) && Inv(g, root, z) && z.active == [] && i < |z.queue|
    requires Finishing(g, s, z.queue[..i], z.queue[i])
    ensures InPlace(g, root, z.queue, i)
  {
    hide Inv, Finishing;
    var queue := z.queue;
    FinishingFacts(g, root, s, queue, i);
    var stack := Reversed(s.active[1..]);
    ReversedMembers(s.active[1..]);
    forall x | x in stack ensures x in queue[i + 1..] { StillLater(g, root, s, z, i, x); }
    var path := Locate(queue, stack, i + 1);
    assert Nodes(queue, path) == stack;
    StackIsPath(g, root, s);
    assert Reversed(s.active) == stack + [queue[i]];
    forall d | d in g && Detours(g, queue[i], d, stack) ensures d in queue[..i + 1] {
      var k: nat :| Detour(g, queue[i], d, stack, k);
      SameAvoided(g, queue[i], d, stack, s.active[1..], k);
      AroundStack(g, root, s, d);
    }
    assert FinishedOn(g, root, queue, i, path);
  }

  lemma FinishingFacts<N>(g: map<N, seq<N>>, root: N, s: Search<N>, queue: seq<N>, i: nat)
    requires i < |queue| && Finishing(g, s, queue[..i], queue[i])
    ensures s.active != [] && s.active[0] == queue[i] && s.active[0] in g && s.active[0] in s.next
            && s.next[s.active[0]] >= |g[s.active[0]]|
    ensures queue[..i + 1] == s.queue + [s.active[0]]
  {}

  /** Each DSO of the final queue is in its place. */
  lemma QueuedInPlace<N>(g: map<N, seq<N>>, root: N, n: nat, i: nat)
    requires Closed(g) && root in g && Run(g, Start(root), n).active == [] && i < |Run(g, Start(root), n).queue|
    ensures InPlace(g, root, Run(g, Start(root), n).queue, i)
  {
    hide *;
    var m := FinishMoment(g, root, n, i);
    RunInv(g, root, m);
    RunInv(g, root, n);
    PlacedByStack(g, root, Run(g, Start(root), m), Run(g, Start(root), n), i);
  }

  /** A search with nothing active has produced a constructor queue. */
  lemma DoneIsCtorQueue<N>(g: map<N, seq<N>>, root: N, s: Search<N>)
    requires Inv(g, root, s) && s.active == []
    ensures IsCtorQueue(g, root, s.queue) && Yields(g, root, s.queue)
  {
    assert s.queue + s.active == s.queue;
    forall x | x in g && Reaches(g, root, x) ensures x in s.queue { AllQueued(g, root, s, x); }
    var n: nat :| Run(g, Start(root), n) == s;
    assert root in g by { assert root in s.queue + s.active; }
    forall i: nat | i < |s.queue| ensures InPlace(g, root, s.queue, i) { QueuedInPlace(g, root, n, i); }
  }

  /** Queue, stack and the visited DSO together never outnumber the reachable DSOs. */
  lemma MarkedBound<N>(g: map<N, seq<N>>, root: N, s: Search<N>, all: set<N>)
    requires Inv(g, root, s)
    requires forall x :: x in g && Reaches(g, root, x) ==> x in all
    ensures |s.queue| + |s.active| <= |all|
  {
    forall x | x in s.queue + s.active ensures x in all { assert s.Marked(x); }
    DistinctSize(s.queue + s.active, all);
  }

  // What the place of a DSO means for its dependencies

  /** The queued DSOs at `path` lead from the root to the one at `i`, none twice. */
  ghost predicate LeadsTo<N>(g: map<N, seq<N>>, root: N, queue: seq<N>, i: nat, path: seq<nat>)
    requires i < |queue|
  {
    && (forall k :: 0 <= k < |path| ==> path[k] < |queue|)
    && SimplePath(g, root, queue[i], Nodes(queue, path) + [queue[i]])
  }

  /** On every path to it this DSO has a way to `d` around the earlier DSOs of the path. */
  ghost predicate AroundPaths<N>(g: map<N, seq<N>>, root: N, queue: seq<N>, i: nat, d: N)
    requires i < |queue|
  {
    forall path: seq<nat> :: LeadsTo(g, root, queue, i, path) ==> Detours(g, queue[i], d, Nodes(queue, path))
  }

  /** What a DSO reaches around every path to it comes first. */
  lemma AroundPathsFirst<N>(g: map<N, seq<N>>, root: N, queue: seq<N>, i: nat, d: N)
    requires IsCtorQueue(g, root, queue) && i < |queue| && d in g && d != queue[i]
    requires AroundPaths(g, root, queue, i, d)
    ensures d in queue[..i]
  {
    assert InPlace(g, root, queue, i);
    var path: seq<nat> :| FinishedOn(g, root, queue, i, path);
    assert LeadsTo(g, root, queue, i, path);
    assert queue[..i + 1] == queue[..i] + [queue[i]];
  }

  /** What a dependency that cannot reach its dependent reaches comes before the dependent. */
  lemma ReachedFirst<N>(g: map<N, seq<N>>, root: N, queue: seq<N>, i: nat, c: N, d: N)
    requires IsCtorQueue(g, root, queue) && Closed(g) && i < |queue|
    requires c in g[queue[i]] && !Reaches(g, c, queue[i]) && Reaches(g, c, d)
    ensures d in queue[..i]
  {
    var p := queue[i];
    assert InPlace(g, root, queue, i);
    var path: seq<nat> :| FinishedOn(g, root, queue, i, path);
    var stack := Nodes(queue, path);
    var whole := stack + [p];
    forall x | x in stack ensures !Reaches(g, c, x) {
      var k :| 0 <= k < |stack| && stack[k] == x;
      PathReaches(g, root, p, whole, k);
      if Reaches(g, c, x) { ReachesTrans(g, c, x, p); }
    }
    var k: nat :| Walk(g, c, d, k);
    WalkIsDetour(g, c, d, stack, k);
    assert p !in stack by { assert forall j :: 0 <= j < |stack| ==> whole[j] != whole[|stack|]; }
    assert Detour(g, p, d, stack, k + 1);
    ReachesInside(g, c, d);
    assert d in queue[..i + 1];
  }

  lemma ReachesInside<N>(g: map<N, seq<N>>, c: N, d: N)
    requires Closed(g) && c in g && Reaches(g, c, d)
    ensures d in g
  {
    ReachesStaysInside(g, g.Keys, c, d);
  }

  /** A DSO on no cycle comes after all its dependencies, direct or not, whatever the rest of the graph. */
  lemma OffCycleOrder<N>(g: map<N, seq<N>>, root: N, queue: seq<N>, i: nat, d: N)
    requires IsCtorQueue(g, root, queue) && Closed(g) && i < |queue|
    requires !DependsOn(g, queue[i], queue[i]) && DependsOn(g, queue[i], d)
    ensures d in queue[..i]
  {
    var c :| c in g[queue[i]] && Reaches(g, c, d);
    ReachedFirst(g, root, queue, i, c, d);
  }

  /** The root 0 needs 1 and 2, and 1 needs 0. */
  const CYCLE: map<int, seq<int>> := map[0 := [1, 2], 1 := [0], 2 := []]

  lemma CycleRunTail()
    ensures Run(CYCLE, Search([1], [0], map[0 := 0, 1 := 1]), 5) == Search([1, 2, 0], [], map[0 := 2, 1 := 1, 2 := 0])
  {
    var s3 := Search([1], [0], map[0 := 0, 1 := 1]);
    var s4 := Search([1], [0], map[0 := 1, 1 := 1]);
    var s5 := Search([1], [2, 0], map[0 := 1, 1 := 1, 2 := 0]);
    var s6 := Search([1, 2], [0], map[0 := 1, 1 := 1, 2 := 0]);
    var s7 := Search([1, 2], [0], map[0 := 2, 1 := 1, 2 := 0]);
    var s8 := Search([1, 2, 0], [], map[0 := 2, 1 := 1, 2 := 0]);
    assert Step(CYCLE, s3) == s4;
    assert Step(CYCLE, s4) == s5;
    assert Step(CYCLE, s5) == s6;
    assert Step(CYCLE, s6) == s7;
    assert Step(CYCLE, s7) == s8;
    assert Run(CYCLE, s7, 1) == s8;
    assert Run(CYCLE, s6, 2) == s8;
    assert Run(CYCLE, s5, 3) == s8;
    assert Run(CYCLE, s4, 4) == s8;
  }

  /** In a cycle only direct dependencies are ordered: the search queues 1 before 2
      although 1 depends on 2 (through 0) and 2 depends on nothing. */
  lemma IndirectOrderFailsInCycle()
    ensures Closed(CYCLE)
    ensures Run(CYCLE, Start(0), 8).active == [] && Run(CYCLE, Start(0), 8).queue == [1, 2, 0]
    ensures DependsOn(CYCLE, 1, 2) && !Reaches(CYCLE, 2, 1)
  {
    var s1 := Search([], [1, 0], map[0 := 0, 1 := 0]);
    var s2 := Search([], [1, 0], map[0 := 0, 1 := 1]);
    var s3 := Search([1], [0], map[0 := 0, 1 := 1]);
    assert Step(CYCLE, Start(0)) == s1;
    assert Step(CYCLE, s1) == s2;
    assert Step(CYCLE, s2) == s3;
    CycleRunTail();
    assert Run(CYCLE, s2, 6) == Run(CYCLE, s3, 5);
    assert Run(CYCLE, s1, 7) == Run(CYCLE, s2, 6);
    assert 0 in CYCLE[1] && 2 in CYCLE[0];
    ReachesEdge(CYCLE, 0, 2);
    forall k: nat ensures !Walk(CYCLE, 2, 1, k) {}
  }
}
