/** The socket table of net_shim.c and the rings of connections that wait to be accepted. */
module ShimAccept {
  import opened NetShim

  /** One entry of socks; `pcb` is 0 for NULL. */
  datatype Bsock = Bsock(state: State, pcb: nat, acceptq: seq<nat>, head: nat, tail: nat, count: nat)

  const SOCK_FD_BASE := 100
  const SOCK_MAX := 16
  const ACCEPTQ_MAX := 8
  const EAGAIN := 11
  const ENOMEM := 12
  const EINVAL := 22
  const EMFILE := 24
  const EAFNOSUPPORT := 97
  const EADDRINUSE := 98
  const AF_INET := 2
  const SOCK_STREAM := 1

  datatype Err = OK | MEM | VAL

  /** A slot after reset_sock, with this state and pcb. */
  function NewSock(state: State, pcb: nat): Bsock {
    Bsock(state, pcb, [0, 0, 0, 0, 0, 0, 0, 0], 0, 0, 0)
  }

  /** The ring position `i` places after `head`. */
  function Place(head: nat, i: nat): (r: nat)
    requires head < ACCEPTQ_MAX && i <= ACCEPTQ_MAX
    ensures r == if head + i < ACCEPTQ_MAX then head + i else head + i - ACCEPTQ_MAX
  {
    (head + i) % ACCEPTQ_MAX
  }

  predicate RingOk(b: Bsock) {
    |b.acceptq| == ACCEPTQ_MAX && b.head < ACCEPTQ_MAX && b.count <= ACCEPTQ_MAX && b.tail == Place(b.head, b.count)
  }

  /** The slots in the ring, oldest first. */
  ghost function Queue(b: Bsock): (q: seq<nat>)
    requires RingOk(b)
  {
    seq(b.count, i requires 0 <= i < b.count => b.acceptq[Place(b.head, i)])
  }

  lemma PushQueue(b: Bsock, slot: nat)
    requires RingOk(b) && b.count < ACCEPTQ_MAX
    ensures var r := b.(acceptq := b.acceptq[b.tail := slot], tail := Place(b.tail, 1), count := b.count + 1);
            RingOk(r) && Queue(r) == Queue(b) + [slot]
  {
    hide Place;
  }

  lemma PopQueue(b: Bsock)
    requires RingOk(b) && b.count > 0
    ensures var r := b.(head := Place(b.head, 1), count := b.count - 1);
            RingOk(r) && [b.acceptq[b.head]] + Queue(r) == Queue(b)
  {
    hide Place;
    var r := b.(head := Place(b.head, 1), count := b.count - 1);
    assert forall i :: 0 <= i < r.count ==> Place(r.head, i) == Place(b.head, i + 1);
  }

  // What the table stands for

  /**
   * Which slots are free, the queue of each, the connection in each, the connections each listener has
   * accepted and handed out since it was set up, the slots whose descriptors the application holds, those that
   * listen, and those with a live connection.
   */
  datatype View = View(free: seq<bool>, qs: seq<seq<nat>>, conn: seq<nat>, accepted: seq<seq<nat>>,
    handed: seq<seq<nat>>, given: set<nat>, listening: set<nat>, live: set<nat>)

  ghost predicate Waits(qs: seq<seq<nat>>, l: nat, i: nat, s: nat) {
    l < |qs| && i < |qs[l]| && qs[l][i] == s
  }

  ghost function Conns(conn: seq<nat>, q: seq<nat>): (r: seq<nat>)
    ensures |r| == |q|
  {
    if q == [] then [] else [if q[0] < |conn| then conn[q[0]] else 0] + Conns(conn, q[1..])
  }

  ghost predicate Shape(v: View) {
    |v.free| == |v.qs| == |v.conn| == |v.accepted| == |v.handed| == SOCK_MAX
  }

  /**
   * A slot waits in at most one place, is then neither free nor in the application's hands,
   * and every listener hands out what it accepted, in order.
   */
  ghost predicate ViewOk(v: View) {
    && Shape(v) && v.listening <= v.given
    && (forall l: nat, i: nat, s: nat :: Waits(v.qs, l, i, s) ==> s < SOCK_MAX && !v.free[s] && s !in v.given)
    && (forall l: nat, i: nat, m: nat, j: nat, s: nat :: Waits(v.qs, l, i, s) && Waits(v.qs, m, j, s) ==>
          l == m && i == j)
    && (forall l :: 0 <= l < SOCK_MAX ==> v.accepted[l] == v.handed[l] + Conns(v.conn, v.qs[l]))
    && (forall s :: s in v.given ==> s < SOCK_MAX && !v.free[s])
  }

  /** A slot is set up afresh. */
  ghost function Reset(v: View, s: nat): View
    requires Shape(v) && s < SOCK_MAX
  {
    v.(qs := v.qs[s := []], accepted := v.accepted[s := []], handed := v.handed[s := []])
  }

  ghost function Enqueue(v: View, l: nat, s: nat, c: nat): View
    requires Shape(v) && l < SOCK_MAX && s < SOCK_MAX
  {
    var w := Reset(v, s);
    w.(free := w.free[s := false], conn := w.conn[s := c], qs := w.qs[l := w.qs[l] + [s]],
      accepted := w.accepted[l := w.accepted[l] + [c]], live := w.live + {s})
  }

  ghost function Dequeue(v: View, l: nat): View
    requires Shape(v) && l < SOCK_MAX && v.qs[l] != [] && v.qs[l][0] < SOCK_MAX
  {
    v.(qs := v.qs[l := v.qs[l][1..]], handed := v.handed[l := v.handed[l] + [v.conn[v.qs[l][0]]]],
      given := v.given + {v.qs[l][0]})
  }

  ghost function Grant(v: View, s: nat): View
    requires Shape(v) && s < SOCK_MAX
  {
    Reset(v, s).(free := v.free[s := false], given := v.given + {s})
  }

  ghost function Release(v: View, s: nat): View
    requires Shape(v) && s < SOCK_MAX
  {
    v.(free := v.free[s := true], given := v.given - {s}, listening := v.listening - {s}, live := v.live - {s})
  }

  ghost function Listened(v: View, l: nat): View {
    v.(listening := v.listening + {l}, live := v.live - {l})
  }

  ghost function Hurt(v: View, s: nat): View {
    v.(live := v.live - {s})
  }

  lemma {:induction false} ConnsSnoc(conn: seq<nat>, q: seq<nat>, s: nat)
    requires s < |conn|
    ensures Conns(conn, q + [s]) == Conns(conn, q) + [conn[s]]
  {
    if q != [] {
      ConnsSnoc(conn, q[1..], s);
      assert (q + [s])[1..] == q[1..] + [s];
    } else {
      assert q + [s] == [s];
    }
  }

  lemma {:induction false} ConnsSame(conn: seq<nat>, s: nat, c: nat, q: seq<nat>)
    requires s < |conn| && s !in q
    ensures Conns(conn[s := c], q) == Conns(conn, q)
  {
    if q != [] { ConnsSame(conn, s, c, q[1..]); }
  }

  lemma NotQueued(v: View, s: nat)
    requires ViewOk(v) && s < SOCK_MAX && (v.free[s] || s in v.given)
    ensures forall l :: 0 <= l < SOCK_MAX ==> s !in v.qs[l]
  {
    forall l | 0 <= l < SOCK_MAX ensures s !in v.qs[l] {
      if s in v.qs[l] {
        var i :| 0 <= i < |v.qs[l]| && v.qs[l][i] == s;
        assert Waits(v.qs, l, i, s);
      }
    }
  }

  lemma ResetOk(v: View, s: nat)
    requires ViewOk(v) && s < SOCK_MAX
    ensures ViewOk(Reset(v, s))
  {
    var w := Reset(v, s);
    forall l: nat, i: nat, x: nat | Waits(w.qs, l, i, x) ensures Waits(v.qs, l, i, x) {}
  }

  lemma GrantOk(v: View, s: nat)
    requires ViewOk(v) && s < SOCK_MAX && v.free[s]
    ensures ViewOk(Grant(v, s))
  {
    ResetOk(v, s);
    NotQueued(Reset(v, s), s);
  }

  lemma ReleaseOk(v: View, s: nat)
    requires ViewOk(v) && s in v.given
    ensures ViewOk(Release(v, s))
  {
    NotQueued(v, s);
  }

  lemma EnqueueOk(v: View, l: nat, s: nat, c: nat)
    requires ViewOk(v) && l < SOCK_MAX && s < SOCK_MAX && v.free[s] && !v.free[l]
    ensures ViewOk(Enqueue(v, l, s, c))
  {
    ResetOk(v, s);
    var w, x := Reset(v, s), Enqueue(v, l, s, c);
    NotQueued(w, s);
    assert forall m: nat, i: nat, y: nat :: Waits(x.qs, m, i, y) ==>
           Waits(w.qs, m, i, y) || (m == l && i == |w.qs[l]| && y == s);
    forall m | 0 <= m < SOCK_MAX ensures x.accepted[m] == x.handed[m] + Conns(x.conn, x.qs[m]) {
      ConnsSame(w.conn, s, c, w.qs[m]);
      if m == l { ConnsSnoc(x.conn, w.qs[l], s); }
    }
  }

  lemma DequeueOk(v: View, l: nat)
    requires ViewOk(v) && l < SOCK_MAX && v.qs[l] != []
    ensures v.qs[l][0] < SOCK_MAX && !v.free[v.qs[l][0]] && v.qs[l][0] !in v.given && ViewOk(Dequeue(v, l))
    ensures |v.handed[l]| < |v.accepted[l]| && v.conn[v.qs[l][0]] == v.accepted[l][|v.handed[l]|]
  {
    var s := v.qs[l][0];
    assert Waits(v.qs, l, 0, s);
    var w := Dequeue(v, l);
    assert forall m: nat, i: nat, y: nat :: Waits(w.qs, m, i, y) ==> Waits(v.qs, m, if m == l then i + 1 else i, y);
  }

  // What the calls and callbacks do to it

  /** on_accept with its listener, the new pcb and whether its err is ERR_OK, or on_err. */
  datatype Event = Accept(l: nat, pcb: nat, ok: bool) | Err(s: nat)

  datatype Poll = Poll(events: seq<Event>, now: nat)

  /** `Blocked` is a call that is still waiting after the polls given, `Done` one that returned 0. */
  datatype Outcome = Fd(fd: nat) | Failed(errno: int) | Blocked | Done

  ghost function FirstFree(free: seq<bool>): (s: nat)
    ensures s <= |free| && (s < |free| ==> free[s]) && forall i :: 0 <= i < s ==> !free[i]
  {
    if free == [] || free[0] then 0 else 1 + FirstFree(free[1..])
  }

  /** on_accept takes the connection: there is a listener, a place in its ring and a slot. */
  ghost predicate Takes(v: View, e: Event)
    requires Shape(v)
  {
    && e.Accept? && e.l in v.listening && e.l < SOCK_MAX && e.ok && e.pcb != 0
    && |v.qs[e.l]| < ACCEPTQ_MAX && FirstFree(v.free) < SOCK_MAX
  }

  ghost function OnEvent(v: View, e: Event): (w: View)
    requires Shape(v)
    ensures Shape(w)
  {
    if Takes(v, e) then Enqueue(v, e.l, FirstFree(v.free), e.pcb)
    else if e.Err? then Hurt(v, e.s)
    else v
  }

  ghost function OnEvents(v: View, events: seq<Event>): (w: View)
    requires Shape(v)
    ensures Shape(w)
    decreases |events|
  {
    if events == [] then v else OnEvents(OnEvent(v, events[0]), events[1..])
  }

  /** The pcbs that arrive for `l` and are taken, in order. */
  ghost function Arrivals(v: View, events: seq<Event>, l: nat): seq<nat>
    requires Shape(v)
    decreases |events|
  {
    if events == [] then []
    else
      (if Takes(v, events[0]) && events[0].l == l then [events[0].pcb] else [])
      + Arrivals(OnEvent(v, events[0]), events[1..], l)
  }

  /** Callbacks free nothing, hand out nothing, and add to what a listener has accepted what arrives for it. */
  ghost predicate Progress(v: View, w: View) {
    && Shape(v) && Shape(w) && w.given == v.given && w.listening == v.listening
    && forall s :: 0 <= s < SOCK_MAX && !v.free[s] ==>
         !w.free[s] && w.conn[s] == v.conn[s] && w.handed[s] == v.handed[s]
  }

  lemma OnEventOk(v: View, e: Event)
    requires ViewOk(v)
    ensures ViewOk(OnEvent(v, e)) && Progress(v, OnEvent(v, e))
    ensures forall l :: 0 <= l < SOCK_MAX && !v.free[l] ==>
              OnEvent(v, e).accepted[l] == v.accepted[l] + if Takes(v, e) && e.l == l then [e.pcb] else []
  {
    if Takes(v, e) { EnqueueOk(v, e.l, FirstFree(v.free), e.pcb); }
  }

  lemma {:induction false} OnEventsOk(v: View, events: seq<Event>)
    requires ViewOk(v)
    ensures ViewOk(OnEvents(v, events)) && Progress(v, OnEvents(v, events))
    decreases |events|
  {
    hide ViewOk, OnEvent, Takes;
    if events != [] {
      OnEventOk(v, events[0]);
      OnEventsOk(OnEvent(v, events[0]), events[1..]);
    }
  }

  lemma {:induction false} OnEventsAccepted(v: View, events: seq<Event>, l: nat)
    requires ViewOk(v) && l < SOCK_MAX && !v.free[l]
    ensures OnEvents(v, events).accepted[l] == v.accepted[l] + Arrivals(v, events, l)
    decreases |events|
  {
    hide ViewOk, OnEvent, Takes;
    if events != [] {
      OnEventOk(v, events[0]);
      OnEventsAccepted(OnEvent(v, events[0]), events[1..], l);
    }
  }

  /** net_shim_accept on values: the view and the outcome after as many polls as it takes. */
  ghost function AcceptSpec(v: View, l: nat, start: nat, polls: seq<Poll>): (View, Outcome, nat)
    requires ViewOk(v) && l in v.given
    decreases |polls|
  {
    if v.qs[l] != [] then
      DequeueOk(v, l);
      (Dequeue(v, l), Fd(SOCK_FD_BASE + v.qs[l][0]), 0)
    else if l !in v.listening then (v, Failed(EINVAL), 0)
    else if polls == [] then (v, Blocked, 0)
    else
      OnEventsOk(v, polls[0].events);
      var w := OnEvents(v, polls[0].events);
      if Late(start, polls[0].now) then (w, Failed(EAGAIN), 1)
      else
        var (z, r, k) := AcceptSpec(w, l, start, polls[1..]);
        (z, r, k + 1)
  }

  lemma AcceptTakes(v: View, l: nat, start: nat, polls: seq<Poll>)
    requires ViewOk(v) && l in v.given && v.qs[l] != []
    ensures v.qs[l][0] < SOCK_MAX
    ensures AcceptSpec(v, l, start, polls) == (Dequeue(v, l), Fd(SOCK_FD_BASE + v.qs[l][0]), 0)
  {
    DequeueOk(v, l);
  }

  lemma AcceptFails(v: View, l: nat, start: nat, polls: seq<Poll>)
    requires ViewOk(v) && l in v.given && v.qs[l] == [] && (l !in v.listening || polls == [])
    ensures AcceptSpec(v, l, start, polls) == (v, if l !in v.listening then Failed(EINVAL) else Blocked, 0)
  {}

  lemma AcceptPolls(v: View, l: nat, start: nat, polls: seq<Poll>)
    requires ViewOk(v) && l in v.given && v.qs[l] == [] && l in v.listening && polls != []
    ensures ViewOk(OnEvents(v, polls[0].events)) && l in OnEvents(v, polls[0].events).given
    ensures AcceptSpec(v, l, start, polls) ==
            if Late(start, polls[0].now) then (OnEvents(v, polls[0].events), Failed(EAGAIN), 1)
            else Later(AcceptSpec(OnEvents(v, polls[0].events), l, start, polls[1..]), 1)
  {
    OnEventsOk(v, polls[0].events);
  }

  /** What happens in these polls, in order. */
  ghost function During(polls: seq<Poll>): seq<Event> {
    if polls == [] then [] else polls[0].events + During(polls[1..])
  }

  lemma {:induction false} OnEventsConcat(v: View, a: seq<Event>, b: seq<Event>)
    requires Shape(v)
    ensures OnEvents(v, a + b) == OnEvents(OnEvents(v, a), b)
    decreases |a|
  {
    hide OnEvent;
    if a == [] {
      assert a + b == b;
    } else {
      OnEventsConcat(OnEvent(v, a[0]), a[1..], b);
      assert (a + b)[1..] == a[1..] + b;
    }
  }

  ghost function Seen(v: View, polls: seq<Poll>, j: nat): (w: View)
    requires Shape(v) && j <= |polls|
    ensures Shape(w)
  {
    OnEvents(v, During(polls[..j]))
  }

  lemma SeenStep(v: View, polls: seq<Poll>, j: nat)
    requires Shape(v) && polls != [] && j < |polls|
    ensures Seen(v, polls, j + 1) == Seen(OnEvents(v, polls[0].events), polls[1..], j)
  {
    assert polls[..j + 1][1..] == polls[1..][..j];
    OnEventsConcat(v, polls[0].events, During(polls[1..][..j]));
  }

  /** The first `k` polls bring nothing for `l`, but for the last, and are not late, but for the last. */
  ghost predicate WaitsFor(v: View, l: nat, start: nat, polls: seq<Poll>, k: nat) {
    && Shape(v) && l < SOCK_MAX && k <= |polls| && (k > 0 ==> l in v.listening)
    && (forall j: nat :: j < k ==> Seen(v, polls, j).qs[l] == [])
    && (forall j: nat :: j < k - 1 ==> !Late(start, polls[j].now))
  }

  ghost predicate AcceptEnds(w: View, l: nat, lis: bool, late: bool, last: bool, z: View, r: Outcome) {
    && Shape(w) && l < SOCK_MAX
    && match r
       case Fd(fd) =>
         w.qs[l] != [] && !late && w.qs[l][0] < SOCK_MAX && z == Dequeue(w, l) && fd == SOCK_FD_BASE + w.qs[l][0]
       case Failed(errno) => z == w && (if late then errno == EAGAIN else errno == EINVAL && w.qs[l] == [] && !lis)
       case Blocked => z == w && w.qs[l] == [] && !late && last
       case Done => false
  }

  /**
   * net_shim_accept waits through the polls that bring nothing and are not late, and then hands out the oldest
   * connection, or gives up at the first late poll.
   */
  lemma {:induction false} AcceptWaits(v: View, l: nat, start: nat, polls: seq<Poll>)
    requires ViewOk(v) && l in v.given
    ensures var (z, r, k) := AcceptSpec(v, l, start, polls);
            && WaitsFor(v, l, start, polls, k) && ViewOk(Seen(v, polls, k)) && Progress(v, Seen(v, polls, k))
            && AcceptEnds(Seen(v, polls, k), l, l in v.listening,
                 k > 0 && Late(start, polls[k - 1].now), k == |polls|, z, r)
    decreases |polls|
  {
    hide AcceptSpec, ViewOk, Late, OnEvents, Seen;
    SeenNone(v, polls);
    if v.qs[l] != [] {
      AcceptTakes(v, l, start, polls);
    } else if l !in v.listening || polls == [] {
      AcceptFails(v, l, start, polls);
    } else {
      AcceptPolls(v, l, start, polls);
      var w := OnEvents(v, polls[0].events);
      OnEventsOk(v, polls[0].events);
      SeenStep(v, polls, 0);
      SeenNone(w, polls[1..]);
      if !Late(start, polls[0].now) {
        AcceptWaits(w, l, start, polls[1..]);
        var (z, r, k) := AcceptSpec(w, l, start, polls[1..]);
        SeenStep(v, polls, k);
        WaitsLonger(v, l, start, polls, k);
      }
    }
  }

  lemma SeenNone(v: View, polls: seq<Poll>)
    requires ViewOk(v)
    ensures Shape(v) && Seen(v, polls, 0) == v && forall l :: l in v.given ==> l < SOCK_MAX
  {
    assert During(polls[..0]) == [];
  }

  lemma WaitsLonger(v: View, l: nat, start: nat, polls: seq<Poll>, k: nat)
    requires ViewOk(v) && polls != [] && k < |polls| && l in v.listening && l < SOCK_MAX && v.qs[l] == []
    requires WaitsFor(OnEvents(v, polls[0].events), l, start, polls[1..], k) && !Late(start, polls[0].now)
    ensures WaitsFor(v, l, start, polls, k + 1)
  {
    hide OnEvents, Late, Seen, ViewOk;
    SeenNone(v, polls);
    forall j: nat | j < k + 1 ensures Seen(v, polls, j).qs[l] == [] {
      if j > 0 { SeenStep(v, polls, j - 1); }
    }
    forall j: nat | j < k ensures !Late(start, polls[j].now) {
      if j > 0 { assert polls[j] == polls[1..][j - 1]; }
    }
  }

  ghost function SocketSpec(v: View, domain: int, typ: int, newpcb: nat): (View, int)
    requires Shape(v)
  {
    var s := FirstFree(v.free);
    if domain != AF_INET || typ % 256 != SOCK_STREAM then (v, -EAFNOSUPPORT)
    else if s == SOCK_MAX then (v, -EMFILE)
    else if newpcb == 0 then (Reset(v, s), -ENOMEM)
    else (Grant(v, s), SOCK_FD_BASE + s)
  }

  // The table

  ghost predicate Linked(socks: seq<Bsock>, v: View) {
    && |socks| == SOCK_MAX && Shape(v)
    && (forall l :: 0 <= l < SOCK_MAX ==> SlotLinked(socks[l], v, l))
    && (forall l :: l in v.listening || l in v.live ==> l < SOCK_MAX)
  }

  ghost predicate SlotLinked(b: Bsock, v: View, l: nat)
    requires Shape(v) && l < SOCK_MAX
  {
    && RingOk(b) && v.qs[l] == Queue(b) && v.free[l] == (b.state == FREE)
    && (l in v.listening <==> b.state == LISTENING)
    && (l in v.live <==> b.state == CONNECTED && b.pcb != 0) && (l in v.live ==> b.pcb == v.conn[l])
  }

  /** A waiting connection has its pcb, or was reset and has none. */
  predicate PcbTells(b: Bsock) {
    (b.state == CONNECTED && b.pcb != 0) || (b.state == ERROR && b.pcb == 0)
  }

  ghost predicate WaitingOk(socks: seq<Bsock>, qs: seq<seq<nat>>) {
    forall l: nat, i: nat, s: nat :: Waits(qs, l, i, s) ==> s < |socks| && PcbTells(socks[s])
  }

  /** A slot that nobody waits in may change in any way. */
  lemma WaitingElsewhere(socks: seq<Bsock>, qs: seq<seq<nat>>, s: nat, b: Bsock)
    requires WaitingOk(socks, qs) && s < |socks|
    requires PcbTells(b) || forall l :: 0 <= l < |qs| ==> s !in qs[l]
    ensures WaitingOk(socks[s := b], qs)
  {
    forall l: nat, i: nat, x: nat | Waits(qs, l, i, x) ensures x < |socks| && PcbTells(socks[s := b][x]) {
      if x == s { assert s in qs[l]; }
    }
  }

  lemma WaitingFewer(socks: seq<Bsock>, qs: seq<seq<nat>>, s: nat, q: seq<nat>)
    requires WaitingOk(socks, qs) && s < |qs| && forall x :: x in q ==> x in qs[s]
    ensures WaitingOk(socks, qs[s := q])
  {
    var qs' := qs[s := q];
    forall l: nat, i: nat, x: nat | Waits(qs', l, i, x) ensures x < |socks| && PcbTells(socks[x]) {
      if l == s {
        assert x in q;
        var j :| 0 <= j < |qs[s]| && qs[s][j] == x;
        assert Waits(qs, s, j, x);
      } else {
        assert Waits(qs, l, i, x);
      }
    }
  }

  /** socks after on_accept has set up `slot` and stored it in the ring of `l`. */
  function Stored(socks: seq<Bsock>, l: nat, slot: nat, pcb: nat): (r: seq<Bsock>)
    requires l < |socks| && slot < |socks| && l != slot && RingOk(socks[l])
  {
    var b := socks[l];
    socks[slot := NewSock(CONNECTED, pcb)]
         [l := b.(acceptq := b.acceptq[b.tail := slot], tail := Place(b.tail, 1), count := b.count + 1)]
  }

  lemma StoredLinked(socks: seq<Bsock>, v: View, l: nat, slot: nat, pcb: nat)
    requires Linked(socks, v) && l < SOCK_MAX && slot < SOCK_MAX && l != slot && socks[l].count < ACCEPTQ_MAX
    requires socks[l].state == LISTENING && v.free[slot] && pcb != 0
    ensures Linked(Stored(socks, l, slot, pcb), Enqueue(v, l, slot, pcb))
  {
    var socks', w := Stored(socks, l, slot, pcb), Enqueue(v, l, slot, pcb);
    assert SlotLinked(socks[l], v, l) && SlotLinked(socks[slot], v, slot);
    PushQueue(socks[l], slot);
    assert Queue(NewSock(CONNECTED, pcb)) == [];
    hide Queue, RingOk;
    forall m | 0 <= m < SOCK_MAX ensures SlotLinked(socks'[m], w, m) { assert SlotLinked(socks[m], v, m); }
  }

  lemma StoredWaiting(socks: seq<Bsock>, v: View, l: nat, slot: nat, pcb: nat)
    requires Linked(socks, v) && WaitingOk(socks, v.qs) && l < SOCK_MAX && slot < SOCK_MAX && l != slot && pcb != 0
    requires RingOk(socks[l]) && forall m :: 0 <= m < SOCK_MAX ==> slot !in v.qs[m] && l !in v.qs[m]
    ensures WaitingOk(Stored(socks, l, slot, pcb), Enqueue(v, l, slot, pcb).qs)
  {
    hide RingOk, Queue, SlotLinked;
    var qs := v.qs[slot := []];
    var socks' := Stored(socks, l, slot, pcb);
    WaitingFewer(socks, v.qs, slot, []);
    WaitingElsewhere(socks, qs, slot, NewSock(CONNECTED, pcb));
    WaitingElsewhere(socks[slot := NewSock(CONNECTED, pcb)], qs, l, socks'[l]);
    assert socks' == socks[slot := NewSock(CONNECTED, pcb)][l := socks'[l]];
    var qs' := qs[l := qs[l] + [slot]];
    forall m: nat, i: nat, x: nat | Waits(qs', m, i, x) ensures x < |socks'| && PcbTells(socks'[x]) {
      if x != slot { assert Waits(qs, m, i, x); }
    }
  }

  /** One slot changes, and the view only where it speaks of that slot. */
  lemma SlotUpdate(socks: seq<Bsock>, v: View, s: nat, b: Bsock, w: View)
    requires Linked(socks, v) && s < SOCK_MAX && Shape(w) && SlotLinked(b, w, s)
    requires forall l :: 0 <= l < SOCK_MAX && l != s ==>
               w.qs[l] == v.qs[l] && w.free[l] == v.free[l] && w.conn[l] == v.conn[l]
    requires w.listening - {s} == v.listening - {s} && w.live - {s} == v.live - {s}
    ensures Linked(socks[s := b], w)
  {
    hide Queue, RingOk;
    var socks' := socks[s := b];
    forall l | 0 <= l < SOCK_MAX ensures SlotLinked(socks'[l], w, l) {
      if l != s {
        assert SlotLinked(socks[l], v, l);
        assert l in w.listening <==> l in w.listening - {s};
        assert l in w.live <==> l in w.live - {s};
        assert l in v.listening <==> l in v.listening - {s};
        assert l in v.live <==> l in v.live - {s};
      }
    }
    forall l | l in w.listening || l in w.live ensures l < SOCK_MAX {
      if l != s {
        assert l in w.listening - {s} || l in w.live - {s};
      }
    }
  }

  class Shim {
    var socks: seq<Bsock>
    ghost var v: View

    ghost predicate Valid()
      reads this
    {
      Linked(socks, v) && ViewOk(v) && WaitingOk(socks, v.qs)
    }

    constructor ()
      ensures Valid() && v == EmptyView()
    {
      socks := seq(SOCK_MAX, _ => NewSock(FREE, 0));
      v := EmptyView();
    }

    /** alloc_slot: the first free slot, which nobody waits in or holds. */
    method AllocSlot() returns (slot: int)
      requires Valid()
      ensures slot == if FirstFree(v.free) == SOCK_MAX then -1 else FirstFree(v.free)
      ensures slot >= 0 ==> v.free[slot] && slot !in v.given && forall l :: 0 <= l < SOCK_MAX ==> slot !in v.qs[l]
    {
      hide WaitingOk, FirstFree;
      slot := 0;
      while slot < SOCK_MAX
        invariant 0 <= slot <= SOCK_MAX
        invariant forall i :: 0 <= i < slot ==> !v.free[i]
      {
        assert SlotLinked(socks[slot], v, slot);
        if socks[slot].state == FREE {
          NotQueued(v, slot);
          return;
        }
        slot := slot + 1;
      }
      slot := -1;
    }

    /** A listener is in the application's hands and so in no queue. */
    lemma ListenerFacts(l: nat)
      requires Valid() && l < SOCK_MAX
      ensures RingOk(socks[l]) && |v.qs[l]| == socks[l].count && (l in v.listening <==> socks[l].state == LISTENING)
      ensures l in v.given || v.free[l] ==> forall m :: 0 <= m < SOCK_MAX ==> l !in v.qs[m]
      ensures l in v.given ==> !v.free[l]
      ensures l in v.listening ==> l in v.given
    {
      assert SlotLinked(socks[l], v, l);
      if l in v.given || v.free[l] { NotQueued(v, l); }
    }

    /** on_accept, installed on listeners. */
    method OnAccept(l: nat, newpcb: nat, ok: bool) returns (err: Err)
      requires Valid() && l < SOCK_MAX && socks[l].state == LISTENING
      modifies this
      ensures Valid() && v == OnEvent(old(v), Accept(l, newpcb, ok))
      ensures err == VAL <==> !ok || newpcb == 0
      ensures Shape(old(v)) && (err == Err.OK <==> Takes(old(v), Accept(l, newpcb, ok)))
      ensures err == MEM <==> ok && newpcb != 0 && (|old(v).qs[l]| == 8 || forall s :: 0 <= s < 16 ==> !old(v).free[s])
      ensures err != Err.OK ==> socks == old(socks)
      ensures err == Err.OK ==>
                && l < |old(socks)| == SOCK_MAX && FirstFree(old(v).free) < SOCK_MAX && l != FirstFree(old(v).free)
                && RingOk(old(socks)[l]) && socks == Stored(old(socks), l, FirstFree(old(v).free), newpcb)
    {
      hide WaitingOk, ViewOk, Queue, RingOk, SlotLinked;
      ListenerFacts(l);
      if !ok || newpcb == 0 { return VAL; }
      if socks[l].count >= ACCEPTQ_MAX { return MEM; }
      var slot := AllocSlot();
      if slot < 0 { return MEM; }
      EnqueueOk(v, l, slot, newpcb);
      StoredLinked(socks, v, l, slot, newpcb);
      StoredWaiting(socks, v, l, slot, newpcb);
      socks := Stored(socks, l, slot, newpcb);
      v := Enqueue(v, l, slot, newpcb);
      err := Err.OK;
    }

    /** on_err, installed on connected and connecting sockets. */
    method OnErr(s: nat)
      requires Valid() && s < SOCK_MAX && (socks[s].state == CONNECTED || socks[s].state == CONNECTING)
      modifies this
      ensures Valid() && v == Hurt(old(v), s)
      ensures socks == old(socks)[s := old(socks)[s].(pcb := 0, state := ERROR)]
    {
      var b := socks[s].(pcb := 0, state := ERROR);
      assert SlotLinked(socks[s], v, s);
      SlotUpdate(socks, v, s, b, Hurt(v, s));
      WaitingElsewhere(socks, v.qs, s, b);
      hide Linked, WaitingOk;
      socks := socks[s := b];
      v := Hurt(v, s);
    }

    /** net_poll runs the callbacks that are due; one that is not installed is not called. */
    method NetPoll(events: seq<Event>)
      requires Valid()
      modifies this
      ensures Valid() && Shape(old(v)) && v == OnEvents(old(v), events)
    {
      hide WaitingOk, ViewOk, Queue, RingOk, Takes, OnEvent, SlotLinked;
      var i := 0;
      assert events[0..] == events;
      ghost var goal := OnEvents(v, events);
      while i < |events|
        invariant 0 <= i <= |events| && Valid() && OnEvents(v, events[i..]) == goal
      {
        assert events[i..][1..] == events[i + 1..];
        match events[i] {
          case Accept(l, pcb, ok) =>
            if l < SOCK_MAX { ListenerFacts(l); }
            if l < SOCK_MAX && socks[l].state == LISTENING {
              var err := OnAccept(l, pcb, ok);
            } else {
              NotTaken(v, events[i]);
            }
          case Err(s) =>
            HurtIsEvent(v, s);
            if s < SOCK_MAX && socks[s].pcb != 0 && (socks[s].state == CONNECTED || socks[s].state == CONNECTING) {
              OnErr(s);
            } else {
              NotLive(s);
            }
        }
        i := i + 1;
      }
      assert events[i..] == [];
    }

    lemma NotLive(s: nat)
      requires Valid()
      requires s >= SOCK_MAX || socks[s].pcb == 0 || (socks[s].state != CONNECTED && socks[s].state != CONNECTING)
      ensures Hurt(v, s) == v
    {
      if s < SOCK_MAX { assert SlotLinked(socks[s], v, s); }
      assert v.live - {s} == v.live;
    }

    method TakeOldest(l: nat) returns (slot: nat)
      requires Valid() && l in v.given && v.qs[l] != []
      modifies this
      ensures Valid() && slot == old(v.qs[l][0]) && slot < SOCK_MAX == |socks| && v == Dequeue(old(v), l)
      ensures socks[slot] == old(socks)[slot] && socks[slot].pcb == (if slot in v.live then v.conn[slot] else 0)
      ensures socks[slot].pcb == 0 <==> socks[slot].state == ERROR
    {
      assert SlotLinked(socks[l], v, l);
      var b := socks[l];
      slot := b.acceptq[b.head];
      PopQueue(b);
      DequeueOk(v, l);
      NotQueued(v, l);
      assert Waits(v.qs, l, 0, slot);
      assert SlotLinked(socks[slot], v, slot);
      var b' := b.(head := Place(b.head, 1), count := b.count - 1);
      ghost var rest := v.qs[l][1..];
      ghost var qs := v.qs[l := rest];
      assert forall x :: x in rest ==> x in v.qs[l];
      WaitingFewer(socks, v.qs, l, rest);
      assert forall m :: 0 <= m < |qs| ==> l !in qs[m];
      WaitingElsewhere(socks, qs, l, b');
      SlotUpdate(socks, v, l, b', Dequeue(v, l));
      hide WaitingOk, ViewOk, Linked, Queue, RingOk;
      socks := socks[l := b'];
      v := Dequeue(v, l);
    }

    /**
     * net_shim_accept: the oldest waiting connection, or an error. The connection has no pcb, whose address a
     * caller may ask for, exactly when it was reset while it waited; one that waits before the call is handed
     * out at once.
     */
    method NetAccept(l: nat, start: nat, polls: seq<Poll>) returns (r: Outcome, k: nat)
      requires Valid() && l in v.given
      modifies this
      ensures Valid() && ViewOk(old(v)) && (v, r, k) == AcceptSpec(old(v), l, start, polls) && |socks| == SOCK_MAX
      ensures HandsNext(old(v), v, l, r)
      ensures r.Fd? ==>
                && SOCK_FD_BASE <= r.fd < SOCK_FD_BASE + SOCK_MAX
                && var s := r.fd - SOCK_FD_BASE; socks[s].pcb == (if s in v.live then v.conn[s] else 0)
      ensures old(v).qs[l] != [] ==>
                && k == 0 && r == Fd(SOCK_FD_BASE + old(v).qs[l][0]) && old(v).qs[l][0] < |old(socks)|
                && (socks[old(v).qs[l][0]].pcb == 0 <==> old(socks)[old(v).qs[l][0]].state == ERROR)
    {
      hide Linked, WaitingOk, Late, ViewOk, AcceptSpec, OnEvents, HandsNext;
      k := 0;
      Facts();
      ListenerFacts(l);
      assert polls[0..] == polls;
      ghost var goal := AcceptSpec(v, l, start, polls);
      AcceptHandsNext(v, l, start, polls);
      while socks[l].count == 0
        invariant Valid() && |socks| == SOCK_MAX && k <= |polls| && Shape(v) && ViewOk(v)
        invariant l < SOCK_MAX && l in v.given && |v.qs[l]| == socks[l].count
        invariant l in v.listening <==> socks[l].state == LISTENING
        invariant goal == Later(AcceptSpec(v, l, start, polls[k..]), k)
        invariant k == 0 ==> v == old(v) && socks == old(socks)
        invariant k > 0 ==> old(v).qs[l] == []
        decreases |polls| - k
      {
        if socks[l].state != LISTENING || k == |polls| { AcceptFails(v, l, start, polls[k..]); }
        if socks[l].state != LISTENING { return Failed(EINVAL), k; }
        if k == |polls| { return Blocked, k; }
        assert polls[k..][1..] == polls[k + 1..];
        AcceptPolls(v, l, start, polls[k..]);
        NetPoll(polls[k].events);
        Facts();
        ListenerFacts(l);
        k := k + 1;
        if Late(start, polls[k - 1].now) { return Failed(EAGAIN), k; }
      }
      AcceptTakes(v, l, start, polls[k..]);
      var slot := TakeOldest(l);
      r := Fd(SOCK_FD_BASE + slot);
    }

    lemma Facts()
      requires Valid()
      ensures |socks| == SOCK_MAX && Shape(v) && ViewOk(v) && forall l :: l in v.given ==> l < SOCK_MAX && !v.free[l]
    {}

    /** net_shim_socket, with what tcp_new returns. */
    method NetSocket(domain: int, typ: int, newpcb: nat) returns (r: int)
      requires Valid()
      modifies this
      ensures Valid() && Shape(old(v)) && (v, r) == SocketSpec(old(v), domain, typ, newpcb)
      ensures var full := forall s :: 0 <= s < 16 ==> !old(v).free[s];
              && (r == -EAFNOSUPPORT <==> domain != 2 || typ % 256 != 1)
              && (r == -EMFILE <==> domain == 2 && typ % 256 == 1 && full)
              && (r == -ENOMEM <==> domain == 2 && typ % 256 == 1 && !full && newpcb == 0)
              && (r < 0 ==> v.given == old(v).given && v.free == old(v).free)
              && (r >= 0 ==> 100 <= r < 116 && old(v).free[r - 100] && v.given == old(v).given + {r - 100})
      ensures r >= 0 ==>
                SOCK_FD_BASE <= r && r - SOCK_FD_BASE < SOCK_MAX == |old(socks)|
                && socks == old(socks)[r - SOCK_FD_BASE := NewSock(CLOSED, newpcb)]
    {
      hide WaitingOk, ViewOk, Queue, RingOk, SlotLinked;
      if domain != AF_INET || typ % 256 != SOCK_STREAM { return -EAFNOSUPPORT; }
      var slot := AllocSlot();
      if slot < 0 { return -EMFILE; }
      ResetOk(v, slot);
      GrantOk(v, slot);
      SetUp(socks, v, slot, NewSock(FREE, 0), false);
      SetUp(socks, v, slot, NewSock(CLOSED, newpcb), true);
      hide Linked;
      if newpcb == 0 {
        socks := socks[slot := NewSock(FREE, 0)];
        v := Reset(v, slot);
        return -ENOMEM;
      }
      socks := socks[slot := NewSock(CLOSED, newpcb)];
      v := Grant(v, slot);
      r := SOCK_FD_BASE + slot;
    }

    /** net_shim_listen, with what tcp_listen_with_backlog returns. */
    method NetListen(l: nat, lpcb: nat) returns (r: int)
      requires Valid() && l in v.given
      modifies this
      ensures Valid() && l < SOCK_MAX == |old(socks)| && v == if lpcb == 0 then old(v) else Listened(old(v), l)
      ensures socks == if lpcb == 0 then old(socks)
                       else old(socks)[l := old(socks)[l].(pcb := lpcb, state := LISTENING)]
      ensures r == if lpcb == 0 then -EADDRINUSE else 0
    {
      r := -EADDRINUSE;
      if lpcb != 0 {
        var b := socks[l].(pcb := lpcb, state := LISTENING);
        assert SlotLinked(socks[l], v, l);
        NotQueued(v, l);
        SlotUpdate(socks, v, l, b, Listened(v, l));
        WaitingElsewhere(socks, v.qs, l, b);
        hide Linked, WaitingOk;
        socks := socks[l := b];
        v := Listened(v, l);
        r := 0;
      }
    }

    /** net_shim_close: a closed listener keeps its ring until the slot is set up again. */
    method NetClose(s: nat)
      requires Valid() && s in v.given
      modifies this
      ensures Valid() && s < SOCK_MAX == |old(socks)| && v == Release(old(v), s)
      ensures socks == old(socks)[s := old(socks)[s].(state := FREE)]
    {
      ReleaseOk(v, s);
      NotQueued(v, s);
      assert SlotLinked(socks[s], v, s);
      var b := socks[s].(state := FREE);
      SlotUpdate(socks, v, s, b, Release(v, s));
      WaitingElsewhere(socks, v.qs, s, b);
      hide WaitingOk, ViewOk, Linked;
      socks := socks[s := b];
      v := Release(v, s);
    }
  }

  ghost function EmptyView(): View {
    View(seq(SOCK_MAX, _ => true), seq(SOCK_MAX, _ => []), seq(SOCK_MAX, _ => 0), seq(SOCK_MAX, _ => []),
      seq(SOCK_MAX, _ => []), {}, {}, {})
  }

  lemma NotTaken(v: View, e: Event)
    requires Shape(v) && e.Accept? && (e.l >= SOCK_MAX || e.l !in v.listening)
    ensures OnEvent(v, e) == v
  {}

  lemma HurtIsEvent(v: View, s: nat)
    requires Shape(v)
    ensures OnEvent(v, Err(s)) == Hurt(v, s)
  {}

  /** `k` polls have passed before. */
  ghost function Later(a: (View, Outcome, nat), k: nat): (View, Outcome, nat) {
    (a.0, a.1, a.2 + k)
  }

  /** A free slot is set up afresh, and given to the application or not. */
  lemma SetUp(socks: seq<Bsock>, v: View, s: nat, b: Bsock, give: bool)
    requires Linked(socks, v) && WaitingOk(socks, v.qs) && s < SOCK_MAX && v.free[s]
    requires forall l :: 0 <= l < SOCK_MAX ==> s !in v.qs[l]
    requires b == NewSock(b.state, b.pcb) && b.state == if give then CLOSED else FREE
    ensures var w := if give then Grant(v, s) else Reset(v, s);
            Linked(socks[s := b], w) && WaitingOk(socks[s := b], w.qs)
  {
    assert RingOk(b) && Queue(b) == [];
    assert SlotLinked(socks[s], v, s);
    WaitingFewer(socks, v.qs, s, []);
    WaitingElsewhere(socks, v.qs[s := []], s, b);
    hide WaitingOk, Queue, RingOk;
    SlotUpdate(socks, v, s, b, if give then Grant(v, s) else Reset(v, s));
  }

  // What every run of calls and callbacks does

  datatype Call =
    | NewSocket(domain: int, typ: int, newpcb: nat)
    | Listen(l: nat, lpcb: nat)
    | AcceptOn(l: nat, start: nat, polls: seq<Poll>)
    | Close(s: nat)
    | Callbacks(events: seq<Event>)

  /** One call on values; an application uses only the descriptors it holds. */
  ghost function StepSpec(v: View, c: Call): (View, Outcome)
    requires ViewOk(v)
  {
    match c
    case NewSocket(domain, typ, newpcb) =>
      var (w, r) := SocketSpec(v, domain, typ, newpcb);
      (w, if r >= 0 then Fd(r) else Failed(-r))
    case Listen(l, lpcb) =>
      if l !in v.given then (v, Done)
      else if lpcb == 0 then (v, Failed(EADDRINUSE))
      else (Listened(v, l), Done)
    case AcceptOn(l, start, polls) =>
      if l !in v.given then (v, Done)
      else
        var (w, r, k) := AcceptSpec(v, l, start, polls);
        (w, r)
    case Close(s) => (if s in v.given then Release(v, s) else v, Done)
    case Callbacks(events) => (OnEvents(v, events), Done)
  }

  /** The callbacks that run within a call. */
  ghost function Within(v: View, c: Call): seq<Event>
    requires ViewOk(v)
  {
    match c
    case AcceptOn(l, start, polls) =>
      if l !in v.given then []
      else
        AcceptWaits(v, l, start, polls);
        During(polls[..AcceptSpec(v, l, start, polls).2])
    case Callbacks(events) => events
    case _ => []
  }

  /** The connections that the application is handed by `l`: what is in the slot of the descriptor it gets. */
  ghost function HandedNow(v: View, c: Call, l: nat): seq<nat>
    requires ViewOk(v)
  {
    var (w, r) := StepSpec(v, c);
    if c.AcceptOn? && c.l == l && r.Fd? && SOCK_FD_BASE <= r.fd < SOCK_FD_BASE + |w.conn|
    then [w.conn[r.fd - SOCK_FD_BASE]] else []
  }

  /** A descriptor that is given out was not held, and is held from then on until it is closed. */
  ghost predicate GivesOnce(given: set<nat>, c: Call, r: Outcome, given': set<nat>) {
    if r.Fd? then
      && SOCK_FD_BASE <= r.fd < SOCK_FD_BASE + SOCK_MAX && r.fd - SOCK_FD_BASE !in given
      && given' == given + {r.fd - SOCK_FD_BASE}
    else given' == if c.Close? then given - {c.s} else given
  }

  ghost predicate StepOk(v: View, c: Call, w: View, r: Outcome)
    requires ViewOk(v)
  {
    && ViewOk(w) && GivesOnce(v.given, c, r, w.given)
    && forall l :: l in v.given && c != Close(l) ==>
         && l < SOCK_MAX && l in w.given
         && w.accepted[l] == v.accepted[l] + Arrivals(v, Within(v, c), l)
         && w.handed[l] == v.handed[l] + HandedNow(v, c, l)
  }

  lemma SocketStep(v: View, c: Call)
    requires ViewOk(v) && c.NewSocket?
    ensures var (w, r) := StepSpec(v, c); StepOk(v, c, w, r)
  {
    var s := FirstFree(v.free);
    if s < SOCK_MAX {
      GrantOk(v, s);
      ResetOk(v, s);
    }
  }

  /** What waiting through the polls of an accept brings, and what handing out the oldest then does. */
  lemma AcceptBrings(v: View, c: Call, l: nat)
    requires ViewOk(v) && c.AcceptOn? && c.l in v.given && l in v.given
    ensures var k := AcceptSpec(v, c.l, c.start, c.polls).2;
            && k <= |c.polls| && Shape(v) && l < SOCK_MAX
            && var w := Seen(v, c.polls, k);
            && ViewOk(w) && w.given == v.given && w.handed[l] == v.handed[l]
            && w.accepted[l] == v.accepted[l] + Arrivals(v, Within(v, c), l)
  {
    hide AcceptSpec, AcceptEnds, Late;
    AcceptWaits(v, c.l, c.start, c.polls);
    OnEventsAccepted(v, Within(v, c), l);
  }

  lemma EndsIn(w: View, l: nat, lis: bool, late: bool, last: bool, z: View, r: Outcome, c: Call, m: nat)
    requires ViewOk(w) && AcceptEnds(w, l, lis, late, last, z, r) && c.AcceptOn? && m in w.given
    ensures ViewOk(z) && Shape(z) && GivesOnce(w.given, c, r, z.given)
    ensures m < SOCK_MAX && z.accepted[m] == w.accepted[m]
    ensures z.handed[m] == w.handed[m] + if m == l && r.Fd? then [z.conn[r.fd - SOCK_FD_BASE]] else []
  {
    if r.Fd? { DequeueOk(w, l); }
  }

  lemma AcceptStepFor(v: View, c: Call, l: nat)
    requires ViewOk(v) && c.AcceptOn? && c.l in v.given && l in v.given
    ensures var (z, r) := StepSpec(v, c);
            && ViewOk(z) && GivesOnce(v.given, c, r, z.given) && l < SOCK_MAX
            && z.accepted[l] == v.accepted[l] + Arrivals(v, Within(v, c), l)
            && z.handed[l] == v.handed[l] + HandedNow(v, c, l)
  {
    hide AcceptSpec, AcceptEnds, Late, Seen, Within, Arrivals, Progress, ViewOk, OnEvents, During;
    AcceptWaits(v, c.l, c.start, c.polls);
    AcceptBrings(v, c, l);
    var (z, r, k) := AcceptSpec(v, c.l, c.start, c.polls);
    var w := Seen(v, c.polls, k);
    var late := k > 0 && Late(c.start, c.polls[k - 1].now);
    EndsIn(w, c.l, c.l in v.listening, late, k == |c.polls|, z, r, c, l);
  }

  /** The connection handed out is the next of what `l` accepted, in a slot that was not held, and the only one. */
  ghost predicate HandsNext(v: View, z: View, l: nat, r: Outcome) {
    && Shape(v) && Shape(z)
    && (forall m :: m in v.given ==> m < SOCK_MAX && ((m == l && r.Fd?) || z.handed[m] == v.handed[m]))
    && if r.Fd? then
         && SOCK_FD_BASE <= r.fd < SOCK_FD_BASE + SOCK_MAX && l < SOCK_MAX && r.fd - SOCK_FD_BASE !in v.given
         && z.given == v.given + {r.fd - SOCK_FD_BASE}
         && z.handed[l] == v.handed[l] + [z.conn[r.fd - SOCK_FD_BASE]] && z.handed[l] <= z.accepted[l]
       else z.given == v.given
  }

  lemma AcceptHandsNext(v: View, l: nat, start: nat, polls: seq<Poll>)
    requires ViewOk(v) && l in v.given
    ensures var (z, r, k) := AcceptSpec(v, l, start, polls); HandsNext(v, z, l, r)
  {
    var c := AcceptOn(l, start, polls);
    AcceptStepFor(v, c, l);
    var (z, r) := StepSpec(v, c);
    hide AcceptSpec, Within, Arrivals;
    forall m | m in v.given ensures m < SOCK_MAX && z.handed[m] == v.handed[m] + HandedNow(v, c, m) {
      AcceptStepFor(v, c, m);
    }
  }

  lemma AcceptStep(v: View, c: Call)
    requires ViewOk(v) && c.AcceptOn? && c.l in v.given
    ensures var (w, r) := StepSpec(v, c); StepOk(v, c, w, r)
  {
    AcceptStepFor(v, c, c.l);
    hide StepSpec, Within, Arrivals, HandedNow;
    var z := StepSpec(v, c).0;
    forall l | l in v.given
      ensures l < SOCK_MAX && l in z.given && z.handed[l] == v.handed[l] + HandedNow(v, c, l)
      ensures z.accepted[l] == v.accepted[l] + Arrivals(v, Within(v, c), l)
    {
      AcceptStepFor(v, c, l);
    }
  }

  lemma StepIsOk(v: View, c: Call)
    requires ViewOk(v)
    ensures var (w, r) := StepSpec(v, c); StepOk(v, c, w, r)
  {
    match c {
      case NewSocket(_, _, _) => SocketStep(v, c);
      case Listen(_, _) =>
      case AcceptOn(l, _, _) => if l in v.given { AcceptStep(v, c); }
      case Close(s) => if s in v.given { ReleaseOk(v, s); }
      case Callbacks(events) =>
        OnEventsOk(v, events);
        forall l | l in v.given
          ensures OnEvents(v, events).accepted[l] == v.accepted[l] + Arrivals(v, events, l)
        {
          OnEventsAccepted(v, events, l);
        }
    }
  }

  ghost function RunSpec(v: View, calls: seq<Call>): (View, seq<Outcome>)
    requires ViewOk(v)
    decreases |calls|
  {
    if calls == [] then (v, [])
    else
      StepIsOk(v, calls[0]);
      var (w, r) := StepSpec(v, calls[0]);
      var (z, rs) := RunSpec(w, calls[1..]);
      (z, [r] + rs)
  }

  /** What the application holds, told from its calls and their results alone. */
  ghost function HeldAfter(given: set<nat>, c: Call, r: Outcome): set<nat> {
    if r.Fd? && r.fd >= SOCK_FD_BASE then given + {r.fd - SOCK_FD_BASE}
    else if c.Close? then given - {c.s}
    else given
  }

  ghost function Held(given: set<nat>, calls: seq<Call>, results: seq<Outcome>): set<nat>
    requires |calls| == |results|
    decreases |calls|
  {
    if calls == [] then given else Held(HeldAfter(given, calls[0], results[0]), calls[1..], results[1..])
  }

  /** A descriptor is given out only while the application does not hold it. */
  ghost predicate NeverTwice(given: set<nat>, calls: seq<Call>, results: seq<Outcome>)
    requires |calls| == |results|
    decreases |calls|
  {
    calls != [] ==>
      && (results[0].Fd? ==> results[0].fd >= SOCK_FD_BASE && results[0].fd - SOCK_FD_BASE !in given)
      && NeverTwice(HeldAfter(given, calls[0], results[0]), calls[1..], results[1..])
  }

  /** The connections that arrive for `l` and are taken in a run. */
  ghost function Arrived(v: View, calls: seq<Call>, l: nat): seq<nat>
    requires ViewOk(v)
    decreases |calls|
  {
    if calls == [] then []
    else
      StepIsOk(v, calls[0]);
      Arrivals(v, Within(v, calls[0]), l) + Arrived(StepSpec(v, calls[0]).0, calls[1..], l)
  }

  /** The connections that `l` hands the application in a run. */
  ghost function HandedOver(v: View, calls: seq<Call>, l: nat): seq<nat>
    requires ViewOk(v)
    decreases |calls|
  {
    if calls == [] then []
    else
      StepIsOk(v, calls[0]);
      HandedNow(v, calls[0], l) + HandedOver(StepSpec(v, calls[0]).0, calls[1..], l)
  }

  lemma {:induction false} RunHolds(v: View, calls: seq<Call>)
    requires ViewOk(v)
    ensures var (z, rs) := RunSpec(v, calls);
            ViewOk(z) && |rs| == |calls| && z.given == Held(v.given, calls, rs) && NeverTwice(v.given, calls, rs)
    decreases |calls|
  {
    hide ViewOk, StepSpec, Within, HandedNow;
    if calls != [] {
      StepIsOk(v, calls[0]);
      var (w, r) := StepSpec(v, calls[0]);
      RunHolds(w, calls[1..]);
      var (z, rs) := RunSpec(w, calls[1..]);
      assert ([r] + rs)[1..] == rs;
    }
  }

  ghost predicate InOrder(v: View, z: View, calls: seq<Call>, l: nat)
    requires ViewOk(v)
  {
    && Shape(z) && l < SOCK_MAX && l in z.given && z.handed[l] <= z.accepted[l]
    && z.accepted[l] == v.accepted[l] + Arrived(v, calls, l)
    && z.handed[l] == v.handed[l] + HandedOver(v, calls, l)
  }

  lemma StepInOrder(v: View, c: Call, l: nat)
    requires ViewOk(v) && l in v.given && c != Close(l)
    ensures var w := StepSpec(v, c).0;
            && ViewOk(w) && l < SOCK_MAX && l in w.given
            && w.accepted[l] == v.accepted[l] + Arrivals(v, Within(v, c), l)
            && w.handed[l] == v.handed[l] + HandedNow(v, c, l)
  {
    hide StepSpec, Within, HandedNow, GivesOnce;
    StepIsOk(v, c);
  }

  lemma HandedFront(v: View, l: nat)
    requires ViewOk(v) && l in v.given
    ensures Shape(v) && l < SOCK_MAX && v.handed[l] <= v.accepted[l]
  {}

  /**
   * A listener that stays open accepts what arrives for it, in order, and what it hands out, in the slots of the
   * descriptors that the calls return, is the front of that.
   */
  lemma {:induction false} RunInOrder(v: View, calls: seq<Call>, l: nat)
    requires ViewOk(v) && l in v.given && Close(l) !in calls
    ensures InOrder(v, RunSpec(v, calls).0, calls, l)
    decreases |calls|
  {
    hide StepSpec, Within, HandedNow, ViewOk, StepOk, Arrivals, GivesOnce, AcceptSpec, OnEvents, SocketSpec;
    HandedFront(v, l);
    if calls != [] {
      StepInOrder(v, calls[0], l);
      RunInOrder(StepSpec(v, calls[0]).0, calls[1..], l);
    }
  }

  /** A waiting connection keeps its pcb exactly until it is reset. */
  lemma {:induction false} LiveUntilReset(v: View, events: seq<Event>, s: nat)
    requires ViewOk(v) && s < SOCK_MAX && !v.free[s]
    ensures s in OnEvents(v, events).live <==> s in v.live && Err(s) !in events
    decreases |events|
  {
    if events != [] {
      OnEventOk(v, events[0]);
      hide ViewOk;
      LiveUntilReset(OnEvent(v, events[0]), events[1..], s);
    }
  }

  lemma ShapeFacts(s: Shim)
    requires s.Valid()
    ensures Shape(s.v) && ViewOk(s.v) && forall l :: l in s.v.given ==> l < SOCK_MAX
  {}

  method Do(s: Shim, c: Call, held: set<nat>) returns (r: Outcome, held': set<nat>)
    requires s.Valid() && s.v.given == held
    modifies s
    ensures s.Valid() && s.v.given == held' && ViewOk(old(s.v)) && (s.v, r) == StepSpec(old(s.v), c)
  {
    hide Linked, WaitingOk, ViewOk, AcceptSpec, OnEvents, SocketSpec;
    ShapeFacts(s);
    StepIsOk(s.v, c);
    r, held' := Done, held;
    match c {
      case NewSocket(domain, typ, newpcb) =>
        var x := s.NetSocket(domain, typ, newpcb);
        if x >= 0 {
          r, held' := Fd(x), held + {x - SOCK_FD_BASE};
        } else {
          r := Failed(-x);
        }
      case Listen(l, lpcb) =>
        if l in held {
          var x := s.NetListen(l, lpcb);
          if x != 0 { r := Failed(-x); }
        }
      case AcceptOn(l, start, polls) =>
        if l in held {
          var k;
          r, k := s.NetAccept(l, start, polls);
          if r.Fd? { held' := held + {r.fd - SOCK_FD_BASE}; }
        }
      case Close(x) =>
        if x in held {
          s.NetClose(x);
          held' := held - {x};
        }
      case Callbacks(events) =>
        s.NetPoll(events);
    }
  }

  /**
   * Over any run of calls and callbacks a descriptor is given out only while the application does not hold it,
   * and every listener that stays open hands out, in order, the front of what arrives for it.
   */
  method Run(s: Shim, calls: seq<Call>, held: set<nat>) returns (results: seq<Outcome>, held': set<nat>)
    requires s.Valid() && s.v.given == held
    modifies s
    ensures s.Valid() && ViewOk(old(s.v)) && (s.v, results) == RunSpec(old(s.v), calls)
    ensures |results| == |calls| && s.v.given == held' == Held(held, calls, results)
    ensures NeverTwice(held, calls, results)
    ensures forall l :: l in held && Close(l) !in calls ==> InOrder(old(s.v), s.v, calls, l)
  {
    hide *;
    ghost var v := s.v;
    ShapeFacts(s);
    RunHolds(v, calls);
    forall l | l in held && Close(l) !in calls ensures InOrder(v, RunSpec(v, calls).0, calls, l) {
      RunInOrder(v, calls, l);
    }
    results, held' := [], held;
    var i := 0;
    assert calls[0..] == calls;
    ghost var goal := RunSpec(v, calls);
    Joined([], goal);
    while i < |calls|
      invariant 0 <= i <= |calls| && s.Valid() && s.v.given == held' && ViewOk(s.v)
      invariant goal == Join(results, RunSpec(s.v, calls[i..]))
    {
      RunUnfold(s.v, calls[i..], results);
      assert calls[i..][1..] == calls[i + 1..];
      var r;
      r, held' := Do(s, calls[i], held');
      ShapeFacts(s);
      results := results + [r];
      i := i + 1;
    }
    assert calls[i..] == [];
    RunEnds(s.v, results);
  }

  ghost function Join(results: seq<Outcome>, rest: (View, seq<Outcome>)): (View, seq<Outcome>) {
    (rest.0, results + rest.1)
  }

  lemma Joined(results: seq<Outcome>, rest: (View, seq<Outcome>))
    ensures Join([], rest) == rest
  {
    assert [] + rest.1 == rest.1;
  }

  lemma RunUnfold(v: View, calls: seq<Call>, results: seq<Outcome>)
    requires ViewOk(v) && calls != []
    ensures var (w, r) := StepSpec(v, calls[0]);
            ViewOk(w) && Join(results, RunSpec(v, calls)) == Join(results + [r], RunSpec(w, calls[1..]))
  {
    StepIsOk(v, calls[0]);
    var (w, r) := StepSpec(v, calls[0]);
    var (z, rs) := RunSpec(w, calls[1..]);
    assert results + ([r] + rs) == results + [r] + rs;
  }

  lemma RunEnds(v: View, results: seq<Outcome>)
    requires ViewOk(v)
    ensures Join(results, RunSpec(v, [])) == (v, results)
  {
    assert results + [] == results;
  }

  /** A connection that arrives and is reset before it is accepted is handed out without a pcb. */
  lemma ResetInQueue(v: View, l: nat, start: nat, c: nat, now: nat)
    requires ViewOk(v) && l in v.listening && v.qs[l] == [] && c != 0 && FirstFree(v.free) < SOCK_MAX
    requires !Late(start, now)
    ensures var s := FirstFree(v.free);
            var (z, r, k) := AcceptSpec(v, l, start, [Poll([Accept(l, c, true), Err(s)], now)]);
            r == Fd(SOCK_FD_BASE + s) && s !in z.live
  {
    var s := FirstFree(v.free);
    var events := [Accept(l, c, true), Err(s)];
    var polls := [Poll(events, now)];
    AcceptPolls(v, l, start, polls);
    var w := OnEvents(v, events);
    var v1 := OnEvent(v, events[0]);
    assert v1 == Enqueue(v, l, s, c);
    assert events[1..] == [Err(s)];
    assert w == OnEvents(v1, [Err(s)]);
    assert [Err(s)][1..] == [];
    assert w == OnEvents(OnEvent(v1, Err(s)), []);
    HurtIsEvent(v1, s);
    assert w == Hurt(v1, s);
    AcceptTakes(w, l, start, polls[1..]);
  }

  lemma OneListener()
    ensures var v := Listened(Grant(EmptyView(), 0), 0);
            && SocketSpec(EmptyView(), AF_INET, SOCK_STREAM, 1) == (Grant(EmptyView(), 0), SOCK_FD_BASE)
            && Shape(EmptyView()) && 0 in v.given && 0 in v.listening && v.qs[0] == [] && FirstFree(v.free) == 1
            && !Late(0, 0) && 0 < SOCK_MAX && 1 < SOCK_MAX && 0 in Grant(EmptyView(), 0).given
  {
    var v := Listened(Grant(EmptyView(), 0), 0);
    assert !v.free[0] && v.free[1];
  }

  method HandOutReset() returns (r: Outcome, pcb: nat)
    ensures r == Fd(SOCK_FD_BASE + 1) && pcb == 0
  {
    hide *;
    OneListener();
    var s := new Shim();
    var fd := s.NetSocket(AF_INET, SOCK_STREAM, 1);
    var x := s.NetListen(0, 1);
    ShapeFacts(s);
    ResetInQueue(s.v, 0, 0, 5, 0);
    var k;
    r, k := s.NetAccept(0, 0, [Poll([Accept(0, 5, true), Err(1)], 0)]);
    pcb := s.socks[1].pcb;
  }
}
