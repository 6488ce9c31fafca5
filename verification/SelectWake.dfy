/** lwip_select against event callbacks, without core locking: every protected section is one
    atomic step, and steps of any number of select calls and callbacks interleave freely. */
module SelectWake {

  datatype Kind = Recv | Send | Err

  datatype Sock = Sock(rcvevent: int, sendevent: bool, errevent: bool, selectWaiting: nat) {
    predicate Active(k: Kind) {
      match k
      case Recv => rcvevent > 0
      case Send => sendevent
      case Err => errevent
    }
  }

  /** Where a select call is between two protected sections. `Counting(i)`, `Rescanning(i)` and
      `Dropping(i, end)` are its loops over the descriptors below `maxfd`. */
  datatype Pc = Counting(i: nat) | Rescanning(i: nat) | Waiting | Dropping(i: nat, end: nat)

  /** A select call and its entry on select_cb_list. */
  datatype Sel = Sel(maxfd: nat, readset: set<nat>, writeset: set<nat>, exceptset: set<nat>,
                     pc: Pc, found: bool, signalled: bool, sem: nat) {
    predicate Wants(fd: nat, k: Kind) {
      match k
      case Recv => fd in readset
      case Send => fd in writeset
      case Err => fd in exceptset
    }

    predicate Interested(fd: nat) {
      fd < maxfd && (fd in readset || fd in writeset || fd in exceptset)
    }

    /** Whether this call is counted in `selectWaiting` of `fd`. */
    predicate Counted(fd: nat) {
      && Interested(fd)
      && match pc
         case Counting(i) => fd < i
         case Dropping(i, end) => i <= fd < end
         case _ => true
    }

    /** Whether the second scan has passed `fd` and found nothing so far. */
    predicate Relies(fd: nat) {
      && fd < maxfd && !found
      && match pc
         case Rescanning(i) => fd < i
         case Waiting => true
         case _ => false
    }
  }

  /** select_check_waiters in progress: before its first section, or unprotected after the entry
      at list position `at`, when the generation counter was `last`. */
  datatype Walk = Start | After(at: nat, last: nat)

  datatype Callback = Callback(fd: nat, has: set<Kind>, walk: Walk)

  datatype State = State(socks: seq<Sock>, sels: map<nat, Sel>, list: seq<nat>, ctr: nat, cbs: map<nat, Callback>)

  datatype Event = RcvPlus | RcvMinus | SendPlus | SendMinus | Error

  datatype Step =
    | Link(t: nat, maxfd: nat, readset: set<nat>, writeset: set<nat>, exceptset: set<nat>)
    | Count(t: nat)
    | CountFails(t: nat)
    | Rescan(t: nat, lastdata: bool)
    | RescanFails(t: nat)
    | Wake(t: nat)
    | Timeout(t: nat)
    | Drop(t: nat)
    | Unlink(t: nat)
    | Callback_(c: nat, fd: nat, evt: Event)
    | Visit(c: nat)

  const SELWAIT_LIMIT := 256

  function Initial(nsocks: nat): State {
    State(seq(nsocks, _ => Sock(0, false, false, 0)), map[], [], 0, map[])
  }

  // Select calls

  function SetSel(s: State, t: nat, e: Sel): State {
    s.(sels := s.sels[t := e])
  }

  function Adjust(s: State, fd: nat, d: int): State
    requires fd < |s.socks| && s.socks[fd].selectWaiting + d >= 0
  {
    s.(socks := s.socks[fd := s.socks[fd].(selectWaiting := s.socks[fd].selectWaiting + d)])
  }

  function Remove(list: seq<nat>, t: nat): seq<nat> {
    if list == [] then [] else if list[0] == t then list[1..] else [list[0]] + Remove(list[1..], t)
  }

  /** One socket of the counting loop; a full counter makes select fail. */
  function DoCount(s: State, t: nat): State
    requires t in s.sels && s.sels[t].pc.Counting?
  {
    var e := s.sels[t];
    var i := e.pc.i;
    if i >= e.maxfd then SetSel(s, t, e.(pc := Rescanning(0)))
    else if !e.Interested(i) then SetSel(s, t, e.(pc := Counting(i + 1)))
    else if i >= |s.socks| || s.socks[i].selectWaiting + 1 >= SELWAIT_LIMIT then SetSel(s, t, e.(pc := Dropping(0, i)))
    else SetSel(Adjust(s, i, 1), t, e.(pc := Counting(i + 1)))
  }

  /** One socket of the second scan; `lastdata` says whether it holds unread data of an earlier receive. */
  function DoRescan(s: State, t: nat, lastdata: bool): State
    requires t in s.sels && s.sels[t].pc.Rescanning?
  {
    var e := s.sels[t];
    var i := e.pc.i;
    if i >= e.maxfd then SetSel(s, t, e.(pc := if e.found then Dropping(0, e.maxfd) else Waiting))
    else if !e.Interested(i) then SetSel(s, t, e.(pc := Rescanning(i + 1)))
    else if i >= |s.socks| then SetSel(s, t, e.(pc := Dropping(0, e.maxfd)))
    else
      var sock := s.socks[i];
      var ready := (i in e.readset && (lastdata || sock.rcvevent > 0))
                   || (i in e.writeset && sock.sendevent)
                   || (i in e.exceptset && sock.errevent);
      SetSel(s, t, e.(pc := Rescanning(i + 1), found := e.found || ready))
  }

  function DoDrop(s: State, t: nat): State
    requires t in s.sels && s.sels[t].pc.Dropping?
  {
    var e := s.sels[t];
    var i := e.pc.i;
    var s' := if e.Interested(i) && i < |s.socks| && s.socks[i].selectWaiting > 0 then Adjust(s, i, -1) else s;
    SetSel(s', t, e.(pc := Dropping(i + 1, e.pc.end)))
  }

  // Callbacks

  /** The socket after the event, and whether waiters must be checked. */
  function OnEvent(k: Sock, evt: Event): (Sock, bool) {
    match evt
    case RcvPlus => (k.(rcvevent := k.rcvevent + 1), k.rcvevent + 1 <= 1)
    case RcvMinus => (k.(rcvevent := k.rcvevent - 1), false)
    case SendPlus => (k.(sendevent := true), !k.sendevent)
    case SendMinus => (k.(sendevent := false), false)
    case Error => (k.(errevent := true), true)
  }

  function ActiveKinds(k: Sock): (r: set<Kind>)
    ensures forall x :: x in r <==> k.Active(x)
  {
    (if k.Active(Recv) then {Recv} else {})
    + (if k.Active(Send) then {Send} else {})
    + (if k.Active(Err) then {Err} else {})
  }

  function DoCallback(s: State, c: nat, fd: nat, evt: Event): State
    requires fd < |s.socks|
  {
    var (sock, check) := OnEvent(s.socks[fd], evt);
    var s' := s.(socks := s.socks[fd := sock]);
    if sock.selectWaiting > 0 && check then s'.(cbs := s.cbs[c := Callback(fd, ActiveKinds(sock), Start)]) else s'
  }

  /** The body of the list loop for one entry. */
  function Signal(e: Sel, fd: nat, has: set<Kind>): Sel {
    if !e.signalled && ((Recv in has && fd in e.readset) || (Send in has && fd in e.writeset)
      || (Err in has && fd in e.exceptset))
    then e.(signalled := true, sem := e.sem + 1) else e
  }

  function VisitAt(s: State, c: nat, j: nat): State
    requires c in s.cbs && j < |s.list| && s.list[j] in s.sels
  {
    var cb := s.cbs[c];
    SetSel(s, s.list[j], Signal(s.sels[s.list[j]], cb.fd, cb.has)).(cbs := s.cbs[c := cb.(walk := After(j, s.ctr))])
  }

  /** One protected section of select_check_waiters: go on behind the last entry, or start again
      when the list has changed. */
  function DoVisit(s: State, c: nat): State
    requires c in s.cbs && forall t :: t in s.list ==> t in s.sels
  {
    var j := match s.cbs[c].walk
             case Start => 0
             case After(at, last) => if last != s.ctr then 0 else at + 1;
    if j < |s.list| then VisitAt(s, c, j) else s.(cbs := s.cbs - {c})
  }

  ghost predicate Enabled(s: State, a: Step) {
    match a
    case Link(t, _, _, _, _) => t !in s.sels
    case Count(t) => t in s.sels && s.sels[t].pc.Counting?
    case CountFails(t) => t in s.sels && s.sels[t].pc.Counting? && s.sels[t].pc.i < s.sels[t].maxfd
    case Rescan(t, _) => t in s.sels && s.sels[t].pc.Rescanning?
    case RescanFails(t) => t in s.sels && s.sels[t].pc.Rescanning?
    case Wake(t) => t in s.sels && s.sels[t].pc.Waiting? && s.sels[t].sem > 0
    case Timeout(t) => t in s.sels && s.sels[t].pc.Waiting?
    case Drop(t) => t in s.sels && s.sels[t].pc.Dropping? && s.sels[t].pc.i < s.sels[t].pc.end
    case Unlink(t) => t in s.sels && s.sels[t].pc.Dropping? && s.sels[t].pc.i >= s.sels[t].pc.end
    case Callback_(c, fd, _) => c !in s.cbs && fd < |s.socks|
    case Visit(c) => c in s.cbs && forall t :: t in s.list ==> t in s.sels
  }

  ghost function Next(s: State, a: Step): State
    requires Enabled(s, a)
  {
    match a
    case Link(t, maxfd, r, w, x) =>
      SetSel(s, t, Sel(maxfd, r, w, x, Counting(0), false, false, 0)).(list := [t] + s.list, ctr := s.ctr + 1)
    case Count(t) => DoCount(s, t)
    case CountFails(t) => SetSel(s, t, s.sels[t].(pc := Dropping(0, s.sels[t].pc.i)))
    case Rescan(t, lastdata) => DoRescan(s, t, lastdata)
    case RescanFails(t) => SetSel(s, t, s.sels[t].(pc := Dropping(0, s.sels[t].maxfd)))
    case Wake(t) => SetSel(s, t, s.sels[t].(pc := Dropping(0, s.sels[t].maxfd), sem := s.sels[t].sem - 1))
    case Timeout(t) => SetSel(s, t, s.sels[t].(pc := Dropping(0, s.sels[t].maxfd)))
    case Drop(t) => DoDrop(s, t)
    case Unlink(t) => s.(sels := s.sels - {t}, list := Remove(s.list, t), ctr := s.ctr + 1)
    case Callback_(c, fd, evt) => DoCallback(s, c, fd, evt)
    case Visit(c) => DoVisit(s, c)
  }

  // The invariant

  ghost predicate ListOk(s: State) {
    && (forall t :: t in s.list <==> t in s.sels)
    && (forall i, j :: 0 <= i < j < |s.list| ==> s.list[i] != s.list[j])
    && (forall c :: c in s.cbs && s.cbs[c].walk.After? && s.cbs[c].walk.last == s.ctr ==> s.cbs[c].walk.at < |s.list|)
    && (forall c :: c in s.cbs && s.cbs[c].walk.After? ==> s.cbs[c].walk.last <= s.ctr)
  }

  ghost function Counters(s: State, fd: nat): set<nat> {
    set t | t in s.sels && s.sels[t].Counted(fd)
  }

  /** `selectWaiting` is the number of select calls counted in it. */
  ghost predicate CountOk(s: State) {
    && (forall fd: nat :: fd < |s.socks| ==> s.socks[fd].selectWaiting == |Counters(s, fd)|)
    && (forall t, fd: nat :: t in s.sels && s.sels[t].Counted(fd) ==> fd < |s.socks|)
  }

  /** An entry that is signalled has its semaphore up until the select call takes it, and a call
      sleeps only if its second scan found nothing. */
  ghost predicate SemOk(s: State) {
    && (forall t :: t in s.sels && !s.sels[t].pc.Dropping? ==> s.sels[t].sem == if s.sels[t].signalled then 1 else 0)
    && (forall t :: t in s.sels && s.sels[t].pc.Waiting? ==> !s.sels[t].found)
  }

  /** Callback `c` carries event `k` of `fd` and has the entry of `t` still ahead of it. */
  ghost predicate WillSignal(s: State, c: nat, t: nat, fd: nat, k: Kind) {
    && c in s.cbs && s.cbs[c].fd == fd && k in s.cbs[c].has
    && match s.cbs[c].walk
       case Start => true
       case After(at, last) => last == s.ctr ==> exists j :: at < j < |s.list| && s.list[j] == t
  }

  /** The call `t` has been signalled for event `k` of `fd`, or will be by a callback in flight. */
  ghost predicate Covered(s: State, t: nat, fd: nat, k: Kind)
    requires t in s.sels
  {
    s.sels[t].signalled || exists c :: WillSignal(s, c, t, fd, k)
  }

  /** Event `k` of `fd` is there although the call `t`, which wants it, has stopped looking for it. */
  ghost predicate Present(s: State, t: nat, fd: nat, k: Kind)
    requires t in s.sels
  {
    fd < |s.socks| && s.sels[t].Relies(fd) && s.sels[t].Wants(fd, k) && s.socks[fd].Active(k)
  }

  ghost predicate WakeOk(s: State) {
    forall t, fd: nat, k :: t in s.sels && Present(s, t, fd, k) ==> Covered(s, t, fd, k)
  }

  ghost predicate Inv(s: State) {
    ListOk(s) && CountOk(s) && SemOk(s) && WakeOk(s)
  }

  lemma InitialInv(nsocks: nat)
    ensures Inv(Initial(nsocks))
  {
    var s := Initial(nsocks);
    forall fd: nat | fd < |s.socks| ensures s.socks[fd].selectWaiting == |Counters(s, fd)| {
      assert Counters(s, fd) == {};
    }
  }

  // Steps of select calls

  /** A step that moves `t` without changing what it is counted for keeps the counters. */
  lemma SameCounters(s: State, s': State)
    requires CountOk(s) && |s'.socks| == |s.socks|
    requires forall fd: nat :: fd < |s.socks| ==> s'.socks[fd].selectWaiting == s.socks[fd].selectWaiting
    requires forall t, fd: nat :: t in s.sels && s.sels[t].Counted(fd) <==> t in s'.sels && s'.sels[t].Counted(fd)
    ensures CountOk(s')
  {
    forall fd: nat | fd < |s'.socks| ensures s'.socks[fd].selectWaiting == |Counters(s', fd)| {
      assert Counters(s', fd) == Counters(s, fd);
    }
  }

  /** Changing the list stales every walk in progress, so each restarts and still meets every entry. */
  lemma StaleWalks(s: State, s': State, t: nat, fd: nat, k: Kind)
    requires ListOk(s) && s'.ctr == s.ctr + 1 && s'.cbs == s.cbs
    requires t in s.sels && t in s'.sels && s'.sels[t] == s.sels[t] && Covered(s, t, fd, k)
    ensures Covered(s', t, fd, k)
  {
    if !s.sels[t].signalled {
      var c :| WillSignal(s, c, t, fd, k);
      assert WillSignal(s', c, t, fd, k);
    }
  }

  lemma LinkInv(s: State, t: nat, maxfd: nat, r: set<nat>, w: set<nat>, x: set<nat>)
    requires Inv(s) && t !in s.sels
    ensures Inv(Next(s, Link(t, maxfd, r, w, x)))
  {
    var s' := Next(s, Link(t, maxfd, r, w, x));
    assert ListOk(s');
    SameCounters(s, s');
    forall u, fd: nat, k | u in s'.sels && Present(s', u, fd, k) ensures Covered(s', u, fd, k) {
      assert Present(s, u, fd, k);
      StaleWalks(s, s', u, fd, k);
    }
  }

  lemma {:induction false} RemoveMembers(list: seq<nat>, t: nat)
    requires forall i, j :: 0 <= i < j < |list| ==> list[i] != list[j]
    ensures forall x :: x in Remove(list, t) <==> x in list && x != t
    ensures forall i, j :: 0 <= i < j < |Remove(list, t)| ==> Remove(list, t)[i] != Remove(list, t)[j]
  {
    if list != [] {
      var rest := list[1..];
      assert list == [list[0]] + rest;
      assert list[0] !in rest;
      RemoveMembers(rest, t);
    }
  }

  lemma UnlinkInv(s: State, t: nat)
    requires Inv(s) && Enabled(s, Unlink(t))
    ensures Inv(Next(s, Unlink(t)))
  {
    var s' := Next(s, Unlink(t));
    RemoveMembers(s.list, t);
    assert ListOk(s');
    SameCounters(s, s');
    forall u, fd: nat, k | u in s'.sels && Present(s', u, fd, k) ensures Covered(s', u, fd, k) {
      assert Present(s, u, fd, k);
      StaleWalks(s, s', u, fd, k);
    }
  }

  /** Moving one call, with list and callbacks as they were: only that call can lose cover. */
  lemma MoveWake(s: State, s': State, t: nat)
    requires WakeOk(s) && t in s.sels && t in s'.sels && s'.list == s.list && s'.ctr == s.ctr && s'.cbs == s.cbs
    requires s'.sels == s.sels[t := s'.sels[t]] && s'.sels[t].signalled == s.sels[t].signalled
    requires |s'.socks| == |s.socks| && forall fd: nat, k :: fd < |s.socks| ==>
             (s'.socks[fd].Active(k) <==> s.socks[fd].Active(k))
    requires forall fd: nat, k :: Present(s', t, fd, k) ==> Present(s, t, fd, k)
    ensures WakeOk(s')
  {
    forall u, fd: nat, k | u in s'.sels && Present(s', u, fd, k) ensures Covered(s', u, fd, k) {
      assert Present(s, u, fd, k);
      if !s.sels[u].signalled {
        var c :| WillSignal(s, c, u, fd, k);
        assert WillSignal(s', c, u, fd, k);
      }
    }
  }

  /** Moving one call only keeps the whole invariant. */
  lemma MoveInv(s: State, t: nat, e: Sel)
    requires Inv(s) && t in s.sels && e.signalled == s.sels[t].signalled
    requires forall fd: nat :: e.Counted(fd) <==> s.sels[t].Counted(fd)
    requires e.pc.Dropping? || (e.sem == s.sels[t].sem && !s.sels[t].pc.Dropping?)
    requires e.pc.Waiting? ==> !e.found
    requires forall fd: nat, k :: fd < |s.socks| && e.Relies(fd) && e.Wants(fd, k) && s.socks[fd].Active(k) ==>
             Present(s, t, fd, k)
    ensures Inv(SetSel(s, t, e))
  {
    var s' := SetSel(s, t, e);
    SameCounters(s, s');
    MoveWake(s, s', t);
  }

  /** Joining or leaving the counter of one socket. */
  lemma AdjustCount(s: State, t: nat, i: nat, e: Sel, d: int)
    requires CountOk(s) && t in s.sels && i < |s.socks|
    requires forall fd: nat :: fd != i ==> (e.Counted(fd) <==> s.sels[t].Counted(fd))
    requires e.Counted(i) != s.sels[t].Counted(i) && d == if e.Counted(i) then 1 else -1
    ensures s.socks[i].selectWaiting + d >= 0 && CountOk(SetSel(Adjust(s, i, d), t, e))
  {
    if d == -1 { assert t in Counters(s, i); }
    var s' := SetSel(Adjust(s, i, d), t, e);
    forall fd: nat | fd < |s'.socks| ensures s'.socks[fd].selectWaiting == |Counters(s', fd)| {
      if fd != i {
        assert Counters(s', fd) == Counters(s, fd);
      } else if d == 1 {
        assert Counters(s', fd) == Counters(s, fd) + {t} && t !in Counters(s, fd);
      } else {
        assert Counters(s', fd) == Counters(s, fd) - {t};
      }
    }
  }

  lemma JoinInv(s: State, t: nat, i: nat, e: Sel)
    requires Inv(s) && t in s.sels && i < |s.socks| && !s.sels[t].Counted(i) && e.Counted(i)
    requires forall fd: nat :: fd != i ==> (e.Counted(fd) <==> s.sels[t].Counted(fd))
    requires e.signalled == s.sels[t].signalled && e.sem == s.sels[t].sem && !s.sels[t].pc.Dropping?
    requires e.pc.Counting?
    ensures Inv(SetSel(Adjust(s, i, 1), t, e))
  {
    AdjustCount(s, t, i, e, 1);
    hide CountOk;
    MoveWake(s, SetSel(Adjust(s, i, 1), t, e), t);
  }

  lemma LeaveInv(s: State, t: nat, i: nat, e: Sel)
    requires Inv(s) && t in s.sels && i < |s.socks| && s.sels[t].Counted(i) && !e.Counted(i)
    requires forall fd: nat :: fd != i ==> (e.Counted(fd) <==> s.sels[t].Counted(fd))
    requires e.signalled == s.sels[t].signalled && e.pc.Dropping?
    ensures s.socks[i].selectWaiting > 0 && Inv(SetSel(Adjust(s, i, -1), t, e))
  {
    AdjustCount(s, t, i, e, -1);
    hide CountOk;
    MoveWake(s, SetSel(Adjust(s, i, -1), t, e), t);
  }

  lemma CountInv(s: State, t: nat)
    requires Inv(s) && Enabled(s, Count(t))
    ensures Inv(DoCount(s, t))
  {
    var e := s.sels[t];
    var i := e.pc.i;
    if i >= e.maxfd {
      MoveInv(s, t, e.(pc := Rescanning(0)));
    } else if !e.Interested(i) {
      MoveInv(s, t, e.(pc := Counting(i + 1)));
    } else if i >= |s.socks| || s.socks[i].selectWaiting + 1 >= SELWAIT_LIMIT {
      MoveInv(s, t, e.(pc := Dropping(0, i)));
    } else {
      JoinInv(s, t, i, e.(pc := Counting(i + 1)));
    }
  }

  lemma RescanInv(s: State, t: nat, lastdata: bool)
    requires Inv(s) && Enabled(s, Rescan(t, lastdata))
    ensures Inv(DoRescan(s, t, lastdata))
  {
    MoveInv(s, t, DoRescan(s, t, lastdata).sels[t]);
  }

  lemma DropInv(s: State, t: nat)
    requires Inv(s) && Enabled(s, Drop(t))
    ensures Inv(DoDrop(s, t))
  {
    var e := s.sels[t];
    var i := e.pc.i;
    var e' := e.(pc := Dropping(i + 1, e.pc.end));
    hide WakeOk, ListOk, SemOk, Present;
    DropMoves(e);
    if e.Interested(i) {
      CountedHere(s, t, i);
      assert DoDrop(s, t) == SetSel(Adjust(s, i, -1), t, e');
      hide *;
      LeaveInv(s, t, i, e');
    } else {
      assert DoDrop(s, t) == SetSel(s, t, e');
      assert forall fd: nat :: e'.Counted(fd) <==> e.Counted(fd);
      hide *;
      MoveInv(s, t, e');
    }
  }

  /** Dropping one descriptor changes what the call is counted for there only. */
  lemma DropMoves(e: Sel)
    requires e.pc.Dropping? && e.pc.i < e.pc.end
    ensures var i, e' := e.pc.i, e.(pc := Dropping(e.pc.i + 1, e.pc.end));
            && (forall fd: nat :: fd != i ==> (e'.Counted(fd) <==> e.Counted(fd)))
            && !e'.Counted(i) && (e.Counted(i) <==> e.Interested(i)) && forall fd: nat :: !e'.Relies(fd)
  {}

  /** What a call is counted in is a socket with a count above zero. */
  lemma CountedHere(s: State, t: nat, fd: nat)
    requires CountOk(s) && t in s.sels && s.sels[t].Counted(fd)
    ensures fd < |s.socks| && s.socks[fd].selectWaiting > 0
  {
    assert t in Counters(s, fd);
  }

  // Steps of callbacks

  /** An event that becomes present asks for the waiters to be checked and is among those passed on. */
  lemma EventRaises(k: Sock, evt: Event, kind: Kind)
    requires !k.Active(kind) && OnEvent(k, evt).0.Active(kind)
    ensures OnEvent(k, evt).1 && kind in ActiveKinds(OnEvent(k, evt).0)
  {}

  lemma CallbackWake(s: State, c: nat, fd: nat, evt: Event)
    requires Inv(s) && Enabled(s, Callback_(c, fd, evt))
    ensures WakeOk(DoCallback(s, c, fd, evt))
  {
    var s' := DoCallback(s, c, fd, evt);
    forall t, f: nat, k | t in s'.sels && Present(s', t, f, k) ensures Covered(s', t, f, k) {
      if s.socks[f].Active(k) {
        assert Present(s, t, f, k);
        if !s.sels[t].signalled {
          var d :| WillSignal(s, d, t, f, k);
          assert WillSignal(s', d, t, f, k);
        }
      } else {
        EventRaises(s.socks[f], evt, k);
        assert t in Counters(s, f);
        assert WillSignal(s', c, t, f, k);
      }
    }
  }

  lemma CallbackInv(s: State, c: nat, fd: nat, evt: Event)
    requires Inv(s) && Enabled(s, Callback_(c, fd, evt))
    ensures Inv(DoCallback(s, c, fd, evt))
  {
    CallbackWake(s, c, fd, evt);
    SameCounters(s, DoCallback(s, c, fd, evt));
  }

  /** Signalling changes nothing a call is counted for or relies on. */
  lemma SignalFacts(e: Sel, fd: nat, has: set<Kind>)
    ensures var e' := Signal(e, fd, has);
            && (forall f: nat :: (e'.Counted(f) <==> e.Counted(f)) && (e'.Relies(f) <==> e.Relies(f)))
            && (forall f: nat, k :: e'.Wants(f, k) <==> e.Wants(f, k))
            && (e.signalled ==> e' == e)
            && (forall k :: k in has && e.Wants(fd, k) ==> e'.signalled)
  {}

  /** Visiting the entry at `j` signals it if it had to be, and leaves later entries to come. */
  lemma VisitCovers(s: State, c: nat, j: nat, t: nat, fd: nat, k: Kind)
    requires ListOk(s) && c in s.cbs && j < |s.list| && t in s.sels && s.sels[t].Wants(fd, k)
    requires Covered(s, t, fd, k)
    requires s.cbs[c].walk.After? && s.cbs[c].walk.last == s.ctr ==> j == s.cbs[c].walk.at + 1
    requires !(s.cbs[c].walk.After? && s.cbs[c].walk.last == s.ctr) ==> j == 0
    ensures Covered(VisitAt(s, c, j), t, fd, k)
  {
    var s' := VisitAt(s, c, j);
    SignalFacts(s.sels[s.list[j]], s.cbs[c].fd, s.cbs[c].has);
    if !s'.sels[t].signalled {
      var d :| WillSignal(s, d, t, fd, k);
      if d == c {
        assert t in s.list;
        var m :| 0 <= m < |s.list| && s.list[m] == t && j <= m;
        assert s.list[j] != t;
        assert j < m < |s'.list| && s'.list[m] == t;
      }
      assert WillSignal(s', d, t, fd, k);
    }
  }

  /** A callback that ends has no entry left ahead of it. */
  lemma EndCovers(s: State, c: nat, t: nat, fd: nat, k: Kind)
    requires ListOk(s) && c in s.cbs && t in s.sels && Covered(s, t, fd, k)
    requires DoVisit(s, c) == s.(cbs := s.cbs - {c})
    ensures Covered(DoVisit(s, c), t, fd, k)
  {
    var s' := DoVisit(s, c);
    if !s.sels[t].signalled {
      var d :| WillSignal(s, d, t, fd, k);
      assert t in s.list;
      assert c !in s'.cbs;
      assert d != c;
      assert WillSignal(s', d, t, fd, k);
    }
  }

  ghost function NextPos(s: State, c: nat): nat
    requires c in s.cbs
  {
    match s.cbs[c].walk
    case Start => 0
    case After(at, last) => if last != s.ctr then 0 else at + 1
  }

  lemma VisitInv(s: State, c: nat)
    requires Inv(s) && Enabled(s, Visit(c))
    ensures Inv(DoVisit(s, c))
  {
    var s' := DoVisit(s, c);
    var j := NextPos(s, c);
    if j < |s.list| {
      SignalFacts(s.sels[s.list[j]], s.cbs[c].fd, s.cbs[c].has);
      assert ListOk(s');
    }
    SameCounters(s, s');
    forall t, fd: nat, k | t in s'.sels && Present(s', t, fd, k) ensures Covered(s', t, fd, k) {
      assert Present(s, t, fd, k);
      if j < |s.list| { VisitCovers(s, c, j, t, fd, k); } else { EndCovers(s, c, t, fd, k); }
    }
  }

  // Runs

  lemma StepInv(s: State, a: Step)
    requires Inv(s) && Enabled(s, a)
    ensures Inv(Next(s, a))
  {
    hide Inv;
    match a
    case Link(t, maxfd, r, w, x) => LinkInv(s, t, maxfd, r, w, x);
    case Count(t) => CountInv(s, t);
    case Rescan(t, lastdata) => RescanInv(s, t, lastdata);
    case Drop(t) => DropInv(s, t);
    case Unlink(t) => UnlinkInv(s, t);
    case Callback_(c, fd, evt) => CallbackInv(s, c, fd, evt);
    case Visit(c) => VisitInv(s, c);
    case CountFails(t) => MoveInv(s, t, s.sels[t].(pc := Dropping(0, s.sels[t].pc.i)));
    case RescanFails(t) => MoveInv(s, t, s.sels[t].(pc := Dropping(0, s.sels[t].maxfd)));
    case Wake(t) => MoveInv(s, t, s.sels[t].(pc := Dropping(0, s.sels[t].maxfd), sem := s.sels[t].sem - 1));
    case Timeout(t) => MoveInv(s, t, s.sels[t].(pc := Dropping(0, s.sels[t].maxfd)));
  }

  /** `steps` can be taken one after another from `s` and lead to `s'`. */
  ghost predicate Runs(s: State, steps: seq<Step>, s': State)
    decreases |steps|
  {
    if steps == [] then s == s' else Enabled(s, steps[0]) && Runs(Next(s, steps[0]), steps[1..], s')
  }

  ghost predicate Reachable(s: State) {
    exists n: nat, steps: seq<Step> :: Runs(Initial(n), steps, s)
  }

  lemma {:induction false} RunsInv(s: State, steps: seq<Step>, s': State)
    requires Inv(s) && Runs(s, steps, s')
    ensures Inv(s')
    decreases |steps|
  {
    hide Inv, Enabled, Next;
    if steps != [] {
      StepInv(s, steps[0]);
      RunsInv(Next(s, steps[0]), steps[1..], s');
    }
  }

  lemma ReachableInv(s: State)
    requires Reachable(s)
    ensures Inv(s)
  {
    var n: nat, steps: seq<Step> :| Runs(Initial(n), steps, s);
    InitialInv(n);
    RunsInv(Initial(n), steps, s);
  }

  // What a run has brought, told from its steps alone

  predicate IsEvent(a: Step, fd: nat, evt: Event) {
    a.Callback_? && a.fd == fd && a.evt == evt
  }

  /** How often the event came to the socket. */
  ghost function Came(steps: seq<Step>, fd: nat, evt: Event): nat {
    if steps == [] then 0 else (if IsEvent(steps[0], fd, evt) then 1 else 0) + Came(steps[1..], fd, evt)
  }

  /** Event `k` is there: more was received than taken, the last report was of room to send, an error came. */
  ghost predicate Pending(steps: seq<Step>, fd: nat, k: Kind) {
    match k
    case Recv => Came(steps, fd, RcvPlus) > Came(steps, fd, RcvMinus)
    case Send => exists i :: CanSendSince(steps, fd, i)
    case Err => exists i :: 0 <= i < |steps| && IsEvent(steps[i], fd, Error)
  }

  ghost predicate CanSendSince(steps: seq<Step>, fd: nat, i: int) {
    && 0 <= i < |steps| && IsEvent(steps[i], fd, SendPlus)
    && forall j :: i < j < |steps| ==> !IsEvent(steps[j], fd, SendMinus)
  }

  lemma StepEvents(s: State, a: Step, fd: nat)
    requires Enabled(s, a) && fd < |s.socks|
    ensures var s1 := Next(s, a);
            && |s1.socks| == |s.socks|
            && s1.socks[fd].rcvevent == s.socks[fd].rcvevent
              + (if IsEvent(a, fd, RcvPlus) then 1 else 0) - (if IsEvent(a, fd, RcvMinus) then 1 else 0)
            && (s1.socks[fd].sendevent <==>
                IsEvent(a, fd, SendPlus) || (s.socks[fd].sendevent && !IsEvent(a, fd, SendMinus)))
            && (s1.socks[fd].errevent <==> s.socks[fd].errevent || IsEvent(a, fd, Error))
  {}

  ghost predicate Sent(steps: seq<Step>, fd: nat, had: bool) {
    Pending(steps, fd, Send) || (had && forall j :: 0 <= j < |steps| ==> !IsEvent(steps[j], fd, SendMinus))
  }

  lemma SentStep(steps: seq<Step>, fd: nat, had: bool)
    requires steps != []
    ensures Sent(steps, fd, had) <==>
            Sent(steps[1..], fd, IsEvent(steps[0], fd, SendPlus) || (had && !IsEvent(steps[0], fd, SendMinus)))
  {
    var rest := steps[1..];
    assert forall j :: 0 < j < |steps| ==> steps[j] == rest[j - 1];
    assert forall j :: 0 <= j < |rest| ==> rest[j] == steps[j + 1];
    if i :| CanSendSince(rest, fd, i) { assert CanSendSince(steps, fd, i + 1); }
    if IsEvent(steps[0], fd, SendPlus) && forall j :: 0 <= j < |rest| ==> !IsEvent(rest[j], fd, SendMinus) {
      assert CanSendSince(steps, fd, 0);
    }
    if i :| CanSendSince(steps, fd, i) {
      if i > 0 { assert CanSendSince(rest, fd, i - 1); }
    }
  }

  lemma ErrStep(steps: seq<Step>, fd: nat)
    requires steps != []
    ensures Pending(steps, fd, Err) <==> IsEvent(steps[0], fd, Error) || Pending(steps[1..], fd, Err)
  {
    var rest := steps[1..];
    if i :| 0 <= i < |rest| && IsEvent(rest[i], fd, Error) { assert steps[i + 1] == rest[i]; }
    if i :| 0 <= i < |steps| && IsEvent(steps[i], fd, Error) {
      if i > 0 { assert steps[i] == rest[i - 1]; }
    }
  }

  lemma {:induction false} RunsEvents(s: State, steps: seq<Step>, s': State, fd: nat)
    requires Runs(s, steps, s') && fd < |s.socks|
    ensures |s'.socks| == |s.socks|
    ensures s'.socks[fd].rcvevent == s.socks[fd].rcvevent + Came(steps, fd, RcvPlus) - Came(steps, fd, RcvMinus)
    ensures s'.socks[fd].sendevent <==> Sent(steps, fd, s.socks[fd].sendevent)
    ensures s'.socks[fd].errevent <==> s.socks[fd].errevent || Pending(steps, fd, Err)
    decreases |steps|
  {
    if steps != [] {
      hide Enabled, Next, Pending, Sent;
      StepEvents(s, steps[0], fd);
      SentStep(steps, fd, s.socks[fd].sendevent);
      ErrStep(steps, fd);
      RunsEvents(Next(s, steps[0]), steps[1..], s', fd);
    }
  }

  /** A socket is ready exactly for what the steps of the run have brought and not taken away. */
  lemma ReadyIff(n: nat, steps: seq<Step>, s: State, fd: nat, k: Kind)
    requires Runs(Initial(n), steps, s) && fd < n
    ensures |s.socks| == n && (s.socks[fd].Active(k) <==> Pending(steps, fd, k))
    ensures s.socks[fd].rcvevent == Came(steps, fd, RcvPlus) - Came(steps, fd, RcvMinus)
  {
    hide Runs, Came;
    RunsEvents(Initial(n), steps, s, fd);
  }

  /** This step links the call `t`, which asks for event `k` of `fd`. */
  predicate AsksFor(a: Step, t: nat, fd: nat, k: Kind) {
    && a.Link? && a.t == t && fd < a.maxfd
    && match k
       case Recv => fd in a.readset
       case Send => fd in a.writeset
       case Err => fd in a.exceptset
  }

  /** The call `t` has asked for event `k` of `fd` and has not returned. */
  ghost predicate Asks(steps: seq<Step>, t: nat, fd: nat, k: Kind) {
    exists i :: AsksSince(steps, t, fd, k, i)
  }

  ghost predicate AsksSince(steps: seq<Step>, t: nat, fd: nat, k: Kind, i: int) {
    0 <= i < |steps| && AsksFor(steps[i], t, fd, k) && Unlink(t) !in steps[i + 1..]
  }

  ghost predicate Asking(s: State, t: nat, fd: nat, k: Kind) {
    t in s.sels && fd < s.sels[t].maxfd && s.sels[t].Wants(fd, k)
  }

  lemma StepAsking(s: State, a: Step, t: nat, fd: nat, k: Kind)
    requires Enabled(s, a)
    ensures AsksFor(a, t, fd, k) ==> Asking(Next(s, a), t, fd, k)
    ensures Asking(s, t, fd, k) && a != Unlink(t) ==> Asking(Next(s, a), t, fd, k)
  {}

  lemma {:induction false} RunsAsking(s: State, steps: seq<Step>, s': State, t: nat, fd: nat, k: Kind)
    requires Runs(s, steps, s') && ((Asking(s, t, fd, k) && Unlink(t) !in steps) || Asks(steps, t, fd, k))
    ensures Asking(s', t, fd, k)
    decreases |steps|
  {
    if steps != [] {
      hide Enabled, Next, Asking, AsksFor;
      StepAsking(s, steps[0], t, fd, k);
      var rest := steps[1..];
      if i :| AsksSince(steps, t, fd, k, i) {
        if i > 0 {
          assert steps[i] == rest[i - 1] && steps[i + 1..] == rest[i..];
          assert AsksSince(rest, t, fd, k, i - 1);
        } else {
          assert steps[i + 1..] == rest;
        }
      }
      RunsAsking(Next(s, steps[0]), rest, s', t, fd, k);
    }
  }

  /** No lost wake-up: whenever a select call sleeps although an event that it asked for is there, its
      semaphore is up or a callback in flight has its entry ahead. */
  lemma NoLostWakeup(n: nat, steps: seq<Step>, s: State, t: nat, fd: nat, k: Kind)
    requires Runs(Initial(n), steps, s) && fd < n && Asks(steps, t, fd, k) && Pending(steps, fd, k)
    ensures t in s.sels
    ensures s.sels[t].pc.Waiting? ==> s.sels[t].sem > 0 || exists c :: WillSignal(s, c, t, fd, k)
  {
    hide Runs, Pending, Asks;
    RunsAsking(Initial(n), steps, s, t, fd, k);
    ReadyIff(n, steps, s, fd, k);
    assert Reachable(s);
    ReachableInv(s);
    if s.sels[t].pc.Waiting? { assert Present(s, t, fd, k); }
  }

  // A call comes to its end

  function Rest(end: nat, i: nat): nat {
    if i < end then end - i else 0
  }

  /** A bound on the steps that a call still takes before it is unlinked. */
  function Left(e: Sel): nat {
    match e.pc
    case Counting(i) => Rest(e.maxfd, i) + 2 * e.maxfd + 4
    case Rescanning(i) => Rest(e.maxfd, i) + e.maxfd + 3
    case Waiting => e.maxfd + 2
    case Dropping(i, end) => Rest(end, i)
  }

  /** A step of the call `t` itself, before its entry is unlinked. */
  predicate Own(a: Step, t: nat) {
    (a.Count? || a.CountFails? || a.Rescan? || a.RescanFails? || a.Wake? || a.Timeout? || a.Drop?) && a.t == t
  }

  ghost function OwnSteps(steps: seq<Step>, t: nat): nat {
    if steps == [] then 0 else (if Own(steps[0], t) then 1 else 0) + OwnSteps(steps[1..], t)
  }

  lemma OwnStepCounts(s: State, a: Step, t: nat)
    requires Enabled(s, a) && Own(a, t)
    ensures t in s.sels && t in Next(s, a).sels && Left(Next(s, a).sels[t]) < Left(s.sels[t])
  {}

  lemma OtherStepKeeps(s: State, a: Step, t: nat)
    requires Enabled(s, a) && t in s.sels && !Own(a, t) && a != Unlink(t)
    ensures t in Next(s, a).sels && Next(s, a).sels[t].pc == s.sels[t].pc && Next(s, a).sels[t].maxfd == s.sels[t].maxfd
  {}

  lemma {:induction false} StepsLeft(s: State, steps: seq<Step>, s': State, t: nat)
    requires Runs(s, steps, s') && t in s.sels && Unlink(t) !in steps
    ensures t in s'.sels && OwnSteps(steps, t) + Left(s'.sels[t]) <= Left(s.sels[t])
    decreases |steps|
  {
    hide Enabled, Next;
    if steps != [] {
      if Own(steps[0], t) { OwnStepCounts(s, steps[0], t); } else { OtherStepKeeps(s, steps[0], t); }
      StepsLeft(Next(s, steps[0]), steps[1..], s', t);
    }
  }

  /** A call takes at most 3 * maxfd + 4 steps of its own from linking its entry until it is ready to unlink it. */
  lemma Returns(s: State, link: Step, steps: seq<Step>, s': State)
    requires link.Link? && Enabled(s, link) && Runs(Next(s, link), steps, s') && Unlink(link.t) !in steps
    ensures link.t in s'.sels && OwnSteps(steps, link.t) <= 3 * link.maxfd + 4
  {
    StepsLeft(Next(s, link), steps, s', link.t);
  }

  /** A counting call gives up exactly at a descriptor without a socket, or with 255 other calls waiting on it. */
  lemma CountGivesUpIff(s: State, t: nat)
    requires Reachable(s) && Enabled(s, Count(t))
    ensures var e, e' := s.sels[t], Next(s, Count(t)).sels[t];
            var i := e.pc.i;
            && (e'.pc.Dropping? <==> e.Interested(i) && (i >= |s.socks| || |Counters(s, i)| >= 255))
            && (!e'.pc.Dropping? ==> e'.pc == if i < e.maxfd then Counting(i + 1) else Rescanning(0))
  {
    ReachableInv(s);
  }

  /** While it has steps left it can take one unless it waits for its semaphore, and then it can time out. */
  lemma CanGoOn(s: State, t: nat)
    requires t in s.sels
    ensures exists a :: Enabled(s, a) && (Own(a, t) || a == Unlink(t))
  {
    var e := s.sels[t];
    var a := match e.pc
      case Counting(_) => Count(t)
      case Rescanning(_) => Rescan(t, false)
      case Waiting => Timeout(t)
      case Dropping(i, end) => if i < end then Drop(t) else Unlink(t);
    assert Enabled(s, a);
  }

  // No call is woken or stops for nothing

  /** Event `k` has been there at some time. */
  ghost predicate WasPending(steps: seq<Step>, fd: nat, k: Kind) {
    exists j: nat :: j <= |steps| && Pending(steps[..j], fd, k)
  }

  /** An event that the call asked for has been there. */
  ghost predicate HadCause(steps: seq<Step>, e: Sel) {
    exists fd: nat, k: Kind :: e.Wants(fd, k) && WasPending(steps, fd, k)
  }

  /** Callbacks carry events that were there, and a call is signalled or has found something only for one that it
      asked for, or for unread data. */
  ghost predicate Honest(steps: seq<Step>, s: State) {
    && (forall c, k: Kind :: c in s.cbs && k in s.cbs[c].has ==> WasPending(steps, s.cbs[c].fd, k))
    && (forall t :: t in s.sels && s.sels[t].signalled ==> HadCause(steps, s.sels[t]))
    && (forall t :: t in s.sels && s.sels[t].found ==> HadCause(steps, s.sels[t]) || Rescan(t, true) in steps)
  }

  lemma {:induction false} RunsLast(s: State, steps: seq<Step>, a: Step, s': State) returns (m: State)
    requires Runs(s, steps + [a], s')
    ensures Runs(s, steps, m) && Enabled(m, a) && s' == Next(m, a)
    decreases |steps|
  {
    hide Enabled, Next;
    if steps == [] {
      assert (steps + [a])[1..] == [];
      m := s;
    } else {
      assert (steps + [a])[1..] == steps[1..] + [a] && (steps + [a])[0] == steps[0];
      m := RunsLast(Next(s, steps[0]), steps[1..], a, s');
    }
  }

  lemma WasPendingMore(steps: seq<Step>, a: Step, fd: nat, k: Kind)
    ensures WasPending(steps, fd, k) ==> WasPending(steps + [a], fd, k)
    ensures Pending(steps, fd, k) ==> WasPending(steps + [a], fd, k)
    ensures Pending(steps + [a], fd, k) ==> WasPending(steps + [a], fd, k)
  {
    hide Pending;
    var all := steps + [a];
    assert all[..|steps|] == steps && all[..|all|] == all;
    if j: nat :| j <= |steps| && Pending(steps[..j], fd, k) { assert all[..j] == steps[..j]; }
  }

  lemma HadCauseMore(steps: seq<Step>, a: Step, e: Sel, e': Sel)
    requires HadCause(steps, e) && forall fd: nat, k: Kind :: e.Wants(fd, k) ==> e'.Wants(fd, k)
    ensures HadCause(steps + [a], e')
  {
    hide WasPending;
    var fd: nat, k: Kind :| e.Wants(fd, k) && WasPending(steps, fd, k);
    WasPendingMore(steps, a, fd, k);
  }

  lemma StepWants(s: State, a: Step, t: nat)
    requires Enabled(s, a) && t in Next(s, a).sels && !(a.Link? && a.t == t)
    ensures t in s.sels && forall fd: nat, k: Kind :: s.sels[t].Wants(fd, k) <==> Next(s, a).sels[t].Wants(fd, k)
  {}

  lemma StepSame(s: State, a: Step, t: nat)
    requires Enabled(s, a) && t in Next(s, a).sels && !(a.Link? && a.t == t)
    ensures t in s.sels
    ensures !(a.Rescan? && a.t == t) ==> Next(s, a).sels[t].found == s.sels[t].found
    ensures !a.Visit? ==> Next(s, a).sels[t].signalled == s.sels[t].signalled
  {}

  /** A step changes what is asked for, found or signalled only for a reason. */
  lemma StepReasons(s: State, a: Step, t: nat)
    requires Enabled(s, a) && t in Next(s, a).sels && !(a.Link? && a.t == t)
    ensures var e' := Next(s, a).sels[t];
            && t in s.sels
            && (forall fd: nat, k: Kind :: s.sels[t].Wants(fd, k) <==> e'.Wants(fd, k))
            && (e'.found && !s.sels[t].found ==>
                  && a.Rescan? && a.t == t && s.sels[t].pc.Rescanning?
                  && var i := s.sels[t].pc.i;
                  && i < |s.socks|
                  && (a.lastdata || exists k: Kind :: e'.Wants(i, k) && s.socks[i].Active(k)))
            && (e'.signalled && !s.sels[t].signalled ==>
                  && a.Visit? && a.c in s.cbs
                  && exists k: Kind :: k in s.cbs[a.c].has && e'.Wants(s.cbs[a.c].fd, k))
  {
    StepWants(s, a, t);
    StepSame(s, a, t);
    if a.Rescan? && a.t == t { RescanReason(s, t, a.lastdata); }
    if a.Visit? { SignalReasons(s, a.c); }
    hide DoRescan, DoVisit, DoCount, DoDrop, DoCallback;
  }

  lemma RescanReason(s: State, t: nat, lastdata: bool)
    requires t in s.sels && s.sels[t].pc.Rescanning?
    ensures var e, i := s.sels[t], s.sels[t].pc.i;
            DoRescan(s, t, lastdata).sels[t].found && !e.found ==>
              i < |s.socks| && (lastdata || exists k: Kind :: e.Wants(i, k) && s.socks[i].Active(k))
  {
    var e, i := s.sels[t], s.sels[t].pc.i;
    if i < |s.socks| {
      assert e.Wants(i, Recv) == (i in e.readset) && e.Wants(i, Send) == (i in e.writeset)
          && e.Wants(i, Err) == (i in e.exceptset);
    }
  }

  lemma SignalReasons(s: State, c: nat)
    requires c in s.cbs && forall t :: t in s.list ==> t in s.sels
    ensures forall t :: t in s.sels && DoVisit(s, c).sels[t].signalled && !s.sels[t].signalled ==>
              exists k: Kind :: k in s.cbs[c].has && s.sels[t].Wants(s.cbs[c].fd, k)
  {
    var j := NextPos(s, c);
    if j < |s.list| {
      var e, fd, has := s.sels[s.list[j]], s.cbs[c].fd, s.cbs[c].has;
      assert e.Wants(fd, Recv) == (fd in e.readset) && e.Wants(fd, Send) == (fd in e.writeset)
          && e.Wants(fd, Err) == (fd in e.exceptset);
    }
  }

  lemma CallbackReasons(s: State, a: Step, c: nat, k: Kind)
    requires Enabled(s, a) && c in Next(s, a).cbs && k in Next(s, a).cbs[c].has
    ensures var s1 := Next(s, a);
            || (c in s.cbs && k in s.cbs[c].has && s.cbs[c].fd == s1.cbs[c].fd)
            || (s1.cbs[c].fd < |s1.socks| && s1.socks[s1.cbs[c].fd].Active(k))
  {}

  lemma StepHonestCall(n: nat, steps: seq<Step>, m: State, a: Step, t: nat)
    requires Runs(Initial(n), steps, m) && Honest(steps, m) && Enabled(m, a) && t in Next(m, a).sels
    ensures var e := Next(m, a).sels[t];
            && (e.signalled ==> HadCause(steps + [a], e))
            && (e.found ==> HadCause(steps + [a], e) || Rescan(t, true) in steps + [a])
  {
    hide Runs, WasPending, HadCause, Pending;
    var e := Next(m, a).sels[t];
    if a.Link? && a.t == t { return; }
    StepReasons(m, a, t);
    var e0 := m.sels[t];
    hide Enabled, Next;
    if HadCause(steps, e0) { HadCauseMore(steps, a, e0, e); }
    if e.signalled && !e0.signalled {
      var k: Kind :| k in m.cbs[a.c].has && e.Wants(m.cbs[a.c].fd, k);
      Cause(steps, a, e, m.cbs[a.c].fd, k);
    }
    if e.found && !e0.found && !a.lastdata {
      var i := e0.pc.i;
      var k: Kind :| e.Wants(i, k) && m.socks[i].Active(k);
      InRange(n, steps, m, i);
      ReadyIff(n, steps, m, i, k);
      Cause(steps, a, e, i, k);
    }
  }

  lemma InRange(n: nat, steps: seq<Step>, s: State, fd: nat)
    requires Runs(Initial(n), steps, s) && fd < |s.socks|
    ensures fd < n
  {
    if n > 0 { ReadyIff(n, steps, s, 0, Recv); } else { NoSockets(Initial(n), steps, s); }
  }

  lemma {:induction false} NoSockets(s: State, steps: seq<Step>, s': State)
    requires Runs(s, steps, s')
    ensures |s'.socks| == |s.socks|
    decreases |steps|
  {
    if steps != [] { NoSockets(Next(s, steps[0]), steps[1..], s'); }
  }

  lemma Cause(steps: seq<Step>, a: Step, e: Sel, fd: nat, k: Kind)
    requires e.Wants(fd, k) && (Pending(steps, fd, k) || WasPending(steps, fd, k) || Pending(steps + [a], fd, k))
    ensures HadCause(steps + [a], e)
  {
    WasPendingMore(steps, a, fd, k);
  }

  lemma StepHonestCallback(n: nat, steps: seq<Step>, m: State, a: Step, s: State, c: nat, k: Kind)
    requires Runs(Initial(n), steps, m) && Honest(steps, m) && Enabled(m, a) && s == Next(m, a)
    requires Runs(Initial(n), steps + [a], s) && c in s.cbs && k in s.cbs[c].has
    ensures WasPending(steps + [a], s.cbs[c].fd, k)
  {
    hide Runs, WasPending, HadCause, Pending;
    CallbackReasons(m, a, c, k);
    hide Enabled, Next;
    var fd := s.cbs[c].fd;
    WasPendingMore(steps, a, fd, k);
    if fd < |s.socks| && s.socks[fd].Active(k) {
      InRange(n, steps + [a], s, fd);
      ReadyIff(n, steps + [a], s, fd, k);
    }
  }

  /** In every run a call that was signalled or found something had asked for an event that was there, but for
      unread data of an earlier receive. */
  lemma {:induction false} NoFalseWakeup(n: nat, steps: seq<Step>, s: State)
    requires Runs(Initial(n), steps, s)
    ensures Honest(steps, s)
    decreases |steps|
  {
    if steps != [] {
      var past, a := steps[..|steps| - 1], steps[|steps| - 1];
      assert steps == past + [a];
      var m := RunsLast(Initial(n), past, a, s);
      NoFalseWakeup(n, past, m);
      hide Runs, Enabled, Next, WasPending, HadCause, Pending;
      forall c, k: Kind | c in s.cbs && k in s.cbs[c].has ensures WasPending(steps, s.cbs[c].fd, k) {
        StepHonestCallback(n, past, m, a, s, c, k);
      }
      forall t | t in s.sels
        ensures s.sels[t].signalled ==> HadCause(steps, s.sels[t])
        ensures s.sels[t].found ==> HadCause(steps, s.sels[t]) || Rescan(t, true) in steps
      {
        StepHonestCall(n, past, m, a, t);
      }
    }
  }

  /** How many sections of callback `c` a run has. */
  ghost function VisitsOf(steps: seq<Step>, c: nat): nat {
    if steps == [] then 0 else (if steps[0] == Visit(c) then 1 else 0) + VisitsOf(steps[1..], c)
  }

  lemma VisitKeepsList(s: State, c: nat)
    requires ListOk(s) && c in s.cbs
    ensures ListOk(DoVisit(s, c))
  {}

  /** One section either signals the entry at `m` or leaves it ahead, one place nearer. */
  lemma VisitAdvances(s: State, c: nat, t: nat, fd: nat, k: Kind, m: nat)
    requires ListOk(s) && WillSignal(s, c, t, fd, k) && t in s.sels && s.sels[t].Wants(fd, k)
    requires m < |s.list| && s.list[m] == t && NextPos(s, c) <= m
    ensures Enabled(s, Visit(c))
    ensures var s1 := DoVisit(s, c);
            && ListOk(s1) && t in s1.sels && s1.list == s.list && s1.sels[t].Wants(fd, k)
            && (NextPos(s, c) == m ==> s1.sels[t].signalled)
            && (NextPos(s, c) < m ==> WillSignal(s1, c, t, fd, k) && NextPos(s1, c) == NextPos(s, c) + 1)
  {
    var j := NextPos(s, c);
    var s1 := DoVisit(s, c);
    VisitKeepsList(s, c);
    SignalFacts(s.sels[s.list[j]], s.cbs[c].fd, s.cbs[c].has);
    assert s1.list[m] == t;
  }

  /** No select call is linked or unlinked. */
  predicate KeepList(steps: seq<Step>) {
    forall i :: 0 <= i < |steps| ==> !steps[i].Link? && !steps[i].Unlink?
  }

  /** Any other step but a change of the list leaves the callback where it is. */
  lemma OthersKeep(s: State, a: Step, c: nat, t: nat)
    requires Enabled(s, a) && !a.Link? && !a.Unlink? && t in s.sels
    ensures var s1 := Next(s, a);
            && t in s1.sels && s1.list == s.list && s1.ctr == s.ctr
            && (forall fd: nat, k: Kind :: s1.sels[t].Wants(fd, k) == s.sels[t].Wants(fd, k))
            && (s.sels[t].signalled ==> s1.sels[t].signalled)
            && (c in s.cbs && a != Visit(c) ==> c in s1.cbs && s1.cbs[c] == s.cbs[c])
  {}

  /** The entry at `m` has been signalled, or callback `c` is on its way there with enough sections to come. */
  ghost predicate OnItsWay(s: State, c: nat, t: nat, fd: nat, k: Kind, m: nat, visits: nat) {
    && t in s.sels && s.sels[t].Wants(fd, k) && m < |s.list| && s.list[m] == t
    && (s.sels[t].signalled || (WillSignal(s, c, t, fd, k) && NextPos(s, c) <= m < NextPos(s, c) + visits))
  }

  lemma OneOnItsWay(s: State, a: Step, c: nat, t: nat, fd: nat, k: Kind, m: nat, visits: nat)
    requires Inv(s) && Enabled(s, a) && !a.Link? && !a.Unlink?
    requires OnItsWay(s, c, t, fd, k, m, visits + if a == Visit(c) then 1 else 0)
    ensures OnItsWay(Next(s, a), c, t, fd, k, m, visits)
  {
    OthersKeep(s, a, c, t);
    if !s.sels[t].signalled && a == Visit(c) { VisitAdvances(s, c, t, fd, k, m); }
  }

  lemma {:induction false} VisitsDeliver(s: State, c: nat, t: nat, fd: nat, k: Kind, m: nat, steps: seq<Step>,
    s': State)
    requires Inv(s) && Runs(s, steps, s') && KeepList(steps)
    requires OnItsWay(s, c, t, fd, k, m, VisitsOf(steps, c))
    ensures t in s'.sels && s'.sels[t].signalled
    decreases |steps|
  {
    if steps != [] {
      hide Inv, OnItsWay, Enabled, Next;
      StepInv(s, steps[0]);
      OneOnItsWay(s, steps[0], c, t, fd, k, m, VisitsOf(steps[1..], c));
      VisitsDeliver(Next(s, steps[0]), c, t, fd, k, m, steps[1..], s');
    }
  }

  /** A callback with an entry ahead has signalled it after as many of its own sections as the list is long,
      whatever the other threads do in between, as long as the list does not change and make it start again. */
  lemma CallbackDelivers(s: State, c: nat, t: nat, fd: nat, k: Kind, steps: seq<Step>, s': State)
    requires Reachable(s) && WillSignal(s, c, t, fd, k) && t in s.sels && s.sels[t].Wants(fd, k)
    requires Runs(s, steps, s') && KeepList(steps)
    requires VisitsOf(steps, c) >= |s.list|
    ensures t in s'.sels && s'.sels[t].signalled
  {
    ReachableInv(s);
    assert t in s.list;
    var m :| 0 <= m < |s.list| && s.list[m] == t && NextPos(s, c) <= m;
    VisitsDeliver(s, c, t, fd, k, m, steps, s');
  }
}
