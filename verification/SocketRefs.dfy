/** Reference counts on lwIP's socket table in full-duplex mode. Each protected section is one
    atomic step; any number of threads hold any number of references, one token each. */
module SocketRefs {

  datatype Conn = NoConn | Conn(id: nat)

  /** fd_used, fd_free_pending and conn of one entry of sockets[]. */
  datatype Slot = Slot(conn: Conn, fdUsed: nat, pending: bool)

  /** A reference: just counted, or with the netconn that get_socket saw and handed to its caller. */
  datatype Ref = Counted(slot: nat) | Using(slot: nat, id: nat)

  /** `released` lists the netconns passed to free_socket_free_elements in order; `created` and `closed`
      record which netconns alloc_socket stored and lwip_close gave up. */
  datatype State = State(slots: seq<Slot>, refs: map<nat, Ref>, released: seq<nat>, created: set<nat>, closed: set<nat>)

  datatype Step =
    | Alloc(tok: nat, i: nat, id: nat)   // alloc_socket: the creator keeps one reference
    | Inc(tok: nat, i: nat)              // sock_inc_used
    | Look(tok: nat)                     // the check of sock->conn in tryget_socket
    | Done(tok: nat)                     // done_socket
    | Close(tok: nat)                    // free_socket, at the end of lwip_close

  const FD_USED_MAX := 255

  function Initial(n: nat): State {
    State(seq(n, _ => Slot(NoConn, 0, false)), map[], [], {}, {})
  }

  /** free_socket_locked: defer while references remain, otherwise empty the slot and hand out its netconn. */
  function FreeLocked(s: State, i: nat): State
    requires i < |s.slots| && s.slots[i].fdUsed > 0
  {
    var k := s.slots[i].(fdUsed := s.slots[i].fdUsed - 1);
    if k.fdUsed > 0 then s.(slots := s.slots[i := k.(pending := true)])
    else
      s.(slots := s.slots[i := k.(conn := NoConn)],
         released := if k.conn == NoConn then s.released else s.released + [k.conn.id])
  }

  function DoneSocket(s: State, i: nat): State
    requires i < |s.slots| && s.slots[i].fdUsed > 0
  {
    var k := s.slots[i];
    if k.fdUsed == 1 && k.pending then FreeLocked(s, i)
    else s.(slots := s.slots[i := k.(fdUsed := k.fdUsed - 1)])
  }

  /** The assertion of sock_inc_used after it has added one on 8 bits. */
  predicate IncAssertion(k: Slot) {
    k.pending || (k.fdUsed + 1) % 256 != 0
  }

  ghost predicate Enabled(s: State, a: Step) {
    match a
    case Alloc(tok, i, id) =>
      && tok !in s.refs && i < |s.slots| && id !in s.created
      && s.slots[i].conn == NoConn && s.slots[i].fdUsed == 0
    case Inc(tok, i) => tok !in s.refs && i < |s.slots| && IncAssertion(s.slots[i])
    case Look(tok) => tok in s.refs && s.refs[tok].Counted? && s.refs[tok].slot < |s.slots|
    case Done(tok) => tok in s.refs && s.refs[tok].slot < |s.slots| && s.slots[s.refs[tok].slot].fdUsed > 0
    case Close(tok) =>
      && tok in s.refs && s.refs[tok].Using?
      && s.refs[tok].slot < |s.slots| && s.slots[s.refs[tok].slot].fdUsed > 0
  }

  ghost function Next(s: State, a: Step): State
    requires Enabled(s, a)
  {
    match a
    case Alloc(tok, i, id) =>
      s.(slots := s.slots[i := Slot(Conn(id), 1, false)], refs := s.refs[tok := Using(i, id)],
        created := s.created + {id})
    case Inc(tok, i) =>
      if s.slots[i].pending then s
      else s.(slots := s.slots[i := s.slots[i].(fdUsed := s.slots[i].fdUsed + 1)], refs := s.refs[tok := Counted(i)])
    case Look(tok) =>
      var i := s.refs[tok].slot;
      if s.slots[i].conn == NoConn then s else s.(refs := s.refs[tok := Using(i, s.slots[i].conn.id)])
    case Done(tok) => DoneSocket(s, s.refs[tok].slot).(refs := s.refs - {tok})
    case Close(tok) => FreeLocked(s, s.refs[tok].slot).(refs := s.refs - {tok}, closed := s.closed + {s.refs[tok].id})
  }

  // The invariant

  ghost function Holders(s: State, i: nat): set<nat> {
    set tok | tok in s.refs && s.refs[tok].slot == i
  }

  /** fd_used is the number of references held, and a reference handed out keeps its netconn in the slot. */
  ghost predicate RefsOk(s: State) {
    && (forall tok :: tok in s.refs ==> s.refs[tok].slot < |s.slots|)
    && (forall i: nat :: i < |s.slots| ==> s.slots[i].fdUsed == |Holders(s, i)| && s.slots[i].fdUsed <= FD_USED_MAX)
    && (forall tok :: tok in s.refs && s.refs[tok].Using? ==> s.slots[s.refs[tok].slot].conn == Conn(s.refs[tok].id))
  }

  ghost predicate Stored(s: State, id: nat, i: nat) {
    i < |s.slots| && s.slots[i].conn == Conn(id)
  }

  /** Every netconn is in one slot or was released once, and not both. */
  ghost predicate ConnsOk(s: State) {
    && (forall id: nat, i: nat, j: nat :: Stored(s, id, i) && Stored(s, id, j) ==> i == j)
    && (forall id: nat, i: nat :: Stored(s, id, i) ==> id in s.created && id !in s.released)
    && (forall id :: id in s.created ==> id in s.released || exists i: nat :: Stored(s, id, i))
    && (forall id :: id in s.released ==> id in s.created)
    && (forall m, n :: 0 <= m < n < |s.released| ==> s.released[m] != s.released[n])
  }

  /** A netconn that was closed but not yet released waits in a pending slot for the last reference. */
  ghost predicate ClosedOk(s: State) {
    && (forall i: nat :: i < |s.slots| && s.slots[i].pending && s.slots[i].conn != NoConn ==>
                           s.slots[i].fdUsed > 0 && s.slots[i].conn.id in s.closed)
    && (forall i: nat :: i < |s.slots| && s.slots[i].pending && s.slots[i].conn == NoConn ==> s.slots[i].fdUsed == 0)
    && (forall id: nat, i: nat :: id in s.closed && Stored(s, id, i) ==> s.slots[i].pending)
    && (forall id :: id in s.released ==> id in s.closed)
    && (forall id :: id in s.closed ==> id in s.created)
  }

  ghost predicate Inv(s: State) {
    RefsOk(s) && ConnsOk(s) && ClosedOk(s)
  }

  lemma InitialInv(n: nat)
    ensures Inv(Initial(n))
  {
    var s := Initial(n);
    forall i: nat | i < |s.slots| ensures s.slots[i].fdUsed == |Holders(s, i)| {
      assert Holders(s, i) == {};
    }
  }

  /** Counts after one token was added to slot `i`. */
  lemma HolderAdded(s: State, s': State, tok: nat, r: Ref, i: nat)
    requires RefsOk(s) && |s'.slots| == |s.slots| && i < |s.slots|
    requires tok !in s.refs && s'.refs == s.refs[tok := r] && r.slot == i
    requires s'.slots[i].fdUsed == s.slots[i].fdUsed + 1
    requires forall j: nat :: j < |s.slots| && j != i ==> s'.slots[j].fdUsed == s.slots[j].fdUsed
    ensures forall j: nat :: j < |s'.slots| ==> s'.slots[j].fdUsed == |Holders(s', j)|
  {
    assert forall x :: x in s'.refs <==> x in s.refs || x == tok;
    assert forall x :: x in s.refs ==> s'.refs[x] == s.refs[x];
    forall j: nat | j < |s'.slots| ensures s'.slots[j].fdUsed == |Holders(s', j)| {
      assert tok !in Holders(s, j);
      assert Holders(s', j) == if j == i then Holders(s, j) + {tok} else Holders(s, j);
    }
  }

  /** Counts after one token was taken from slot `i`. */
  lemma HolderRemoved(s: State, s': State, tok: nat, i: nat)
    requires RefsOk(s) && |s'.slots| == |s.slots| && i < |s.slots|
    requires tok in s.refs && s.refs[tok].slot == i && s'.refs == s.refs - {tok}
    requires s'.slots[i].fdUsed == s.slots[i].fdUsed - 1
    requires forall j: nat :: j < |s.slots| && j != i ==> s'.slots[j].fdUsed == s.slots[j].fdUsed
    ensures forall j: nat :: j < |s'.slots| ==> s'.slots[j].fdUsed == |Holders(s', j)|
  {
    forall j: nat | j < |s'.slots| ensures s'.slots[j].fdUsed == |Holders(s', j)| {
      if j != i {
        assert Holders(s', j) == Holders(s, j);
      } else {
        assert Holders(s', j) == Holders(s, j) - {tok} && tok in Holders(s, j);
      }
    }
  }

  lemma NoHolders(s: State, i: nat)
    requires RefsOk(s) && i < |s.slots| && s.slots[i].fdUsed == 0
    ensures forall tok :: tok in s.refs ==> s.refs[tok].slot != i
  {
    assert Holders(s, i) == {};
    forall tok | tok in s.refs ensures s.refs[tok].slot != i {
      assert tok !in Holders(s, i);
    }
  }

  lemma AllocInv(s: State, tok: nat, i: nat, id: nat)
    requires Inv(s) && Enabled(s, Alloc(tok, i, id))
    ensures Inv(Next(s, Alloc(tok, i, id)))
  {
    var s' := Next(s, Alloc(tok, i, id));
    NoHolders(s, i);
    HolderAdded(s, s', tok, Using(i, id), i);
    assert Stored(s', id, i);
    assert forall d: nat, j: nat :: Stored(s', d, j) <==> if j == i then d == id else Stored(s, d, j);
    assert ConnsOk(s');
  }

  lemma IncInv(s: State, tok: nat, i: nat)
    requires Inv(s) && Enabled(s, Inc(tok, i))
    ensures Inv(Next(s, Inc(tok, i)))
  {
    if !s.slots[i].pending {
      var s' := Next(s, Inc(tok, i));
      HolderAdded(s, s', tok, Counted(i), i);
      assert forall d: nat, j: nat :: Stored(s', d, j) <==> Stored(s, d, j);
    }
  }

  lemma LookInv(s: State, tok: nat)
    requires Inv(s) && Enabled(s, Look(tok))
    ensures Inv(Next(s, Look(tok)))
  {
    var s' := Next(s, Look(tok));
    forall j: nat | j < |s'.slots| ensures s'.slots[j].fdUsed == |Holders(s', j)| {
      assert Holders(s', j) == Holders(s, j);
    }
    assert forall d: nat, j: nat :: Stored(s', d, j) <==> Stored(s, d, j);
  }

  lemma SameConns(s: State, s': State)
    requires ConnsOk(s) && s'.released == s.released && s'.created == s.created
    requires forall d: nat, j: nat :: Stored(s', d, j) <==> Stored(s, d, j)
    ensures ConnsOk(s')
  {}

  ghost function Dropped(s: State, tok: nat, k: Slot, closed: set<nat>): State
    requires tok in s.refs && s.refs[tok].slot < |s.slots|
  {
    s.(slots := s.slots[s.refs[tok].slot := k], refs := s.refs - {tok}, closed := closed)
  }

  lemma DropRefs(s: State, tok: nat, k: Slot, closed: set<nat>)
    requires RefsOk(s) && tok in s.refs
    requires var i := s.refs[tok].slot;
             s.slots[i].fdUsed > 0 && k.conn == s.slots[i].conn && k.fdUsed == s.slots[i].fdUsed - 1
    ensures RefsOk(Dropped(s, tok, k, closed))
    ensures forall d: nat, j: nat :: Stored(Dropped(s, tok, k, closed), d, j) <==> Stored(s, d, j)
  {
    HolderRemoved(s, Dropped(s, tok, k, closed), tok, s.refs[tok].slot);
  }

  /** Dropping a reference that is not the last one of a closed socket. `k` is the slot afterwards. */
  lemma DropInv(s: State, tok: nat, k: Slot, closed: set<nat>)
    requires Inv(s) && tok in s.refs
    requires var i := s.refs[tok].slot;
             && i < |s.slots| && s.slots[i].fdUsed > 0
             && k.conn == s.slots[i].conn && k.fdUsed == s.slots[i].fdUsed - 1
             && (s.slots[i].pending ==> k.pending)
             && (k.pending ==> k.fdUsed > 0)
             && (k.pending && !s.slots[i].pending ==> s.refs[tok].Using? && closed == s.closed + {s.refs[tok].id})
             && (k.pending == s.slots[i].pending ==> closed == s.closed)
    ensures Inv(Dropped(s, tok, k, closed))
  {
    var i := s.refs[tok].slot;
    DropRefs(s, tok, k, closed);
    SameConns(s, Dropped(s, tok, k, closed));
    assert s.refs[tok].Using? ==> Stored(s, s.refs[tok].id, i);
    assert s.refs[tok].Using? ==> s.refs[tok].id in s.created;
    assert forall id: nat, j: nat :: Stored(s, id, i) && Stored(s, id, j) ==> i == j;
    hide ConnsOk, RefsOk;
  }

  /** Dropping the last reference of a closed socket releases its netconn. */
  lemma LastInv(s: State, tok: nat, closed: set<nat>)
    requires Inv(s) && tok in s.refs
    requires var i := s.refs[tok].slot;
             && i < |s.slots| && s.slots[i].fdUsed == 1
             && (s.slots[i].conn != NoConn ==> closed == s.closed + {s.slots[i].conn.id})
             && (s.slots[i].conn == NoConn ==> closed == s.closed)
    ensures Inv(FreeLocked(s, s.refs[tok].slot).(refs := s.refs - {tok}, closed := closed))
  {
    var i := s.refs[tok].slot;
    var s' := FreeLocked(s, i).(refs := s.refs - {tok}, closed := closed);
    HolderRemoved(s, s', tok, i);
    NoHolders(s', i);
    assert forall d: nat, j: nat :: Stored(s', d, j) <==> j != i && Stored(s, d, j);
    if s.slots[i].conn != NoConn {
      assert Stored(s, s.slots[i].conn.id, i);
    }
    assert forall d :: d in s'.released <==> d in s.released || s.slots[i].conn == Conn(d);
  }

  lemma StepInv(s: State, a: Step)
    requires Inv(s) && Enabled(s, a)
    ensures Inv(Next(s, a))
  {
    match a
    case Alloc(tok, i, id) => AllocInv(s, tok, i, id);
    case Inc(tok, i) => IncInv(s, tok, i);
    case Look(tok) => LookInv(s, tok);
    case Done(tok) => DoneInv(s, tok);
    case Close(tok) => CloseInv(s, tok);
  }

  lemma DoneInv(s: State, tok: nat)
    requires Inv(s) && Enabled(s, Done(tok))
    ensures Inv(Next(s, Done(tok)))
  {
    var k := s.slots[s.refs[tok].slot];
    if k.fdUsed == 1 && k.pending {
      assert k.conn != NoConn ==> k.conn.id in s.closed;
      assert k.conn != NoConn ==> s.closed + {k.conn.id} == s.closed;
      LastInv(s, tok, s.closed);
    } else {
      DropInv(s, tok, k.(fdUsed := k.fdUsed - 1), s.closed);
    }
  }

  lemma CloseInv(s: State, tok: nat)
    requires Inv(s) && Enabled(s, Close(tok))
    ensures Inv(Next(s, Close(tok)))
  {
    var k, id := s.slots[s.refs[tok].slot], s.refs[tok].id;
    assert k.conn == Conn(id);
    if k.fdUsed == 1 {
      LastInv(s, tok, s.closed + {id});
    } else {
      assert k.pending ==> s.closed + {id} == s.closed;
      DropInv(s, tok, k.(fdUsed := k.fdUsed - 1, pending := true), s.closed + {id});
    }
  }

  // Runs

  /** `steps` can be taken one after another from `s` and lead to `s'`. */
  ghost predicate Runs(s: State, steps: seq<Step>, s': State)
    decreases |steps|
  {
    if steps == [] then s == s' else Enabled(s, steps[0]) && Runs(Next(s, steps[0]), steps[1..], s')
  }

  ghost predicate Reachable(s: State) {
    exists n: nat, steps: seq<Step> :: Runs(Initial(n), steps, s)
  }

  lemma {:induction false} RunsInv(s: State, steps: seq<Step>, s': State)
    requires Inv(s) && Runs(s, steps, s')
    ensures Inv(s')
    decreases |steps|
  {
    hide Inv, Enabled, Next;
    if steps != [] {
      StepInv(s, steps[0]);
      RunsInv(Next(s, steps[0]), steps[1..], s');
    }
  }

  lemma ReachableInv(s: State)
    requires Reachable(s)
    ensures Inv(s)
  {
    var n: nat, steps: seq<Step> :| Runs(Initial(n), steps, s);
    InitialInv(n);
    RunsInv(Initial(n), steps, s);
  }

  /** In every run fd_used counts the references, a netconn handed out is still in its slot and not
      released, and no netconn is released twice. */
  lemma UsedCountsReferences(s: State)
    requires Reachable(s)
    ensures forall i: nat :: i < |s.slots| ==> s.slots[i].fdUsed == |Holders(s, i)|
    ensures forall tok :: tok in s.refs && s.refs[tok].Using? ==>
            Stored(s, s.refs[tok].id, s.refs[tok].slot) && s.refs[tok].id !in s.released
    ensures forall m, n :: 0 <= m < n < |s.released| ==> s.released[m] != s.released[n]
  {
    ReachableInv(s);
    forall tok | tok in s.refs && s.refs[tok].Using? ensures s.refs[tok].id !in s.released {
      assert Stored(s, s.refs[tok].id, s.refs[tok].slot);
    }
  }

  /** fd_used does not wrap around: the assertion fails exactly when 255 references are held and one more is taken. */
  lemma IncAssertionIff(s: State, i: nat)
    requires Reachable(s) && i < |s.slots|
    ensures IncAssertion(s.slots[i]) <==> s.slots[i].pending || |Holders(s, i)| < FD_USED_MAX
  {
    ReachableInv(s);
  }

  /** A netconn is released by a step after which nobody holds a reference to its slot, and only one
      that was closed. */
  lemma ReleasedUnreferenced(s: State, a: Step)
    requires Reachable(s) && Enabled(s, a) && Next(s, a).released != s.released
    ensures exists id: nat, i: nat ::
              && Stored(s, id, i) && Next(s, a).released == s.released + [id] && id in Next(s, a).closed
              && forall tok :: tok in Next(s, a).refs ==> Next(s, a).refs[tok].slot != i
  {
    var s' := Next(s, a);
    ReachableInv(s);
    StepInv(s, a);
    var tok := match a case Done(t) => t case Close(t) => t;
    var i := s.refs[tok].slot;
    NoHolders(s', i);
    var id := s.slots[i].conn.id;
    assert Stored(s, id, i);
    assert s'.released[|s.released|] == id;
  }

  /** A slot is given to a new socket only when no reference to it is left. */
  lemma AllocUnreferenced(s: State, tok: nat, i: nat, id: nat)
    requires Reachable(s) && Enabled(s, Alloc(tok, i, id))
    ensures forall t :: t in s.refs ==> s.refs[t].slot != i
  {
    ReachableInv(s);
    NoHolders(s, i);
  }

  /** alloc_socket stores the netconn in an empty slot with its creator as the only holder. */
  lemma AllocStores(s: State, tok: nat, i: nat, id: nat)
    requires Reachable(s) && Enabled(s, Alloc(tok, i, id))
    ensures var s1 := Next(s, Alloc(tok, i, id));
            Stored(s1, id, i) && Holders(s1, i) == {tok} && s1.refs[tok] == Using(i, id) && id !in s1.closed
  {
    AllocUnreferenced(s, tok, i, id);
    ReachableInv(s);
  }

  /** get_socket gets the netconn in the slot exactly when there is one that has not been closed. */
  lemma GetIff(s: State, tok: nat, i: nat, id: nat)
    requires Reachable(s) && Enabled(s, Inc(tok, i))
    ensures var s1 := Next(s, Inc(tok, i));
            var s2 := if Enabled(s1, Look(tok)) then Next(s1, Look(tok)) else s1;
            (tok in s2.refs && s2.refs[tok] == Using(i, id)) <==> Stored(s, id, i) && id !in s.closed
  {
    ReachableInv(s);
  }

  /** done_socket and lwip_close give up the caller's reference and no other. */
  lemma GivesUp(s: State, a: Step)
    requires Enabled(s, a) && (a.Done? || a.Close?)
    ensures Next(s, a).refs == s.refs - {a.tok}
    ensures Next(s, a).closed == s.closed + if a.Close? then {s.refs[a.tok].id} else {}
  {}

  lemma StepDrains(s: State, a: Step, id: nat, i: nat)
    requires Inv(s) && Enabled(s, a) && id in s.created
    ensures id in Next(s, a).created && (id in s.closed ==> id in Next(s, a).closed)
    ensures !Stored(s, id, i) ==> !Stored(Next(s, a), id, i)
    ensures id in s.closed && Stored(s, id, i) && Stored(Next(s, a), id, i) ==> Holders(Next(s, a), i) <= Holders(s, i)
  {}

  /** Once a netconn is closed, no thread gets a new reference to its slot: those held only become fewer. */
  lemma {:induction false} ClosedDrains(s: State, steps: seq<Step>, s': State, id: nat, i: nat)
    requires Inv(s) && Runs(s, steps, s') && id in s.closed && Stored(s', id, i)
    ensures Stored(s, id, i) && Holders(s', i) <= Holders(s, i)
    decreases |steps|
  {
    if steps != [] {
      hide Enabled, Next, RefsOk, ConnsOk, Stored, Holders;
      StepInv(s, steps[0]);
      StepDrains(s, steps[0], id, i);
      ClosedDrains(Next(s, steps[0]), steps[1..], s', id, i);
    }
  }

  /** Nothing leaks: once the references are gone every closed netconn has been released. */
  lemma ClosedIsReleased(s: State, id: nat)
    requires Reachable(s) && id in s.closed
    requires forall t :: t in s.refs ==> !Stored(s, id, s.refs[t].slot)
    ensures id in s.released
  {
    ReachableInv(s);
    if id !in s.released {
      var i: nat :| Stored(s, id, i);
      var tok := HolderExists(s, i);
    }
  }

  lemma HolderExists(s: State, i: nat) returns (tok: nat)
    requires RefsOk(s) && i < |s.slots| && s.slots[i].fdUsed > 0
    ensures tok in s.refs && s.refs[tok].slot == i
  {
    assert Holders(s, i) != {};
    tok :| tok in Holders(s, i);
  }

  // The assertion in sock_inc_used_locked

  /** sock_inc_used_locked asserts that a slot whose free is pending is still referenced. */
  predicate PendingIsUsed(s: State, i: nat)
    requires i < |s.slots|
  {
    s.slots[i].pending ==> s.slots[i].fdUsed != 0
  }

  /** It fails exactly on an empty slot whose flag a deferred free has left set, so never on an open socket. */
  lemma AssertHoldsIff(s: State, i: nat)
    requires Reachable(s) && i < |s.slots|
    ensures PendingIsUsed(s, i) <==> !(s.slots[i].pending && s.slots[i].conn == NoConn)
  {
    ReachableInv(s);
  }

  /** Such a slot is left when a descriptor is closed while another thread uses it. */
  lemma AssertFailsAfterDeferredFree()
    ensures exists s: State :: Reachable(s) && |s.slots| == 1 && !PendingIsUsed(s, 0)
  {
    var s0 := State([Slot(NoConn, 0, false)], map[], [], {}, {});
    var s1 := State([Slot(Conn(7), 1, false)], map[0 := Using(0, 7)], [], {7}, {});
    var s2 := State([Slot(Conn(7), 2, false)], map[0 := Using(0, 7), 1 := Counted(0)], [], {7}, {});
    var s3 := State([Slot(Conn(7), 1, true)], map[1 := Counted(0)], [], {7}, {7});
    var s4 := State([Slot(NoConn, 0, true)], map[], [7], {7}, {7});
    assert s0 == Initial(1);
    assert Runs(s4, [], s4);
    hide Runs;
    Before(s3, Done(1), s4, [], s4);
    Before(s2, Close(0), s3, [Done(1)], s4);
    Before(s1, Inc(1, 0), s2, [Close(0), Done(1)], s4);
    Before(s0, Alloc(0, 0, 7), s1, [Inc(1, 0), Close(0), Done(1)], s4);
    assert Reachable(s4);
  }

  lemma Before(s: State, a: Step, s': State, steps: seq<Step>, z: State)
    requires Enabled(s, a) && Next(s, a) == s' && Runs(s', steps, z)
    ensures Runs(s, [a] + steps, z)
  {
    assert ([a] + steps)[1..] == steps;
  }
}
