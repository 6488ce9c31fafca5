/** The receiving side of net_shim.c: lwIP callbacks that deliver a byte stream, and a recv that waits for it. */
module ShimRecv {
  import opened Octets
  import opened NetShim

  /** The payload of one pbuf. */
  type Pbuf = seq<byte>

  const ECONNRESET := 104
  const ETIMEDOUT := 110

  /** A callback: on_recv with a chain (none for a closed peer) and whether its err is ERR_OK, or on_err. */
  datatype Event = Recv(chain: seq<Pbuf>, ok: bool) | Err

  /** What one net_poll brings, and the clock afterwards. */
  datatype Poll = Poll(events: seq<Event>, now: nat)

  /** `Blocked` is a call that is still waiting after the polls given, `NoCall` stands for callbacks alone. */
  datatype Outcome = Returned(data: seq<byte>) | Failed(errno: int) | Blocked | NoCall

  /** The length of a pbuf is a u16_t. */
  predicate Short(chain: seq<Pbuf>) {
    forall i :: 0 <= i < |chain| ==> |chain[i]| <= 0xFFFF
  }

  predicate ShortEvents(events: seq<Event>) {
    forall i :: 0 <= i < |events| && events[i].Recv? ==> Short(events[i].chain)
  }

  lemma FlattenMore(read: seq<byte>, rx: seq<Pbuf>, off: nat, p: seq<Pbuf>)
    requires off <= |Flatten(rx)|
    ensures off <= |Flatten(rx + p)| && read + Flatten(rx + p)[off..] == read + Flatten(rx)[off..] + Flatten(p)
  {
    FlattenConcat(rx, p);
    hide Flatten;
    var all, had := Flatten(rx + p), Flatten(rx);
    assert all[off..] == had[off..] + Flatten(p);
  }

  /** What is left after `n` more bytes of the first pbuf. */
  lemma FlattenRead(rx: seq<Pbuf>, off: nat, n: nat)
    requires rx != [] && off + n <= |rx[0]|
    ensures |rx[0]| <= |Flatten(rx)|
    ensures Flatten(rx)[off..] == rx[0][off..off + n] + if off + n == |rx[0]| then Flatten(rx[1..])
            else Flatten(rx)[off + n..]
  {
    var all, rest := Flatten(rx), Flatten(rx[1..]);
    hide Flatten;
    assert all == rx[0] + rest;
    assert all[off..off + n] == rx[0][off..off + n];
    assert all[off + n..] == rx[0][off + n..] + rest;
  }

  /** The chains that arrive without an error. */
  ghost function Arrives(events: seq<Event>): seq<Pbuf> {
    if events == [] then [] else Arrives(events[..|events| - 1]) + Brings(events[|events| - 1])
  }

  predicate IsFin(e: Event) {
    e.Recv? && e.chain == []
  }

  ghost predicate HasFin(events: seq<Event>) {
    exists i :: 0 <= i < |events| && IsFin(events[i])
  }

  lemma HasFinConcat(a: seq<Event>, b: seq<Event>)
    ensures HasFin(a + b) <==> HasFin(a) || HasFin(b)
    ensures Err in a + b <==> Err in a || Err in b
  {
    forall i | 0 <= i < |a| ensures a[i] == (a + b)[i] {}
    forall i | 0 <= i < |b| ensures b[i] == (a + b)[|a| + i] {}
  }

  ghost function All(polls: seq<Poll>): seq<Event> {
    if polls == [] then [] else All(polls[..|polls| - 1]) + polls[|polls| - 1].events
  }

  /** What one callback brings. */
  ghost function Brings(e: Event): seq<Pbuf> {
    if e.Recv? && e.ok then e.chain else []
  }

  lemma ArrivesStep(events: seq<Event>)
    ensures Arrives(events) == if events == [] then []
            else Arrives(events[..|events| - 1]) + Brings(events[|events| - 1])
  {}

  lemma {:induction false} ArrivesConcat(a: seq<Event>, b: seq<Event>)
    ensures Arrives(a + b) == Arrives(a) + Arrives(b)
  {
    hide Arrives, Brings;
    ArrivesStep(b);
    if b == [] {
      assert a + b == a;
      assert Arrives(a) + [] == Arrives(a);
    } else {
      var ab := a + b;
      ArrivesConcat(a, b[..|b| - 1]);
      ArrivesStep(ab);
      assert ab[..|ab| - 1] == a + b[..|b| - 1];
      var front, back, last := Arrives(a), Arrives(b[..|b| - 1]), Brings(b[|b| - 1]);
      assert front + (back + last) == front + back + last;
    }
  }

  lemma NoneArrive(rx: seq<Pbuf>, stream: seq<byte>)
    ensures !HasFin([]) && rx == rx + Arrives([]) && stream == stream + Flatten(Arrives([]))
  {}

  lemma ArriveOne(rx: seq<Pbuf>, stream: seq<byte>, events: seq<Event>, i: nat)
    requires i < |events|
    ensures var more := Brings(events[i]);
            && rx + Arrives(events[..i + 1]) == rx + Arrives(events[..i]) + more
            && stream + Flatten(Arrives(events[..i + 1])) == stream + Flatten(Arrives(events[..i])) + Flatten(more)
            && Flatten([]) == []
  {
    hide Arrives, Flatten, Brings;
    assert events[..i + 1][..i] == events[..i];
    ArrivesStep(events[..i + 1]);
    FlattenConcat(Arrives(events[..i]), Brings(events[i]));
    FlattenStep([]);
  }

  lemma FinOne(events: seq<Event>, i: nat)
    requires i < |events|
    ensures HasFin(events[..i + 1]) <==> HasFin(events[..i]) || IsFin(events[i])
  {
    assert events[..i + 1] == events[..i] + [events[i]];
    HasFinConcat(events[..i], [events[i]]);
    assert HasFin([events[i]]) <==> IsFin([events[i]][0]);
  }

  /** One more poll. */
  lemma ArriveMore(rx: seq<Pbuf>, stream: seq<byte>, polls: seq<Poll>, k: nat)
    requires k < |polls|
    ensures All(polls[..k + 1]) == All(polls[..k]) + polls[k].events
    ensures rx + Arrives(All(polls[..k + 1])) == rx + Arrives(All(polls[..k])) + Arrives(polls[k].events)
    ensures stream + Flatten(Arrives(All(polls[..k + 1])))
            == stream + Flatten(Arrives(All(polls[..k]))) + Flatten(Arrives(polls[k].events))
  {
    hide Arrives, Flatten;
    assert polls[..k + 1][..k] == polls[..k];
    ArrivesConcat(All(polls[..k]), polls[k].events);
    FlattenConcat(Arrives(All(polls[..k])), Arrives(polls[k].events));
  }

  /** A socket in this state has something to report after these callbacks. */
  ghost predicate Ready(rx: seq<Pbuf>, eof: bool, state: State, events: seq<Event>) {
    rx + Arrives(events) != [] || eof || state == ERROR || HasFin(events) || Err in events
  }

  /** The time was not up after `k` polls. */
  predicate InTime(start: nat, polls: seq<Poll>, k: nat)
    requires k <= |polls|
  {
    k > 0 ==> !Late(start, polls[k - 1].now)
  }

  /** As many of the next bytes of a pbuf as fit, none only if it is empty. */
  predicate TakenFrom(data: seq<byte>, pbuf: Pbuf, off: nat, len: nat) {
    && off <= |pbuf| && data <= pbuf[off..] && |data| <= len && (|data| < len ==> data == pbuf[off..])
    && (data == [] <==> pbuf == [])
  }

  // The calls and callbacks on values

  /** What recv and its callbacks look at. */
  datatype Rx = Rx(state: State, pcb: bool, rx: seq<Pbuf>, off: nat, eof: bool)

  ghost function Came(n: Rx, events: seq<Event>): Rx {
    Rx(if Err in events then ERROR else n.state, n.pcb && Err !in events, n.rx + Arrives(events), n.off,
      n.eof || HasFin(events))
  }

  /** As many bytes of the first pbuf as fit. */
  function Head(n: Rx, len: nat): seq<byte>
    requires n.rx != []
  {
    if n.off > |n.rx[0]| then []
    else if len < |n.rx[0]| - n.off then n.rx[0][n.off..n.off + len]
    else n.rx[0][n.off..]
  }

  function Beheaded(n: Rx, len: nat): Rx
    requires n.rx != []
  {
    var k := n.off + |Head(n, len)|;
    if k == |n.rx[0]| then n.(rx := n.rx[1..], off := 0) else n.(off := k)
  }

  /** net_shim_recv on values, with the number of polls it makes. */
  ghost function RecvSpec(n: Rx, len: nat, start: nat, polls: seq<Poll>): (Rx, Outcome, nat)
    decreases |polls|
  {
    if len == 0 then (n, Returned([]), 0)
    else if n.rx != [] then (Beheaded(n, len), Returned(Head(n, len)), 0)
    else if n.eof then (n, Returned([]), 0)
    else if n.state == ERROR then (n, Failed(ECONNRESET), 0)
    else if polls == [] then (n, Blocked, 0)
    else if Late(start, polls[0].now) then (Came(n, polls[0].events), Failed(ETIMEDOUT), 1)
    else Later(RecvSpec(Came(n, polls[0].events), len, start, polls[1..]), 1)
  }

  /** `k` polls have passed before. */
  ghost function Later(a: (Rx, Outcome, nat), k: nat): (Rx, Outcome, nat) {
    (a.0, a.1, a.2 + k)
  }

  lemma RecvNow(n: Rx, len: nat, start: nat, polls: seq<Poll>)
    requires n.rx != [] || n.eof || n.state == ERROR || polls == [] || len == 0
    ensures RecvSpec(n, len, start, polls) ==
            if len == 0 then (n, Returned([]), 0)
            else if n.rx != [] then (Beheaded(n, len), Returned(Head(n, len)), 0)
            else (n, if n.eof then Returned([]) else if n.state == ERROR then Failed(ECONNRESET) else Blocked, 0)
  {}

  lemma RecvLater(n: Rx, len: nat, start: nat, polls: seq<Poll>, k: nat)
    requires len > 0 && n.rx == [] && !n.eof && n.state != ERROR && polls != []
    ensures Later(RecvSpec(n, len, start, polls), k) ==
            if Late(start, polls[0].now) then (Came(n, polls[0].events), Failed(ETIMEDOUT), k + 1)
            else Later(RecvSpec(Came(n, polls[0].events), len, start, polls[1..]), k + 1)
  {}

  /** The socket after `k` polls without a read. */
  ghost function Polled(n: Rx, polls: seq<Poll>, k: nat): Rx
    requires k <= |polls|
  {
    Came(n, All(polls[..k]))
  }

  ghost predicate ReadyAfter(n: Rx, polls: seq<Poll>, k: nat)
    requires k <= |polls|
  {
    Ready(n.rx, n.eof, n.state, All(polls[..k]))
  }

  /** What a recv has done when it returns `r` after `k` polls. */
  ghost predicate Reports(n: Rx, len: nat, start: nat, polls: seq<Poll>, z: Rx, r: Outcome, k: nat) {
    && k <= |polls| && z.eof == Polled(n, polls, k).eof && z.state == Polled(n, polls, k).state
    && (len == 0 ==> r == Returned([]) && k == 0)
    && (len > 0 ==> forall j: nat :: j < k ==> InTime(start, polls, j) && !ReadyAfter(n, polls, j))
    && (len > 0 ==> EndsIn(n, len, Polled(n, polls, k).rx, z, r, ReadyAfter(n, polls, k), InTime(start, polls, k),
          k == |polls|))
  }

  /** The result, from the chain that has built up, whether there is something to report and whether time is left. */
  ghost predicate EndsIn(n: Rx, len: nat, chain: seq<Pbuf>, z: Rx, r: Outcome, ready: bool, inTime: bool, last: bool) {
    match r
    case Returned(data) =>
      && inTime && ready && (chain == [] ==> data == [] && z.eof && z.rx == [])
      && (chain != [] ==> TakenFrom(data, chain[0], n.off, len))
    case Failed(errno) =>
      if inTime then errno == ECONNRESET && chain == [] && !z.eof && z.state == ERROR else errno == ETIMEDOUT
    case Blocked => last && !ready && inTime
    case NoCall => false
  }

  lemma ReadyIff(n: Rx, events: seq<Event>)
    ensures var c := Came(n, events);
            Ready(n.rx, n.eof, n.state, events) <==> c.rx != [] || c.eof || c.state == ERROR
  {}

  lemma HeadTaken(n: Rx, len: nat)
    requires len > 0 && n.rx != [] && (n.off == 0 || n.off < |n.rx[0]|)
    ensures TakenFrom(Head(n, len), n.rx[0], n.off, len)
    ensures Beheaded(n, len).eof == n.eof && Beheaded(n, len).state == n.state
  {}

  /** A recv that does not poll again, after these callbacks. */
  lemma EndsNow(n: Rx, len: nat, events: seq<Event>, start: nat, polls: seq<Poll>)
    requires len > 0 && (n.rx == [] ==> n.off == 0) && (n.rx != [] ==> n.off == 0 || n.off < |n.rx[0]|)
    requires var c := Came(n, events); c.rx != [] || c.eof || c.state == ERROR || polls == []
    ensures var c := Came(n, events);
            var (z, r, k) := RecvSpec(c, len, start, polls);
            && k == 0 && z.eof == c.eof && z.state == c.state
            && forall last: bool :: (polls == [] ==> last) ==>
                 EndsIn(n, len, n.rx + Arrives(events), z, r, Ready(n.rx, n.eof, n.state, events), true, last)
  {
    hide Arrives, HasFin, Late, RecvSpec, Head, Beheaded, Ready, TakenFrom;
    var c := Came(n, events);
    ReadyIff(n, events);
    RecvNow(c, len, start, polls);
    if c.rx != [] { HeadTaken(c, len); }
  }

  lemma HeadFacts(n: Rx, len: nat)
    requires n.rx != [] && (n.off == 0 || n.off < |n.rx[0]|)
    ensures var data := Head(n, len);
            && data <= n.rx[0][n.off..] && |data| <= len && (|data| < len ==> data == n.rx[0][n.off..])
            && (len > 0 && data == [] ==> n.rx[0] == [])
  {}

  lemma Reassociate(read: seq<byte>, data: seq<byte>, left: seq<byte>)
    ensures read + (data + left) == read + data + left
  {}

  lemma PolledMore(n: Rx, polls: seq<Poll>, k: nat)
    requires k < |polls|
    ensures Polled(n, polls, k + 1) == Came(Polled(n, polls, k), polls[k].events)
  {
    hide All, Arrives, HasFin;
    ArriveMore(n.rx, [], polls, k);
    HasFinConcat(All(polls[..k]), polls[k].events);
  }

  lemma PolledNone(n: Rx, polls: seq<Poll>)
    ensures Polled(n, polls, 0) == n
  {
    NonePolled(n.rx, [], polls);
  }

  lemma ReadyAfterIff(n: Rx, polls: seq<Poll>, k: nat)
    requires k <= |polls|
    ensures var c := Polled(n, polls, k); ReadyAfter(n, polls, k) <==> c.rx != [] || c.eof || c.state == ERROR
  {
    ReadyIff(n, All(polls[..k]));
  }

  lemma EndsAfter(n: Rx, len: nat, start: nat, polls: seq<Poll>, k: nat)
    requires len > 0 && (n.rx == [] ==> n.off == 0) && (n.rx != [] ==> n.off == 0 || n.off < |n.rx[0]|)
    requires k <= |polls| && (ReadyAfter(n, polls, k) || k == |polls|) && InTime(start, polls, k)
    ensures var c := Polled(n, polls, k);
            var (z, r, i) := RecvSpec(c, len, start, polls[k..]);
            && i == 0 && z.eof == c.eof && z.state == c.state
            && EndsIn(n, len, c.rx, z, r, ReadyAfter(n, polls, k), InTime(start, polls, k), k == |polls|)
  {
    hide All, Arrives, HasFin, Late, RecvSpec, EndsIn;
    ReadyAfterIff(n, polls, k);
    EndsNow(n, len, All(polls[..k]), start, polls[k..]);
  }

  lemma {:induction false} RecvReports(n: Rx, len: nat, start: nat, polls: seq<Poll>)
    requires n.rx == [] ==> n.off == 0
    requires n.rx != [] ==> n.off == 0 || n.off < |n.rx[0]|
    ensures var (z, r, k) := RecvSpec(n, len, start, polls); Reports(n, len, start, polls, z, r, k)
  {
    hide Late, RecvSpec, Polled, ReadyAfter, EndsIn, Came;
    var goal := RecvSpec(n, len, start, polls);
    var k: nat := 0;
    PolledNone(n, polls);
    assert polls[0..] == polls;
    if len == 0 {
      RecvNow(n, len, start, polls);
      return;
    }
    while true
      invariant k <= |polls| && goal == Later(RecvSpec(Polled(n, polls, k), len, start, polls[k..]), k)
      invariant forall j: nat :: j < k ==> !ReadyAfter(n, polls, j) && !Late(start, polls[j].now)
      decreases |polls| - k
    {
      ReadyAfterIff(n, polls, k);
      if ReadyAfter(n, polls, k) || k == |polls| {
        EndsAfter(n, len, start, polls, k);
        return;
      }
      RecvLater(Polled(n, polls, k), len, start, polls[k..], k);
      assert polls[k..][1..] == polls[k + 1..];
      PolledMore(n, polls, k);
      k := k + 1;
      if Late(start, polls[k - 1].now) {
        TimesOut(n, len, Polled(n, polls, k).rx, Polled(n, polls, k), ReadyAfter(n, polls, k), k == |polls|);
        return;
      }
    }
  }

  lemma TimesOut(n: Rx, len: nat, chain: seq<Pbuf>, z: Rx, ready: bool, last: bool)
    ensures EndsIn(n, len, chain, z, Failed(ETIMEDOUT), ready, false, last)
  {}

  /** No byte is lost, repeated or reordered, and the window is credited with exactly the bytes read. */
  ghost predicate Conserves(n: Rx, delivered: seq<byte>, read: seq<byte>, recved: nat) {
    && Short(n.rx)
    && (n.rx == [] ==> n.off == 0) && (n.rx != [] ==> n.off == 0 || n.off < |n.rx[0]|)
    && n.off <= |Flatten(n.rx)|
    && delivered == read + Flatten(n.rx)[n.off..]
    && recved <= |read| && (n.pcb ==> recved == |read|)
  }

  lemma ConservesRead(n: Rx, len: nat, delivered: seq<byte>, read: seq<byte>, recved: nat)
    requires Conserves(n, delivered, read, recved) && n.rx != []
    ensures |Head(n, len)| <= 0xFFFF && (n.off == 0 || n.off < |n.rx[0]|)
    ensures var r := recved + if n.pcb then |Head(n, len)| else 0;
            Conserves(Beheaded(n, len), delivered, read + Head(n, len), r)
  {
    ReadKeeps(n, len);
    var z := Beheaded(n, len);
    Reassociate(read, Head(n, len), Flatten(z.rx)[z.off..]);
    hide Flatten, Head, Short;
  }

  lemma ConservesMore(n: Rx, p: seq<Pbuf>, delivered: seq<byte>, read: seq<byte>, recved: nat)
    requires Conserves(n, delivered, read, recved) && Short(p)
    ensures Conserves(n.(rx := n.rx + p), delivered + Flatten(p), read, recved)
  {
    FlattenMore(read, n.rx, n.off, p);
    hide Flatten;
  }

  lemma ConservesSame(n: Rx, m: Rx, delivered: seq<byte>, read: seq<byte>, recved: nat)
    requires Conserves(n, delivered, read, recved) && m.rx == n.rx && m.off == n.off && (m.pcb ==> n.pcb)
    ensures Conserves(m, delivered, read, recved)
  {}

  /** Reading moves the first bytes of the stream from the chain to what was read. */
  lemma ReadKeeps(n: Rx, len: nat)
    requires n.rx != [] && (n.off == 0 || n.off < |n.rx[0]|) && Short(n.rx) && n.off <= |Flatten(n.rx)|
    ensures var z := Beheaded(n, len);
            && Short(z.rx) && (z.rx == [] ==> z.off == 0) && (z.rx != [] ==> z.off == 0 || z.off < |z.rx[0]|)
            && z.off <= |Flatten(z.rx)| && |Head(n, len)| <= 0xFFFF
            && Flatten(n.rx)[n.off..] == Head(n, len) + Flatten(z.rx)[z.off..]
  {
    FlattenRead(n.rx, n.off, |Head(n, len)|);
    FlattenStep(n.rx);
    hide Flatten;
  }

  class Socket {
    var state: State
    var pcb: bool
    var rx: seq<Pbuf>
    var rxOff: nat
    var eof: bool
    ghost var delivered: seq<byte>   // what on_recv took
    ghost var read: seq<byte>        // what recv returned
    ghost var recved: nat            // the sum of the tcp_recved calls

    ghost function Buffered(): seq<byte>
      reads this
      requires rxOff <= |Flatten(rx)|
    {
      Flatten(rx)[rxOff..]
    }

    ghost function Whole(): Rx
      reads this
    {
      Rx(state, pcb, rx, rxOff, eof)
    }

    ghost predicate Valid()
      reads this
    {
      Conserves(Whole(), delivered, read, recved)
    }

    constructor (state: State, pcb: bool)
      ensures Valid() && this.state == state && this.pcb == pcb && rx == [] && delivered == [] && !eof
    {
      this.state, this.pcb, rx, rxOff, eof := state, pcb, [], 0, false;
      delivered, read, recved := [], [], 0;
      new;
      FlattenStep([]);
      hide Flatten;
    }

    method OnRecv(p: seq<Pbuf>, ok: bool)
      requires Valid() && Short(p)
      modifies this`rx, this`eof, this`delivered
      ensures Valid() && eof == (old(eof) || p == [])
      ensures rx == old(rx) + (if ok then p else [])
      ensures delivered == old(delivered) + (if ok then Flatten(p) else [])
    {
      hide Conserves, Flatten, Short;
      NoneArrive(rx, delivered);
      if p == [] {
        ConservesSame(Whole(), Whole().(eof := true), delivered, read, recved);
        eof := true;
        return;
      }
      if !ok { return; }
      ConservesMore(Whole(), p, delivered, read, recved);
      assert rx == [] ==> rx + p == p;
      if rx != [] {
        rx := rx + p;
      } else {
        rx := p;
      }
      delivered := delivered + Flatten(p);
    }

    method OnErr()
      requires Valid()
      modifies this`pcb, this`state
      ensures Valid() && !pcb && state == ERROR
    {
      pcb, state := false, ERROR;
    }

    /** net_poll runs whatever callbacks are due. */
    method NetPoll(events: seq<Event>)
      requires Valid() && ShortEvents(events)
      modifies this`rx, this`eof, this`delivered, this`pcb, this`state
      ensures Valid() && rx == old(rx) + Arrives(events)
      ensures delivered == old(delivered) + Flatten(Arrives(events))
      ensures eof == (old(eof) || HasFin(events))
      ensures pcb == (old(pcb) && Err !in events) && state == if Err in events then ERROR else old(state)
      ensures Whole() == Came(old(Whole()), events)
    {
      hide Flatten, Arrives, Valid, HasFin;
      var i := 0;
      NoneArrive(rx, delivered);
      assert events[..0] == [];
      while i < |events|
        invariant 0 <= i <= |events| && Valid() && rx == old(rx) + Arrives(events[..i])
        invariant delivered == old(delivered) + Flatten(Arrives(events[..i]))
        invariant eof == (old(eof) || HasFin(events[..i]))
        invariant pcb == (old(pcb) && Err !in events[..i]) && state == if Err in events[..i] then ERROR else old(state)
      {
        ArriveOne(old(rx), old(delivered), events, i);
        FinOne(events, i);
        assert events[..i + 1] == events[..i] + [events[i]];
        match events[i] {
          case Recv(chain, ok) =>
            OnRecv(chain, ok);
          case Err =>
            OnErr();
        }
        i := i + 1;
      }
      assert events[..i] == events;
    }

    /** bsock_read: at most the rest of the first pbuf, which goes when it is used up. */
    method Read(len: nat) returns (data: seq<byte>)
      requires Valid() && rx != []
      modifies this`rx, this`rxOff, this`read, this`recved
      ensures Valid() && read == old(read) + data
      ensures old(rxOff) <= |old(rx[0])| && data <= old(rx[0])[old(rxOff)..] && |data| <= len
      ensures |data| < len ==> data == old(rx[0])[old(rxOff)..]
      ensures len > 0 && data == [] ==> old(rx[0]) == []
      ensures recved == old(recved) + if pcb then |data| else 0
      ensures Whole() == Beheaded(old(Whole()), len) && data == Head(old(Whole()), len)
    {
      hide Conserves;
      ghost var was := Whole();
      ConservesRead(was, len, delivered, read, recved);
      HeadFacts(was, len);
      var p := rx[0];
      var avail := |p| - rxOff;
      var n := if len < avail then len else avail;
      data := p[rxOff..rxOff + n];
      rxOff := rxOff + n;
      if rxOff == |p| {
        rx := rx[1..];
        rxOff := 0;
      }
      assert data == Head(was, len) && Whole() == Beheaded(was, len) && n == |data|;
      hide Head, Beheaded;
      read := read + data;
      if pcb {
        recved := recved + n % 0x10000;
      }
    }

    /**
     * net_shim_recv: `k` polls pass, none of them after something could be reported or the time was up.
     * For a positive length, 0 is returned exactly when the stream has ended with nothing left or an empty pbuf
     * heads the chain.
     */
    method NetRecv(len: nat, start: nat, polls: seq<Poll>) returns (r: Outcome, k: nat)
      requires Valid() && forall i :: 0 <= i < |polls| ==> ShortEvents(polls[i].events)
      modifies this
      ensures (Whole(), r, k) == RecvSpec(old(Whole()), len, start, polls)
      ensures Reports(old(Whole()), len, start, polls, Whole(), r, k)
      ensures Valid() && (pcb ==> old(pcb)) && (rx == [] ==> read == delivered)
      ensures delivered == old(delivered) + Flatten(Arrives(All(polls[..k])))
      ensures read == old(read) + (if r.Returned? then r.data else [])
    {
      hide Flatten, Arrives, All, Valid, HasFin, Late, ShortEvents, RecvSpec, Head, Beheaded, Came, Reports;
      k := 0;
      NonePolled(rx, delivered, polls);
      AllRead();
      RecvReports(Whole(), len, start, polls);
      ghost var goal := RecvSpec(Whole(), len, start, polls);
      assert polls[0..] == polls;
      if len == 0 {
        RecvNow(Whole(), len, start, polls);
        return Returned([]), 0;
      }
      while true
        invariant k <= |polls| && Valid() && read == old(read) && (pcb ==> old(pcb)) && (rx == [] ==> read == delivered)
        invariant delivered == old(delivered) + Flatten(Arrives(All(polls[..k])))
        invariant goal == Later(RecvSpec(Whole(), len, start, polls[k..]), k)
        decreases |polls| - k
      {
        if rx != [] || eof || state == ERROR || k == |polls| { RecvNow(Whole(), len, start, polls[k..]); }
        if rx != [] {
          var data := Read(len);
          AllRead();
          return Returned(data), k;
        }
        if eof { return Returned([]), k; }
        if state == ERROR { return Failed(ECONNRESET), k; }
        if k == |polls| { return Blocked, k; }
        RecvLater(Whole(), len, start, polls[k..], k);
        assert polls[k..][1..] == polls[k + 1..];
        ArriveMore(old(rx), old(delivered), polls, k);
        NetPoll(polls[k].events);
        AllRead();
        k := k + 1;
        if Late(start, polls[k - 1].now) { return Failed(ETIMEDOUT), k; }
      }
    }

    lemma Conserved()
      requires Valid()
      ensures rxOff <= |Flatten(rx)| && delivered == read + Buffered() && (pcb ==> recved == |read|)
    {}

    lemma AllRead()
      requires Valid()
      ensures (rx == [] ==> read == delivered && rxOff == 0) && (rx != [] ==> rxOff == 0 || rxOff < |rx[0]|)
    {}
  }

  /** An empty pbuf makes recv return 0 before the stream has ended. */
  method EmptyPbufReads() returns (r: Outcome, eof: bool)
    ensures r == Returned([]) && !eof
  {
    hide All, Flatten, Arrives, Socket.Valid, Late;
    var s := new Socket(CONNECTED, true);
    s.OnRecv([[]], true);
    NonePolled(s.rx, s.delivered, []);
    var polls: seq<Poll> := [];
    assert polls[..0] == [];
    var k;
    r, k := s.NetRecv(1, 0, polls);
    eof := s.eof;
  }

  lemma NonePolled(rx: seq<Pbuf>, stream: seq<byte>, polls: seq<Poll>)
    ensures !HasFin(All(polls[..0])) && Err !in All(polls[..0])
    ensures rx == rx + Arrives(All(polls[..0])) && stream == stream + Flatten(Arrives(All(polls[..0])))
  {
    NoneArrive(rx, stream);
  }

  // Whole runs

  /** A recv, or callbacks that other calls' polls run in between. */
  datatype Deed = Receive(len: nat, start: nat, polls: seq<Poll>) | Callbacks(events: seq<Event>)

  predicate ShortDeed(d: Deed) {
    match d
    case Receive(_, _, polls) => forall i :: 0 <= i < |polls| ==> ShortEvents(polls[i].events)
    case Callbacks(events) => ShortEvents(events)
  }

  /** The number of polls a deed made fits it. */
  predicate Made(d: Deed, k: nat) {
    d.Receive? ==> k <= |d.polls|
  }

  /** The callbacks that a deed ran, a recv during `k` polls. */
  ghost function Ran(d: Deed, k: nat): seq<Event>
    requires Made(d, k)
  {
    match d
    case Receive(_, _, polls) => All(polls[..k])
    case Callbacks(events) => events
  }

  ghost function Happened(deeds: seq<Deed>, ks: seq<nat>): seq<Event>
    requires |ks| == |deeds| && forall i :: 0 <= i < |ks| ==> Made(deeds[i], ks[i])
  {
    if deeds == [] then []
    else
      var n := |deeds| - 1;
      Happened(deeds[..n], ks[..n]) + Ran(deeds[n], ks[n])
  }

  lemma StreamGrows(stream: seq<byte>, a: seq<Event>, b: seq<Event>)
    ensures stream + Flatten(Arrives(a + b)) == stream + Flatten(Arrives(a)) + Flatten(Arrives(b))
  {
    hide Arrives, Flatten;
    ArrivesConcat(a, b);
    FlattenConcat(Arrives(a), Arrives(b));
  }

  function DataOf(r: Outcome): seq<byte> {
    if r.Returned? then r.data else []
  }

  /** All that a run has returned. */
  function Got(results: seq<Outcome>): seq<byte> {
    if results == [] then [] else Got(results[..|results| - 1]) + DataOf(results[|results| - 1])
  }

  ghost function DeedSpec(n: Rx, d: Deed): (Rx, Outcome, nat) {
    match d
    case Receive(len, start, polls) => RecvSpec(n, len, start, polls)
    case Callbacks(events) => (Came(n, events), NoCall, 0)
  }

  /** A run on values: the results of its deeds, and the polls each made. */
  ghost function ServeSpec(n: Rx, deeds: seq<Deed>): (Rx, seq<Outcome>, seq<nat>)
    decreases |deeds|
  {
    if deeds == [] then (n, [], [])
    else
      var (w, r, k) := DeedSpec(n, deeds[0]);
      Join([r], [k], ServeSpec(w, deeds[1..]))
  }

  ghost function Join(results: seq<Outcome>, ks: seq<nat>, rest: (Rx, seq<Outcome>, seq<nat>))
    : (Rx, seq<Outcome>, seq<nat>)
  {
    (rest.0, results + rest.1, ks + rest.2)
  }

  lemma ServeStep(n: Rx, deeds: seq<Deed>, results: seq<Outcome>, ks: seq<nat>)
    requires deeds != []
    ensures var (w, r, k) := DeedSpec(n, deeds[0]);
            Join(results, ks, ServeSpec(n, deeds)) == Join(results + [r], ks + [k], ServeSpec(w, deeds[1..]))
  {
    var (w, r, k) := DeedSpec(n, deeds[0]);
    var (z, rs, js) := ServeSpec(w, deeds[1..]);
    assert results + ([r] + rs) == results + [r] + rs && ks + ([k] + js) == ks + [k] + js;
  }

  lemma ServeEnds(n: Rx, deeds: seq<Deed>, results: seq<Outcome>, ks: seq<nat>)
    ensures deeds == [] ==> Join(results, ks, ServeSpec(n, deeds)) == (n, results, ks)
    ensures Join([], [], ServeSpec(n, deeds)) == ServeSpec(n, deeds)
  {
    assert results + [] == results && ks + [] == ks;
    assert [] + ServeSpec(n, deeds).1 == ServeSpec(n, deeds).1 && [] + ServeSpec(n, deeds).2 == ServeSpec(n, deeds).2;
  }

  lemma GotMore(results: seq<Outcome>, r: Outcome)
    ensures Got(results + [r]) == Got(results) + DataOf(r) && Got([]) == []
  {
    assert (results + [r])[..|results|] == results;
  }

  /** One deed adds to the stream what it ran, and to what was read what it returned. */
  method Do(s: Socket, d: Deed) returns (r: Outcome, k: nat)
    requires s.Valid() && ShortDeed(d)
    modifies s
    ensures s.Valid() && Made(d, k) && (s.pcb ==> old(s.pcb))
    ensures s.read == old(s.read) + DataOf(r) && s.delivered == old(s.delivered) + Flatten(Arrives(Ran(d, k)))
    ensures (s.Whole(), r, k) == DeedSpec(old(s.Whole()), d)
  {
    hide All, Arrives, Flatten, Socket.Valid, ShortEvents, Ready, Late, RecvSpec, Came;
    match d {
      case Receive(len, start, polls) =>
        r, k := s.NetRecv(len, start, polls);
      case Callbacks(events) =>
        s.NetPoll(events);
        r, k := NoCall, 0;
        assert s.read + DataOf(r) == s.read;
    }
  }

  /**
   * Over any run of recv calls and callbacks, what the calls return followed by what is left over is what was
   * there followed by what arrived, and the window is credited with what was returned while the pcb lives.
   */
  method Serve(s: Socket, deeds: seq<Deed>) returns (results: seq<Outcome>, ks: seq<nat>)
    requires s.Valid() && forall i :: 0 <= i < |deeds| ==> ShortDeed(deeds[i])
    modifies s
    ensures s.Valid() && |ks| == |deeds| && forall i :: 0 <= i < |ks| ==> Made(deeds[i], ks[i])
    ensures (s.Whole(), results, ks) == ServeSpec(old(s.Whole()), deeds)
    ensures Got(results) + s.Buffered() == old(s.Buffered()) + Flatten(Arrives(Happened(deeds, ks)))
    ensures s.pcb ==> s.recved == old(s.recved) + |Got(results)|
  {
    hide *;
    s.Conserved();
    results, ks := [], [];
    ghost var out, goal := [], ServeSpec(s.Whole(), deeds);
    assert deeds[0..] == deeds;
    ServeEnds(s.Whole(), deeds, [], []);
    GotMore([], NoCall);
    var n := 0;
    NoneHappened(s.delivered);
    assert deeds[..0] == [];
    assert s.read + out == s.read;
    while n < |deeds|
      invariant 0 <= n <= |deeds| && |ks| == n && s.Valid() && (s.pcb ==> old(s.pcb))
      invariant forall i :: 0 <= i < n ==> Made(deeds[i], ks[i])
      invariant s.read == old(s.read) + out && out == Got(results)
      invariant goal == Join(results, ks, ServeSpec(s.Whole(), deeds[n..]))
      invariant s.delivered == old(s.delivered) + Flatten(Arrives(Happened(deeds[..n], ks)))
    {
      ServeStep(s.Whole(), deeds[n..], results, ks);
      assert deeds[n..][1..] == deeds[n + 1..];
      var r, k := Do(s, deeds[n]);
      StreamGrows(old(s.delivered), Happened(deeds[..n], ks), Ran(deeds[n], k));
      assert old(s.read) + out + DataOf(r) == old(s.read) + (out + DataOf(r));
      GotMore(results, r);
      out, results := out + DataOf(r), results + [r];
      HappenedMore(deeds, n, ks, k);
      ks := ks + [k];
      n := n + 1;
    }
    assert deeds[..|deeds|] == deeds && deeds[n..] == [];
    ServeEnds(s.Whole(), deeds[n..], results, ks);
    s.Conserved();
    Cancel(s.read, out, s.Buffered(), old(s.read), old(s.Buffered()), Flatten(Arrives(Happened(deeds, ks))));
  }

  lemma Cancel(read': seq<byte>, out: seq<byte>, left: seq<byte>, read: seq<byte>, had: seq<byte>, came: seq<byte>)
    requires read' == read + out && read' + left == read + had + came
    ensures out + left == had + came
  {
    var whole := read + (out + left);
    assert read + out + left == whole && read + had + came == read + (had + came);
    assert whole[|read|..] == out + left && whole[|read|..] == had + came;
  }

  lemma NoneHappened(stream: seq<byte>)
    ensures Happened([], []) == [] && stream == stream + Flatten(Arrives([]))
  {}

  lemma HappenedMore(deeds: seq<Deed>, n: nat, ks: seq<nat>, k: nat)
    requires n < |deeds| && |ks| == n && Made(deeds[n], k) && forall i :: 0 <= i < n ==> Made(deeds[i], ks[i])
    ensures forall i :: 0 <= i <= n ==> Made(deeds[i], (ks + [k])[i])
    ensures Happened(deeds[..n + 1], ks + [k]) == Happened(deeds[..n], ks) + Ran(deeds[n], k)
  {
    assert deeds[..n + 1][..n] == deeds[..n] && (ks + [k])[..n] == ks;
  }
}
