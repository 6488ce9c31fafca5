/** The operations of a TCP netconn in api_msg.c, each message of which must be acknowledged exactly once. */
module Netconns {
  import opened Octets
  import opened VectorWrite

  datatype State = NONE | WRITE | LISTEN | CONNECT | CLOSE

  datatype Shut = RD | WR | RDWR

  /** current_msg: NULL, or the number of the message and its fields for a close or a write. */
  datatype Msg =
    | NoMsg
    | Connecting(id: nat)
    | Closing(id: nat, shut: Shut, pollsLeft: nat)
    | Writing(id: nat, dontblock: bool, w: W)

  /**
   * pcb.tcp: NULL, or whether it listens, whether its poll and err callbacks and its sent callback are
   * this netconn's, and whether its connected callback is still to come.
   */
  datatype Pcb = NoPcb | Pcb(listening: bool, hooked: bool, sentHook: bool, connecting: bool)

  /** (20000 ms + 499) / 500 ms + 1, what netconn_delete and netconn_shutdown allow. */
  const POLLS := 41

  /**
   * What lwip_netconn_do_close_internal meets: whether the pcb has sent a FIN, whether its receive side is
   * closed, and the result of tcp_close or tcp_shutdown.
   */
  datatype CloseEnv = CloseEnv(finSent: bool, rxClosed: bool, err: TcpErr)

  /** What lwip_netconn_do_writemore meets. */
  datatype WriteEnv = WriteEnv(tcp: seq<Tcp>, noRoute: bool)

  /** What has happened to the messages so far. */
  datatype Log = Log(submitted: set<nat>, acks: multiset<nat>, results: map<nat, Err>)

  ghost predicate Current(msg: Msg, m: nat) {
    !msg.NoMsg? && msg.id == m
  }

  /** A message is acknowledged once, or it is the current one and not acknowledged yet. */
  ghost predicate AckedOnce(h: Log, msg: Msg) {
    && (!msg.NoMsg? ==> msg.id in h.submitted)
    && (forall m :: h.acks[m] == if m in h.submitted && !Current(msg, m) then 1 else 0)
    && (forall m :: m in h.results <==> h.acks[m] == 1)
  }

  /** The pointers that the callbacks rely on, and the callbacks that a waiting call relies on. */
  ghost predicate Sound(state: State, msg: Msg, pcb: Pcb, broken: bool) {
    && (state == WRITE <==> msg.Writing?) && (state == CLOSE <==> msg.Closing?)
      && (state == CONNECT <==> msg.Connecting?)
    && (!msg.NoMsg? ==> pcb.Pcb? && !pcb.listening && (state != WRITE ==> pcb.hooked))
    && (pcb.Pcb? && !pcb.listening ==> pcb.hooked || broken)
    && (pcb.Pcb? ==> (pcb.listening <==> state == LISTEN) && (pcb.connecting <==> state == CONNECT))
    && (msg.Closing? ==> msg.pollsLeft >= 1)
  }

  /** A write as it was submitted. */
  datatype Asked = Asked(vectors: seq<seq<byte>>, dontblock: bool)

  /** A waiting write meets the assertions of lwip_netconn_do_writemore, and has passed on the data up to its offset. */
  ghost predicate WriteOk(msg: Msg, asked: map<nat, Asked>, passed: map<nat, seq<byte>>, inLoop: bool) {
    && (inLoop ==> msg.Writing?)
    && (msg.Writing? ==>
          && (if inLoop then WInv(msg.w) && msg.w.cnt > 0 else Entry(msg.w) && !msg.dontblock)
          && msg.id in asked && asked[msg.id] == Asked(msg.w.vectors, msg.dontblock)
          && msg.w.offset <= |Flatten(msg.w.vectors)|
          && msg.id in passed && passed[msg.id] == Flatten(msg.w.vectors)[..msg.w.offset])
    && (!msg.NoMsg? && !msg.Writing? ==> msg.id !in asked)
  }

  /** Every write has passed on the front of its data, and a blocking one that succeeded all of it. */
  ghost predicate DataOk(h: Log, asked: map<nat, Asked>, passed: map<nat, seq<byte>>) {
    forall m :: m in asked ==>
      && m in h.submitted && m in passed && passed[m] <= Flatten(asked[m].vectors)
      && (m in h.results && h.results[m] == OK && !asked[m].dontblock ==> passed[m] == Flatten(asked[m].vectors))
  }

  ghost function Acked(h: Log, m: nat, err: Err): Log {
    h.(submitted := h.submitted + {m}, acks := h.acks + multiset{m}, results := h.results[m := err])
  }

  /** The current message is acknowledged and no longer current. */
  lemma AckCurrent(h: Log, msg: Msg, err: Err)
    requires AckedOnce(h, msg) && !msg.NoMsg?
    ensures AckedOnce(Acked(h, msg.id, err), NoMsg)
  {}

  /** A new message is acknowledged at once, whatever is current. */
  lemma AckNew(h: Log, msg: Msg, m: nat, err: Err)
    requires AckedOnce(h, msg) && m !in h.submitted
    ensures AckedOnce(Acked(h, m, err), msg)
  {}

  /** An acknowledgement is right for the data if it does not call a short blocking write a success. */
  lemma DataAck(h: Log, asked: map<nat, Asked>, passed: map<nat, seq<byte>>, m: nat, err: Err)
    requires DataOk(h, asked, passed)
    requires m in asked && err == OK && !asked[m].dontblock ==> passed[m] == Flatten(asked[m].vectors)
    ensures DataOk(Acked(h, m, err), asked, passed)
  {}

  lemma DataSubmit(h: Log, asked: map<nat, Asked>, passed: map<nat, seq<byte>>, m: nat)
    requires DataOk(h, asked, passed)
    ensures DataOk(h.(submitted := h.submitted + {m}), asked, passed)
  {}

  /** A new write has passed on nothing. */
  lemma DataAsk(h: Log, msg: Msg, asked: map<nat, Asked>, passed: map<nat, seq<byte>>, m: nat, ask: Asked)
    requires DataOk(h, asked, passed) && AckedOnce(h, msg) && m !in h.submitted
    ensures DataOk(h.(submitted := h.submitted + {m}), asked[m := ask], passed[m := []]) && m !in asked
  {}

  /** A write passes on more of its data. */
  lemma DataMore(h: Log, msg: Msg, asked: map<nat, Asked>, passed: map<nat, seq<byte>>, data: seq<byte>)
    requires DataOk(h, asked, passed) && AckedOnce(h, msg) && msg.Writing? && msg.id in asked
    requires data <= Flatten(asked[msg.id].vectors)
    ensures DataOk(h, asked, passed[msg.id := data])
  {
    assert Current(msg, msg.id);
  }

  /** A new message becomes current. */
  lemma Submit(h: Log, msg: Msg)
    requires AckedOnce(h, NoMsg) && !msg.NoMsg? && msg.id !in h.submitted
    ensures AckedOnce(h.(submitted := h.submitted + {msg.id}), msg)
  {}

  function ShutClose(shut: Shut, env: CloseEnv): bool {
    shut == RDWR || (shut == RD && env.finSent) || (shut == WR && env.rxClosed)
  }

  /** The result of a close once nothing is left to wait for; one for which memory never came is made by a reset. */
  function CloseErr(err: TcpErr, shutClose: bool): Err {
    if err == TcpOk || (err == TcpMem && shutClose) then OK else if err == TcpMem then MEM else OTHER
  }

  /** The callbacks taken away before the pcb is closed or shut down. */
  function Unhooked(pcb: Pcb, shut: Shut, env: CloseEnv): (r: Pcb)
    requires pcb.Pcb?
    ensures r.Pcb?
  {
    var p := if ShutClose(shut, env) then pcb.(hooked := false) else pcb;
    if !p.listening && shut != RD then p.(sentHook := false) else p
  }

  /** The pointers are in order whether the close is over or waits. */
  lemma CloseSound(pcb: Pcb, msg: Msg, broken: bool, env: CloseEnv)
    requires pcb.Pcb? && !pcb.connecting && msg.Closing? && (!pcb.listening ==> pcb.hooked || broken)
    requires pcb.listening ==> msg.shut == RDWR && env.err == TcpOk
    ensures var shutClose := ShutClose(msg.shut, env);
            var err := CloseErr(env.err, shutClose);
            var tpcb := Unhooked(pcb, msg.shut, env);
            && Sound(NONE, NoMsg, if err == OK && shutClose then NoPcb else tpcb, broken || (shutClose && err != OK))
            && (env.err == TcpMem && msg.pollsLeft > 0 ==>
              Sound(CLOSE, msg, tpcb.(hooked := true, sentHook := tpcb.sentHook || msg.shut != RD), broken))
  {}

  /**
   * What a close comes to: the pcb goes with a close of both ways, and with one of the last way that was open. It
   * then keeps no callbacks if tcp_close fails for good; a half that is shut down keeps all but sent.
   */
  ghost predicate CloseResult(pcb: Pcb, msg: Msg, env: CloseEnv, pcb': Pcb, h: Log)
    requires msg.Closing? && pcb.Pcb?
  {
    var both := match msg.shut
                case RDWR => true
                case RD => env.finSent
                case WR => env.rxClosed;
    match env.err
    case TcpOk =>
      && (pcb' == NoPcb <==> both) && msg.id in h.results && h.results[msg.id] == OK
      && (!both ==> pcb' == if msg.shut == RD || pcb.listening then pcb else pcb.(sentHook := false))
    case TcpMem =>
      if msg.pollsLeft > 0 then pcb'.Pcb? && pcb'.hooked && (msg.shut != RD ==> pcb'.sentHook)
      else
        && (pcb' == NoPcb <==> both) && msg.id in h.results && h.results[msg.id] == (if both then OK else MEM)
        && (!both ==> pcb' == if msg.shut == RD || pcb.listening then pcb else pcb.(sentHook := false))
    case TcpFail =>
      && pcb'.Pcb? && pcb'.hooked == (pcb.hooked && !both)
      && pcb'.sentHook == (pcb.sentHook && (msg.shut == RD || pcb.listening))
      && msg.id in h.results && h.results[msg.id] == OTHER
  }

  lemma CloseIs(pcb: Pcb, msg: Msg, h: Log, env: CloseEnv)
    requires msg.Closing? && pcb.Pcb?
    ensures var shutClose := ShutClose(msg.shut, env);
            var err := CloseErr(env.err, shutClose);
            var tpcb := Unhooked(pcb, msg.shut, env);
            if env.err == TcpMem && msg.pollsLeft > 0 then
              CloseResult(pcb, msg, env, tpcb.(hooked := true, sentHook := tpcb.sentHook || msg.shut != RD), h)
            else
              CloseResult(pcb, msg, env, if err == OK && shutClose then NoPcb else tpcb, Acked(h, msg.id, err))
  {}

  // What each operation does, on values

  /** All of a netconn: its fields, and what has become of the messages. */
  datatype Net = Net(state: State, msg: Msg, pcb: Pcb, pendingErr: Err, inLoop: bool,
    h: Log, asked: map<nat, Asked>, passed: map<nat, seq<byte>>, broken: bool)

  ghost function Ack(n: Net, m: nat, err: Err): Net {
    n.(h := Acked(n.h, m, err))
  }

  /** A new message becomes the current one. */
  ghost function Begun(n: Net, m: nat, msg: Msg, state: State): Net {
    n.(h := n.h.(submitted := n.h.submitted + {m}), msg := msg, state := state)
  }

  ghost function Closed(n: Net, env: CloseEnv): Net {
    if !n.msg.Closing? || !n.pcb.Pcb? then n
    else
      var tpcb := Unhooked(n.pcb, n.msg.shut, env);
      var shutClose := ShutClose(n.msg.shut, env);
      var err := CloseErr(env.err, shutClose);
      if env.err == TcpMem && n.msg.pollsLeft > 0 then
        n.(pcb := tpcb.(hooked := true, sentHook := tpcb.sentHook || n.msg.shut != RD))
      else
        Ack(n, n.msg.id, err).(msg := NoMsg, state := NONE, broken := n.broken || (shutClose && err != OK),
          pcb := if err == OK && shutClose then NoPcb else tpcb)
  }

  /** The first `k` bytes. */
  function Front(data: seq<byte>, k: nat): seq<byte> {
    if k <= |data| then data[..k] else data
  }

  ghost function Written(n: Net, env: WriteEnv): Net {
    if !n.msg.Writing? || !Entry(n.msg.w) then n
    else
      var z := LoopSpec(n.msg.w, n.msg.dontblock, env.tcp);
      var (done, err) := EndOf(z, n.msg.dontblock, env.noRoute);
      var r := n.(passed := n.passed[n.msg.id := Front(Flatten(n.msg.w.vectors), z.w.offset)]);
      if z.more || !done then r.(msg := n.msg.(w := z.w), inLoop := z.more)
      else Ack(r, n.msg.id, err).(msg := NoMsg, state := NONE)
  }

  ghost function Deleted(n: Net, m: nat, polls: nat, env: CloseEnv): Net {
    if n.state != NONE && n.state != LISTEN then Ack(n, m, INPROGRESS)
    else if n.pcb == NoPcb then Ack(n, m, OK)
    else Closed(Begun(n, m, Closing(m, RDWR, polls), CLOSE), env)
  }

  ghost function ShutDown(n: Net, m: nat, shut: Shut, polls: nat, env: CloseEnv): Net {
    if n.pcb == NoPcb || (shut != RDWR && n.state == LISTEN) || n.state == CONNECT then Ack(n, m, CONN)
    else if n.state == WRITE then Ack(n, m, INPROGRESS)
    else if n.msg != NoMsg then n
    else Closed(Begun(n, m, Closing(m, shut, polls), CLOSE), env)
  }

  ghost function ConnectedTo(n: Net, m: nat, accepted: TcpErr): Net {
    if n.pcb == NoPcb || n.state != NONE then Ack(n, m, ConnectErr(n.pcb, n.state, accepted))
    else
      var p := n.pcb.(hooked := true, sentHook := true);
      if accepted == TcpOk then Begun(n, m, Connecting(m), CONNECT).(pcb := p.(connecting := true))
      else Ack(n, m, ConnectErr(n.pcb, n.state, accepted)).(pcb := p)
  }

  ghost function WriteBegun(n: Net, m: nat, vectors: seq<seq<byte>>, len: nat, dontblock: bool, env: WriteEnv): Net {
    var err := WriteRefusal(n.pendingErr, n.state, n.pcb);
    var r := n.(pendingErr := OK, asked := n.asked[m := Asked(vectors, dontblock)], passed := n.passed[m := []]);
    if err != OK then Ack(r, m, err)
    else Written(Begun(r, m, Writing(m, dontblock, Start(vectors, len)), WRITE), env)
  }

  ghost function Polled(n: Net, cenv: CloseEnv, wenv: WriteEnv): Net {
    if n.state == WRITE then Written(n, wenv)
    else if n.state == CLOSE && n.msg.Closing? && n.msg.pollsLeft != 0 then
      Closed(n.(msg := n.msg.(pollsLeft := n.msg.pollsLeft - 1)), cenv)
    else Closed(n, cenv)
  }

  ghost function SentOn(n: Net, cenv: CloseEnv, wenv: WriteEnv): Net {
    if n.state == WRITE then Written(n, wenv) else Closed(n, cenv)
  }

  ghost function Failed(n: Net, err: Err): Net {
    var r := n.(pcb := NoPcb, pendingErr := err, state := NONE, msg := NoMsg);
    if n.msg == NoMsg then r else Ack(r, n.msg.id, if n.state == CLOSE then OK else err)
  }

  ghost function Reached(n: Net, err: Err): Net {
    if n.msg == NoMsg || n.pcb == NoPcb then n
    else
      var p := if err == OK then n.pcb.(hooked := true, sentHook := true) else n.pcb;
      Ack(n, n.msg.id, err).(pcb := p.(connecting := false), msg := NoMsg, state := NONE)
  }

  lemma NotClosing(n: Net, env: CloseEnv)
    requires !n.msg.Closing?
    ensures Closed(n, env) == n
  {}

  class Netconn {
    var state: State
    var currentMsg: Msg
    var pcb: Pcb
    var pendingErr: Err
    var inLoop: bool                        // the thread is still in the loop of lwip_netconn_do_writemore
    ghost var h: Log
    ghost var asked: map<nat, Asked>        // the writes submitted
    ghost var passed: map<nat, seq<byte>>   // what each of them has passed to tcp_write
    ghost var broken: bool                  // a tcp_close has failed for good and left the pcb without callbacks

    ghost predicate Valid()
      reads this
    {
      AckedOnce(h, currentMsg) && Sound(state, currentMsg, pcb, broken)
        && WriteOk(currentMsg, asked, passed, inLoop) && DataOk(h, asked, passed)
    }

    ghost function Whole(): Net
      reads this
    {
      Net(state, currentMsg, pcb, pendingErr, inLoop, h, asked, passed, broken)
    }

    constructor (listening: bool)
      ensures Valid() && !inLoop && h.submitted == {} && currentMsg == NoMsg
      ensures pcb == Pcb(listening, !listening, !listening, false) && state == if listening then LISTEN else NONE
    {
      state := if listening then LISTEN else NONE;
      currentMsg, pcb, pendingErr, inLoop := NoMsg, Pcb(listening, !listening, !listening, false), OK, false;
      h, asked, passed, broken := Log({}, multiset{}, map[]), map[], map[], false;
    }

    /**
     * lwip_netconn_do_close_internal: only a want of memory leaves the message waiting, and only while polls
     * are left.
     */
    method CloseInternal(env: CloseEnv)
      requires AckedOnce(h, currentMsg) && DataOk(h, asked, passed) && !inLoop
      requires state == CLOSE && pcb.Pcb? && !pcb.connecting && currentMsg.Closing? && currentMsg.id !in asked
      requires pcb.listening ==> currentMsg.shut == RDWR && env.err == TcpOk
      requires !pcb.listening ==> pcb.hooked || broken
      modifies this`state, this`currentMsg, this`pcb, this`h, this`broken
      ensures Valid()
      ensures Whole() == Closed(old(Whole()), env)
      ensures state == CLOSE <==> env.err == TcpMem && old(currentMsg).pollsLeft > 0
      ensures state == CLOSE ==> currentMsg == old(currentMsg) && h == old(h) && broken == old(broken)
      ensures state != CLOSE ==>
                var shutClose := ShutClose(old(currentMsg).shut, env);
                var err := CloseErr(env.err, shutClose);
                && state == NONE && currentMsg == NoMsg && (pcb == NoPcb <==> shutClose && err == OK)
                && h == Acked(old(h), old(currentMsg).id, err) && broken == (old(broken) || (shutClose && err != OK))
      ensures CloseResult(old(pcb), old(currentMsg), env, pcb, h)
    {
      CloseIs(pcb, currentMsg, h, env);
      hide CloseResult;
      hide AckedOnce, DataOk, Acked, Entry, Flatten, Short, Sound, CloseErr, ShutClose, Unhooked;
      var tpcb := Unhooked(pcb, currentMsg.shut, env);
      CloseSound(pcb, currentMsg, broken, env);
      if env.err != TcpMem || currentMsg.pollsLeft == 0 {
        var shutClose := ShutClose(currentMsg.shut, env);
        var err := CloseErr(env.err, shutClose);
        FinishClose(err, if err == OK && shutClose then NoPcb else tpcb, broken || (shutClose && err != OK));
        return;
      }
      pcb := tpcb.(hooked := true, sentHook := tpcb.sentHook || currentMsg.shut != RD);
    }

    /** The close is over. */
    method FinishClose(err: Err, pcb': Pcb, ghost broken': bool)
      requires AckedOnce(h, currentMsg) && DataOk(h, asked, passed) && !inLoop
      requires currentMsg.Closing? && currentMsg.id !in asked && Sound(NONE, NoMsg, pcb', broken')
      modifies this`state, this`currentMsg, this`pcb, this`h, this`broken
      ensures Valid()
      ensures var n := Ack(old(Whole()), old(currentMsg).id, err);
              Whole() == n.(state := NONE, msg := NoMsg, pcb := pcb', broken := broken')
    {
      hide AckedOnce, DataOk, Sound, Acked;
      AckCurrent(h, currentMsg, err);
      DataAck(h, asked, passed, currentMsg.id, err);
      h, broken := Acked(h, currentMsg.id, err), broken';
      currentMsg, state, pcb := NoMsg, NONE, pcb';
    }

    /**
     * lwip_netconn_do_writemore on the current message: it goes on waiting, or it is acknowledged, or its loop
     * is still running. It succeeds when it finds room all the way.
     */
    method WriteMore(env: WriteEnv)
      requires AckedOnce(h, currentMsg) && DataOk(h, asked, passed) && state == WRITE && currentMsg.Writing?
      requires pcb.Pcb? && !pcb.listening && !pcb.connecting && (pcb.hooked || broken)
      requires Entry(currentMsg.w) && !inLoop
      requires currentMsg.id in asked && asked[currentMsg.id] == Asked(currentMsg.w.vectors, currentMsg.dontblock)
      requires currentMsg.id in passed && passed[currentMsg.id] == Flatten(currentMsg.w.vectors)[..currentMsg.w.offset]
      modifies this`state, this`currentMsg, this`h, this`passed, this`inLoop
      ensures Valid()
      ensures Whole() == Written(old(Whole()), env)
      ensures inLoop ==> state == WRITE && MayLoop(old(currentMsg).w.vectors, old(currentMsg).dontblock, env.tcp)
      ensures state == WRITE ==>
                && currentMsg.Writing? && currentMsg.id == old(currentMsg).id && h == old(h)
                && currentMsg.w.vectors == old(currentMsg).w.vectors
                && currentMsg.dontblock == old(currentMsg).dontblock
      ensures state != WRITE ==>
                && state == NONE && currentMsg == NoMsg
                && (exists err ::
                      && h == Acked(old(h), old(currentMsg).id, err)
                      && Justified(err, old(currentMsg).dontblock, env.tcp, env.noRoute))
      ensures var w := old(currentMsg).w;
              Roomy(w, env.tcp) && |env.tcp| >= w.len - w.offset + w.cnt && !env.noRoute ==>
                h == Acked(old(h), old(currentMsg).id, OK)
    {
      hide AckedOnce, DataOk, Entry, Flatten, Justified, MayLoop, Roomy, LoopSpec, WInv, WriteOk, Acked;
      var m := currentMsg.id;
      EntryFacts(currentMsg.w);
      var w, out, done, err, looping := Writemore(currentMsg.w, currentMsg.dontblock, env.tcp, env.noRoute);
      ghost var data := passed[m] + out;
      SentSoFar(currentMsg.w, w, passed[m], out);
      DataMore(h, currentMsg, asked, passed, data);
      passed := passed[m := data];
      if done {
        FinishWrite(err);
      } else {
        SameId(h, currentMsg, currentMsg.(w := w));
        StillWaits(currentMsg.(w := w), asked, passed, looping);
        currentMsg, inLoop := currentMsg.(w := w), looping;
      }
    }

    /** The write is over. */
    method FinishWrite(err: Err)
      requires AckedOnce(h, currentMsg) && DataOk(h, asked, passed) && currentMsg.Writing? && !inLoop
      requires pcb.Pcb? && !pcb.listening && !pcb.connecting && (pcb.hooked || broken)
      requires currentMsg.id in asked && currentMsg.id in passed
      requires err == OK && !asked[currentMsg.id].dontblock ==>
               passed[currentMsg.id] == Flatten(asked[currentMsg.id].vectors)
      modifies this`state, this`currentMsg, this`h
      ensures Valid() && state == NONE && currentMsg == NoMsg && h == Acked(old(h), old(currentMsg).id, err)
    {
      hide AckedOnce, DataOk, Flatten;
      AckCurrent(h, currentMsg, err);
      DataAck(h, asked, passed, currentMsg.id, err);
      h := Acked(h, currentMsg.id, err);
      currentMsg, state := NoMsg, NONE;
    }

    // Calls

    /** The message is refused or needs nothing done. */
    method AckAtOnce(m: nat, err: Err)
      requires Valid() && m !in h.submitted
      modifies this`h
      ensures Valid() && h == Acked(old(h), m, err)
    {
      AckNew(h, currentMsg, m, err);
      DataAck(h, asked, passed, m, err);
      h := Acked(h, m, err);
    }

    /** The netconn starts to close for this message. */
    method BeginClose(m: nat, shut: Shut, polls: nat, env: CloseEnv)
      requires Valid() && !inLoop && m !in h.submitted && currentMsg == NoMsg && pcb.Pcb?
      requires pcb.listening ==> shut == RDWR && env.err == TcpOk
      modifies this`state, this`currentMsg, this`pcb, this`h, this`broken
      ensures Valid() && Taken(old(h), h, currentMsg, m)
      ensures state == CLOSE <==> env.err == TcpMem && polls > 0
      ensures Whole() == Closed(Begun(old(Whole()), m, Closing(m, shut, polls), CLOSE), env)
      ensures state == CLOSE ==> currentMsg == Closing(m, shut, polls)
      ensures state != CLOSE ==>
                currentMsg == NoMsg && m in h.results && h.results[m] == CloseErr(env.err, ShutClose(shut, env))
    {
      hide AckedOnce, DataOk, CloseErr, Closed;
      Submit(h, Closing(m, shut, polls));
      DataSubmit(h, asked, passed, m);
      NotAsked(h, asked, passed, m);
      h := h.(submitted := h.submitted + {m});
      state, currentMsg := CLOSE, Closing(m, shut, polls);
      CloseInternal(env);
    }

    /** lwip_netconn_do_delconn. */
    method DoDelconn(m: nat, polls: nat, env: CloseEnv)
      requires Valid() && !inLoop && m !in h.submitted
      requires pcb.Pcb? && pcb.listening ==> env.err == TcpOk
      modifies this`state, this`currentMsg, this`pcb, this`h, this`broken
      ensures Valid() && Taken(old(h), h, currentMsg, m)
      ensures old(currentMsg) != NoMsg ==>
              h == Acked(old(h), m, INPROGRESS) && currentMsg == old(currentMsg) && pcb == old(pcb)
      ensures Whole() == Deleted(old(Whole()), m, polls, env)
      ensures old(currentMsg) == NoMsg && old(pcb) == NoPcb ==> h == Acked(old(h), m, OK)
      ensures old(currentMsg) == NoMsg && old(pcb) != NoPcb ==>
                currentMsg == if env.err == TcpMem && polls > 0 then Closing(m, RDWR, polls) else NoMsg
    {
      hide AckedOnce, DataOk, Closed;
      if state != NONE && state != LISTEN {
        AckAtOnce(m, INPROGRESS);
      } else if pcb.Pcb? {
        BeginClose(m, RDWR, polls, env);
      } else {
        AckAtOnce(m, OK);
      }
    }

    /** lwip_netconn_do_close; `ok` says whether its assertion holds, that no operation is current. */
    method DoClose(m: nat, shut: Shut, polls: nat, env: CloseEnv) returns (ok: bool)
      requires Valid() && !inLoop && m !in h.submitted
      requires pcb.Pcb? && pcb.listening ==> env.err == TcpOk
      modifies this`state, this`currentMsg, this`pcb, this`h, this`broken
      ensures Valid() && (ok <==> !old(currentMsg).Closing?)
      ensures Whole() == ShutDown(old(Whole()), m, shut, polls, env)
      ensures !ok ==> Whole() == old(Whole())
      ensures ok ==> Taken(old(h), h, currentMsg, m)
      ensures ok ==>
                var refused := old(pcb) == NoPcb || (shut != RDWR && old(state) == LISTEN) || old(state) == CONNECT;
                var err := if refused then CONN else if old(state) == WRITE then INPROGRESS else OK;
                if err != OK
                then h == Acked(old(h), m, err) && currentMsg == old(currentMsg) && state == old(state)
                  && pcb == old(pcb)
                else if env.err == TcpMem && polls > 0 then currentMsg == Closing(m, shut, polls)
                else currentMsg == NoMsg
    {
      hide AckedOnce, DataOk, Closed, CloseErr, ShutClose;
      ok := true;
      if pcb.Pcb? && (shut == RDWR || state != LISTEN) {
        if state == CONNECT {
          AckAtOnce(m, CONN);
        } else if state == WRITE {
          AckAtOnce(m, INPROGRESS);
        } else if currentMsg != NoMsg {
          ok := false;
        } else {
          BeginClose(m, shut, polls, env);
        }
      } else {
        AckAtOnce(m, CONN);
      }
    }

    /** lwip_netconn_do_connect on a blocking netconn, with the result of tcp_connect. */
    method DoConnect(m: nat, accepted: TcpErr)
      requires Valid() && !inLoop && m !in h.submitted
      modifies this`state, this`currentMsg, this`pcb, this`h
      ensures Valid() && Taken(old(h), h, currentMsg, m)
      ensures currentMsg == Connecting(m) <==> old(pcb) != NoPcb && old(state) == NONE && accepted == TcpOk
      ensures Whole() == ConnectedTo(old(Whole()), m, accepted)
      ensures currentMsg != Connecting(m) ==>
                && currentMsg == old(currentMsg) && state == old(state)
                && h == Acked(old(h), m, ConnectErr(old(pcb), old(state), accepted))
      ensures currentMsg != Connecting(m) ==>
                && m in h.results
                && (h.results[m] == CLSD <==> old(pcb) == NoPcb)
                && (h.results[m] == ALREADY <==> old(pcb) != NoPcb && old(state) == CONNECT)
                && (h.results[m] == ISCONN <==> old(pcb) != NoPcb && old(state) in {WRITE, LISTEN, CLOSE})
                && (h.results[m] == MEM <==> old(pcb) != NoPcb && old(state) == NONE && accepted == TcpMem)
    {
      hide AckedOnce, DataOk;
      if pcb == NoPcb {
        AckAtOnce(m, CLSD);
      } else if state == CONNECT {
        NotCurrent(h, currentMsg, m);
        AckAtOnce(m, ALREADY);
      } else if state != NONE {
        AckAtOnce(m, ISCONN);
      } else {
        pcb := pcb.(hooked := true, sentHook := true);
        if accepted == TcpOk {
          BeginConnect(m);
        } else {
          AckAtOnce(m, if accepted == TcpMem then MEM else OTHER);
        }
      }
    }

    /** tcp_connect has accepted the netconn's connect. */
    method BeginConnect(m: nat)
      requires Valid() && !inLoop && m !in h.submitted && currentMsg == NoMsg && state == NONE
      requires pcb.Pcb? && !pcb.listening && pcb.hooked
      modifies this`state, this`currentMsg, this`pcb, this`h
      ensures Valid() && Taken(old(h), h, currentMsg, m) && currentMsg == Connecting(m)
      ensures Whole() == Begun(old(Whole()), m, Connecting(m), CONNECT).(pcb := old(pcb).(connecting := true))
    {
      hide AckedOnce, DataOk;
      Submit(h, Connecting(m));
      DataSubmit(h, asked, passed, m);
      NotAsked(h, asked, passed, m);
      h := h.(submitted := h.submitted + {m});
      pcb := pcb.(connecting := true);
      state, currentMsg := CONNECT, Connecting(m);
    }

    /** lwip_netconn_do_write. */
    method DoWrite(m: nat, vectors: seq<seq<byte>>, len: nat, dontblock: bool, env: WriteEnv)
      requires Valid() && !inLoop && m !in h.submitted
      requires len == |Flatten(vectors)| && len != 0
      modifies this`state, this`currentMsg, this`pendingErr, this`h, this`asked, this`passed, this`inLoop
      ensures Valid() && Taken(old(h), h, currentMsg, m) && pendingErr == OK
      ensures Whole() == WriteBegun(old(Whole()), m, vectors, len, dontblock, env)
      ensures inLoop ==> Looping(currentMsg, vectors, dontblock, env)
      ensures asked == old(asked)[m := Asked(vectors, dontblock)]
      ensures var err := WriteRefusal(old(pendingErr), old(state), old(pcb));
              if err != OK then h == Acked(old(h), m, err) && currentMsg == old(currentMsg) && state == old(state)
              else
                && (currentMsg == NoMsg || (currentMsg.Writing? && currentMsg.id == m))
                && (Plenty(vectors, len, env) ==> h == Acked(old(h), m, OK))
      ensures old(pendingErr) != OK ==> h == Acked(old(h), m, old(pendingErr)) && currentMsg == old(currentMsg)
      ensures old(pendingErr) == OK && old(state) != NONE ==>
                h == Acked(old(h), m, INPROGRESS) && currentMsg == old(currentMsg)
      ensures old(pendingErr) == OK && old(state) == NONE && old(pcb) == NoPcb ==> h == Acked(old(h), m, CONN)
    {
      hide AckedOnce, DataOk, Entry, Flatten, Looping, Plenty, Acked, Written, Begun;
      DataAsk(h, currentMsg, asked, passed, m, Asked(vectors, dontblock));
      NotCurrent(h, currentMsg, m);
      asked, passed := asked[m := Asked(vectors, dontblock)], passed[m := []];
      var err := pendingErr;
      pendingErr := OK;
      if err == OK {
        if state != NONE {
          err := INPROGRESS;
        } else if pcb.Pcb? {
          BeginWrite(m, vectors, len, dontblock, env);
          return;
        } else {
          err := CONN;
        }
      }
      RefuseWrite(m, err);
    }

    /** The netconn starts on this write. */
    method BeginWrite(m: nat, vectors: seq<seq<byte>>, len: nat, dontblock: bool, env: WriteEnv)
      requires AckedOnce(h, currentMsg) && Sound(state, currentMsg, pcb, broken) && state == NONE
               && currentMsg == NoMsg && pcb.Pcb?
      requires m !in h.submitted && DataOk(h.(submitted := h.submitted + {m}), asked, passed)
      requires m in asked && asked[m] == Asked(vectors, dontblock) && m in passed && passed[m] == []
      requires len == |Flatten(vectors)| && len != 0 && !inLoop
      modifies this`state, this`currentMsg, this`h, this`passed, this`inLoop
      ensures Valid() && Taken(old(h), h, currentMsg, m)
      ensures currentMsg == NoMsg || (currentMsg.Writing? && currentMsg.id == m)
      ensures inLoop ==> Looping(currentMsg, vectors, dontblock, env)
      ensures Whole() == Written(Begun(old(Whole()), m, Writing(m, dontblock, Start(vectors, len)), WRITE), env)
      ensures Plenty(vectors, len, env) ==> h == Acked(old(h), m, OK)
    {
      hide AckedOnce, DataOk, Entry, Flatten, Justified, Plenty, Roomy, MayLoop, WInv, Written;
      var w := Start(vectors, len);
      Begins(vectors);
      EntryFacts(w);
      if Plenty(vectors, len, env) { PlentyGoes(vectors, env); }
      SubmitTwice(h, m, OK);
      Submit(h, Writing(m, dontblock, w));
      h := h.(submitted := h.submitted + {m});
      state, currentMsg := WRITE, Writing(m, dontblock, w);
      WriteMore(env);
    }

    /** The new write is acknowledged with an error. */
    method RefuseWrite(m: nat, err: Err)
      requires AckedOnce(h, currentMsg) && Sound(state, currentMsg, pcb, broken)
      requires WriteOk(currentMsg, asked, passed, inLoop)
      requires m !in h.submitted && err != OK && DataOk(h.(submitted := h.submitted + {m}), asked, passed)
      modifies this`h
      ensures Valid() && h == Acked(old(h), m, err) && Taken(old(h), h, currentMsg, m)
    {
      hide AckedOnce, DataOk, Sound, WriteOk;
      AckNew(h, currentMsg, m, err);
      DataAck(h.(submitted := h.submitted + {m}), asked, passed, m, err);
      SubmitTwice(h, m, err);
      h := Acked(h, m, err);
    }

    // Callbacks

    /** poll_tcp, with what the continued operation meets. */
    method PollTcp(cenv: CloseEnv, wenv: WriteEnv)
      requires Valid() && !inLoop && pcb.Pcb? && pcb.hooked
      modifies this`state, this`currentMsg, this`pcb, this`h, this`passed, this`broken, this`inLoop
      ensures Valid() && Settled(old(h), old(currentMsg), h, currentMsg) && KeepsClosing(old(currentMsg), currentMsg, 1)
      ensures Whole() == Polled(old(Whole()), cenv, wenv)
      ensures inLoop ==> currentMsg.Writing? && Looping(currentMsg, currentMsg.w.vectors, currentMsg.dontblock, wenv)
      ensures old(state) == CLOSE ==> (state == CLOSE <==> cenv.err == TcpMem && old(currentMsg).pollsLeft > 1)
    {
      hide AckedOnce, DataOk, Entry, Flatten, Short, Written, Closed;
      if state == WRITE {
        WriteMore(wenv);
      } else if state == CLOSE {
        if currentMsg.pollsLeft != 0 {
          SameId(h, currentMsg, currentMsg.(pollsLeft := currentMsg.pollsLeft - 1));
          currentMsg := currentMsg.(pollsLeft := currentMsg.pollsLeft - 1);
        }
        CloseInternal(cenv);
      } else {
        NotClosing(Whole(), cenv);
      }
    }

    /** sent_tcp. */
    method SentTcp(cenv: CloseEnv, wenv: WriteEnv)
      requires Valid() && !inLoop && pcb.Pcb? && pcb.sentHook
      modifies this`state, this`currentMsg, this`pcb, this`h, this`passed, this`broken, this`inLoop
      ensures Valid() && Settled(old(h), old(currentMsg), h, currentMsg) && KeepsClosing(old(currentMsg), currentMsg, 0)
      ensures Whole() == SentOn(old(Whole()), cenv, wenv)
      ensures inLoop ==> currentMsg.Writing? && Looping(currentMsg, currentMsg.w.vectors, currentMsg.dontblock, wenv)
    {
      hide AckedOnce, DataOk, Entry, Flatten, Short, Written, Closed;
      if state == WRITE {
        WriteMore(wenv);
      } else if state == CLOSE {
        CloseInternal(cenv);
      } else {
        NotClosing(Whole(), cenv);
      }
    }

    /** err_tcp: the pcb is gone; a close has then succeeded, a write or connect has failed. */
    method ErrTcp(err: Err)
      requires Valid() && !inLoop && pcb.Pcb? && !pcb.listening && pcb.hooked && err != OK
      modifies this`state, this`currentMsg, this`pcb, this`pendingErr, this`h
      ensures Valid() && pcb == NoPcb && pendingErr == err && state == NONE && currentMsg == NoMsg
      ensures Whole() == Failed(old(Whole()), err)
      ensures h == if old(currentMsg) == NoMsg then old(h)
              else Acked(old(h), old(currentMsg).id, if old(state) == CLOSE then OK else err)
    {
      hide AckedOnce, DataOk;
      pcb, pendingErr := NoPcb, err;
      var oldState := state;
      state := NONE;
      if oldState == WRITE || oldState == CLOSE || oldState == CONNECT {
        var result := if oldState == CLOSE then OK else err;
        AckCurrent(h, currentMsg, result);
        DataAck(h, asked, passed, currentMsg.id, result);
        h := Acked(h, currentMsg.id, result);
        currentMsg := NoMsg;
      }
    }

    /** lwip_netconn_do_connected. */
    method Connected(err: Err)
      requires Valid() && !inLoop && pcb.Pcb? && pcb.connecting
      modifies this`state, this`currentMsg, this`pcb, this`h
      ensures Valid() && old(state) == CONNECT && state == NONE && currentMsg == NoMsg
      ensures Whole() == Reached(old(Whole()), err)
      ensures old(currentMsg).Connecting? && h == Acked(old(h), old(currentMsg).id, err)
    {
      hide AckedOnce, DataOk;
      AckCurrent(h, currentMsg, err);
      DataAck(h, asked, passed, currentMsg.id, err);
      h := Acked(h, currentMsg.id, err);
      if err == OK {
        pcb := pcb.(hooked := true, sentHook := true);
      }
      pcb := pcb.(connecting := false);
      currentMsg, state := NoMsg, NONE;
    }
  }

  // Whole runs

  /** A call, numbered by its place in the run, or a callback, with what lwIP returns meanwhile. */
  datatype Step =
    | Delete(cenv: CloseEnv)
    | Shutdown(shut: Shut, cenv: CloseEnv)
    | Connect(accepted: TcpErr)
    | Write(vectors: seq<seq<byte>>, len: nat, dontblock: bool, wenv: WriteEnv)
    | Poll(cenv: CloseEnv, wenv: WriteEnv)
    | Sent(cenv: CloseEnv, wenv: WriteEnv)
    | Error(err: Err)
    | Established(err: Err)

  predicate IsCall(s: Step) {
    s.Delete? || s.Shutdown? || s.Connect? || s.Write?
  }

  ghost predicate GoodStep(s: Step) {
    && (s.Write? ==> s.len == |Flatten(s.vectors)| && s.len != 0)
    && (s.Error? ==> s.err != OK)
  }

  ghost function Polls(steps: seq<Step>): nat {
    if steps == [] then 0 else Polls(steps[..|steps| - 1]) + if steps[|steps| - 1].Poll? then 1 else 0
  }

  /** A close of a listening pcb does not fail. */
  function Given(pcb: Pcb, env: CloseEnv): CloseEnv {
    if pcb.Pcb? && pcb.listening then env.(err := TcpOk) else env
  }

  /** One step on values; `m` is the number of the message if it is a call. */
  ghost function StepNet(n: Net, s: Step, m: nat): Net {
    match s
    case Delete(cenv) => Deleted(n, m, POLLS, Given(n.pcb, cenv))
    case Shutdown(shut, cenv) => ShutDown(n, m, shut, POLLS, Given(n.pcb, cenv))
    case Connect(accepted) => ConnectedTo(n, m, accepted)
    case Write(vectors, len, dontblock, wenv) => WriteBegun(n, m, vectors, len, dontblock, wenv)
    case Poll(cenv, wenv) => if n.pcb.Pcb? && n.pcb.hooked then Polled(n, cenv, wenv) else n
    case Sent(cenv, wenv) => if n.pcb.Pcb? && n.pcb.sentHook then SentOn(n, cenv, wenv) else n
    case Error(err) => if n.pcb.Pcb? && !n.pcb.listening && n.pcb.hooked then Failed(n, err) else n
    case Established(err) => if n.pcb.Pcb? && n.pcb.connecting then Reached(n, err) else n
  }

  /** The steps of a run on values, how many of them are taken, and how it ends. */
  ghost function RunNet(n: Net, steps: seq<Step>, m: nat): (Net, nat, Fate)
    decreases |steps|
  {
    if steps == [] then (n, 0, Fine)
    else if steps[0].Shutdown? && n.msg.Closing? then (n, 0, Asserts)
    else
      var r := StepNet(n, steps[0], m);
      if r.inLoop then (r, 1, Loops) else OneMore(RunNet(r, steps[1..], m + 1))
  }

  ghost function OneMore(a: (Net, nat, Fate)): (Net, nat, Fate) {
    (a.0, a.1 + 1, a.2)
  }

  /** A callback that is not installed is not called. */
  method Callback(c: Netconn, s: Step)
    requires c.Valid() && !c.inLoop && !IsCall(s) && GoodStep(s)
    modifies c
    ensures c.Valid() && Settled(old(c.h), old(c.currentMsg), c.h, c.currentMsg)
    ensures c.asked == old(c.asked)
    ensures old(c.currentMsg).Closing? ==> KeepsClosing(old(c.currentMsg), c.currentMsg, if s.Poll? then 1 else 0)
    ensures c.inLoop ==> LoopsIn(s, c.currentMsg)
    ensures forall m: nat :: c.Whole() == StepNet(old(c.Whole()), s, m)
  {
    hide AckedOnce, WriteOk, DataOk, MayLoop, Polled, SentOn, Failed, Reached;
    match s {
      case Poll(cenv, wenv) => if c.pcb.Pcb? && c.pcb.hooked { c.PollTcp(cenv, wenv); }
      case Sent(cenv, wenv) => if c.pcb.Pcb? && c.pcb.sentHook { c.SentTcp(cenv, wenv); }
      case Error(err) => if c.pcb.Pcb? && !c.pcb.listening && c.pcb.hooked { c.ErrTcp(err); }
      case Established(err) => if c.pcb.Pcb? && c.pcb.connecting { c.Connected(err); }
    }
  }

  /** A call; a shutdown of a netconn that is being closed fails an assertion. */
  method Submitted(c: Netconn, s: Step, m: nat) returns (ok: bool)
    requires c.Valid() && !c.inLoop && IsCall(s) && GoodStep(s) && m !in c.h.submitted
    modifies c
    ensures c.Valid() && (ok <==> !(s.Shutdown? && old(c.currentMsg).Closing?))
    ensures if ok then Taken(old(c.h), c.h, c.currentMsg, m) else c.Whole() == old(c.Whole())
    ensures c.asked == if s.Write? then old(c.asked)[m := Asked(s.vectors, s.dontblock)] else old(c.asked)
    ensures old(c.currentMsg).Closing? ==> c.currentMsg == old(c.currentMsg)
    ensures c.currentMsg.Closing? ==> old(c.currentMsg).Closing? || s.Delete? || s.Shutdown?
    ensures c.inLoop ==> ok && LoopsIn(s, c.currentMsg)
    ensures c.Whole() == StepNet(old(c.Whole()), s, m)
  {
    hide AckedOnce, WriteOk, DataOk, Entry, Flatten, Short, MayLoop, Plenty, Deleted, ShutDown, ConnectedTo, WriteBegun;
    ok := true;
    match s {
      case Delete(cenv) => c.DoDelconn(m, POLLS, Given(c.pcb, cenv));
      case Shutdown(shut, cenv) => ok := c.DoClose(m, shut, POLLS, Given(c.pcb, cenv));
      case Connect(accepted) => c.DoConnect(m, accepted);
      case Write(vectors, len, dontblock, wenv) => c.DoWrite(m, vectors, len, dontblock, wenv);
    }
  }

  /** All steps are taken, or the next one fails an assertion, or the last one is still in a loop. */
  datatype Fate = Fine | Asserts | Loops

  /** A close may be waiting: one was, or one was called for. */
  ghost predicate MayClose(was: Msg, steps: seq<Step>) {
    was.Closing? || exists s :: s in steps && (s.Delete? || s.Shutdown?)
  }

  /** One step; `was` is the message current at the start of the run, since when `p` polls have come. */
  method Take(c: Netconn, s: Step, m: nat, ghost was: Msg, ghost p: nat) returns (ok: bool)
    requires c.Valid() && !c.inLoop && GoodStep(s) && m !in c.h.submitted
    modifies c
    ensures c.Valid() && (ok <==> !(s.Shutdown? && old(c.currentMsg).Closing?))
    ensures !ok ==> c.Whole() == old(c.Whole())
    ensures ok ==> c.h.submitted == old(c.h).submitted + if IsCall(s) then {m} else {}
    ensures ok ==> c.asked == if s.Write? then old(c.asked)[m := Asked(s.vectors, s.dontblock)] else old(c.asked)
    ensures ok && was.Closing? && Waiting(was, old(c.h), old(c.currentMsg), p) ==>
            Waiting(was, c.h, c.currentMsg, if s.Poll? then p + 1 else p)
    ensures c.currentMsg.Closing? ==> old(c.currentMsg).Closing? || s.Delete? || s.Shutdown?
    ensures c.inLoop ==> ok && LoopsIn(s, c.currentMsg)
    ensures c.Whole() == StepNet(old(c.Whole()), s, m)
  {
    hide AckedOnce, WriteOk, DataOk, GoodStep, Acked, StepNet, LoopsIn, Sound, Settled, Taken, Waiting, KeepsClosing;
    ghost var h, msg := c.h, c.currentMsg;
    ok := true;
    if IsCall(s) {
      ok := Submitted(c, s, m);
      if ok { TakenKeeps(h, msg, c.h, c.currentMsg, m, was, p); }
    } else {
      Callback(c, s);
      SettledKeeps(h, msg, c.h, c.currentMsg, was, p, if s.Poll? then p + 1 else p);
    }
  }

  /** The calls among these steps have been submitted, the writes with their data. */
  ghost predicate AllSubmitted(submitted: set<nat>, asked: map<nat, Asked>, base: nat, steps: seq<Step>, n: nat)
    requires n <= |steps|
  {
    && (forall m :: m in submitted ==> m < base + n)
    && (forall j :: 0 <= j < n && IsCall(steps[j]) ==> base + j in submitted)
    && (forall j :: 0 <= j < n && steps[j].Write? ==>
          base + j in asked && asked[base + j] == Asked(steps[j].vectors, steps[j].dontblock))
  }

  lemma SubmittedMore(submitted: set<nat>, asked: map<nat, Asked>, base: nat, steps: seq<Step>, n: nat)
    requires n < |steps| && AllSubmitted(submitted, asked, base, steps, n)
    ensures base + n !in submitted
    ensures var s := steps[n];
            AllSubmitted(submitted + if IsCall(s) then {base + n} else {},
              if s.Write? then asked[base + n := Asked(s.vectors, s.dontblock)] else asked, base, steps, n + 1)
  {}

  /**
   * Over any order of calls and callbacks every message is acknowledged at most once, and one that is not is
   * the current one; a close that is waiting is over once its polls have come; a write has passed on the front
   * of its data, and all of it if it blocks and was acknowledged with ERR_OK. The run ends early only in a
   * shutdown of a netconn that is being closed, or in a write whose loop does not end.
   */
  method Run(c: Netconn, base: nat, steps: seq<Step>) returns (n: nat, fate: Fate)
    requires c.Valid() && !c.inLoop && forall m :: m in c.h.submitted ==> m < base
    requires forall i :: 0 <= i < |steps| ==> GoodStep(steps[i])
    modifies c
    ensures (c.Whole(), n, fate) == RunNet(old(c.Whole()), steps, base)
    ensures c.Valid() && old(c.h).submitted <= c.h.submitted && n <= |steps|
    ensures match fate
            case Fine => n == |steps| && !c.inLoop
            case Asserts => n < |steps| && steps[n].Shutdown? && c.currentMsg.Closing?
                            && MayClose(old(c.currentMsg), steps[..n])
            case Loops => n > 0 && c.inLoop && LoopsIn(steps[n - 1], c.currentMsg)
    ensures forall i :: 0 <= i < n && IsCall(steps[i]) ==> base + i in c.h.submitted
    ensures forall m :: m in c.h.submitted ==> c.h.acks[m] == 1 || (c.h.acks[m] == 0 && Current(c.currentMsg, m))
    ensures forall i :: 0 <= i < n && steps[i].Write? ==> WriteKept(c.h, c.passed, base + i, steps[i])
    ensures old(c.currentMsg).Closing? && Polls(steps[..n]) >= old(c.currentMsg).pollsLeft ==>
            c.h.acks[old(c.currentMsg).id] == 1
  {
    hide AckedOnce, WriteOk, DataOk, GoodStep, WriteKept, LoopsIn, Sound, MayClose, Waiting, AllSubmitted, IsCall;
    hide RunNet, StepNet;
    n, fate := 0, Fine;
    ghost var goal := RunNet(c.Whole(), steps, base);
    assert steps[0..] == steps;
    RunNetLater(goal);
    ghost var was := c.currentMsg;
    MayCloseFirst(was, steps);
    WaitingStarts(was, c.h);
    NoneYet(c.h.submitted, c.asked, base, steps);
    while n < |steps| && fate == Fine
      invariant 0 <= n <= |steps| && c.Valid() && AllSubmitted(c.h.submitted, c.asked, base, steps, n)
      invariant old(c.h).submitted <= c.h.submitted
      invariant match fate
                case Fine => !c.inLoop
                case Asserts => n < |steps| && steps[n].Shutdown? && c.currentMsg.Closing?
                case Loops => n > 0 && c.inLoop && LoopsIn(steps[n - 1], c.currentMsg)
      invariant goal == if fate == Fine then Later(RunNet(c.Whole(), steps[n..], base + n), n) else (c.Whole(), n, fate)
      invariant c.currentMsg.Closing? ==> MayClose(was, steps[..n])
      invariant was.Closing? ==> Waiting(was, c.h, c.currentMsg, Polls(steps[..n]))
      decreases |steps| - n, fate == Fine
    {
      assert steps[..n + 1][..n] == steps[..n];
      MayCloseMore(was, steps, n);
      SubmittedMore(c.h.submitted, c.asked, base, steps, n);
      assert steps[n..][1..] == steps[n + 1..];
      RunNetStep(c.Whole(), steps[n..], base + n, n);
      var ok := Take(c, steps[n], base + n, was, Polls(steps[..n]));
      if !ok {
        fate := Asserts;
        break;
      }
      n := n + 1;
      if c.inLoop { fate := Loops; }
    }
    assert n == |steps| ==> steps[n..] == [];
    RunNetEnds(c.Whole(), steps[n..], base + n, n);
    AckedFacts(c.h, c.currentMsg);
    PollsLeft(c.state, c.currentMsg, c.pcb, c.broken);
    if was.Closing? { WaitingEnds(was, c.h, c.currentMsg, Polls(steps[..n])); }
    AllKept(c.h, c.asked, c.passed, base, steps, n);
  }

  /** A shutdown that waits for memory makes a second one fail the assertion. */
  method SecondShutdown() returns (first: bool, second: bool)
    ensures first && !second
  {
    hide AckedOnce, WriteOk, DataOk;
    var c := new Netconn(false);
    var env := CloseEnv(false, false, TcpMem);
    first := c.DoClose(0, RDWR, POLLS, env);
    second := c.DoClose(1, RDWR, POLLS, env);
  }

  lemma NoneYet(submitted: set<nat>, asked: map<nat, Asked>, base: nat, steps: seq<Step>)
    requires forall m :: m in submitted ==> m < base
    ensures AllSubmitted(submitted, asked, base, steps, 0)
  {}

  lemma AllKept(h: Log, asked: map<nat, Asked>, passed: map<nat, seq<byte>>, base: nat, steps: seq<Step>, n: nat)
    requires n <= |steps| && AllSubmitted(h.submitted, asked, base, steps, n) && DataOk(h, asked, passed)
    ensures forall i :: 0 <= i < n && IsCall(steps[i]) ==> base + i in h.submitted
    ensures forall i :: 0 <= i < n && steps[i].Write? ==> WriteKept(h, passed, base + i, steps[i])
  {
    forall j | 0 <= j < n && steps[j].Write? ensures WriteKept(h, passed, base + j, steps[j]) {
      KeptFacts(h, asked, passed, base + j, steps[j]);
    }
  }

  ghost function Later(a: (Net, nat, Fate), k: nat): (Net, nat, Fate) {
    (a.0, a.1 + k, a.2)
  }

  lemma RunNetLater(a: (Net, nat, Fate))
    ensures Later(a, 0) == a
  {}

  lemma RunNetStep(n: Net, steps: seq<Step>, m: nat, k: nat)
    requires steps != []
    ensures Later(RunNet(n, steps, m), k) ==
            if steps[0].Shutdown? && n.msg.Closing? then (n, k, Asserts)
            else
              var r := StepNet(n, steps[0], m);
              if r.inLoop then (r, k + 1, Loops) else Later(RunNet(r, steps[1..], m + 1), k + 1)
  {
    hide StepNet;
  }

  lemma RunNetEnds(n: Net, steps: seq<Step>, m: nat, k: nat)
    ensures steps == [] ==> Later(RunNet(n, steps, m), k) == (n, k, Fine)
  {}

  lemma MayCloseFirst(was: Msg, steps: seq<Step>)
    ensures was.Closing? ==> MayClose(was, steps[..0])
  {}

  lemma MayCloseMore(was: Msg, steps: seq<Step>, n: nat)
    requires n < |steps|
    ensures MayClose(was, steps[..n + 1]) <==> MayClose(was, steps[..n]) || steps[n].Delete? || steps[n].Shutdown?
  {
    assert steps[..n + 1] == steps[..n] + [steps[n]];
    if s :| s in steps[..n] && (s.Delete? || s.Shutdown?) { assert s in steps[..n + 1]; }
    assert steps[n] in steps[..n + 1];
  }

  /** The write that is current is still in its loop, with the answers of `env` used up. */
  ghost predicate Looping(msg: Msg, vectors: seq<seq<byte>>, dontblock: bool, env: WriteEnv) {
    msg.Writing? && msg.w.vectors == vectors && msg.dontblock == dontblock && MayLoop(vectors, dontblock, env.tcp)
  }

  ghost predicate LoopsIn(s: Step, msg: Msg) {
    && (s.Write? || s.Poll? || s.Sent?)
    && msg.Writing? && Looping(msg, msg.w.vectors, msg.dontblock, s.wenv)
  }

  /** Enough answers, all with room for the data or for 0xffff bytes, and a route. */
  ghost predicate Plenty(vectors: seq<seq<byte>>, len: nat, env: WriteEnv) {
    && |env.tcp| >= len + |vectors| && !env.noRoute
    && forall t :: t in env.tcp ==> t.err == TcpOk && t.sndbuf >= if len < MAX_U16 then len else MAX_U16
  }

  lemma PlentyGoes(vectors: seq<seq<byte>>, env: WriteEnv)
    requires Flatten(vectors) != [] && Plenty(vectors, |Flatten(vectors)|, env)
    ensures var w := Start(vectors, |Flatten(vectors)|);
            WInv(w) && Roomy(w, env.tcp) && |env.tcp| >= w.len - w.offset + w.cnt && !env.noRoute
  {
    var len := |Flatten(vectors)|;
    StartInv(vectors);
    PlentyIsRoomy(Start(vectors, len), env.tcp, if len < MAX_U16 then len else MAX_U16);
  }

  lemma PollsLeft(state: State, msg: Msg, pcb: Pcb, broken: bool)
    requires Sound(state, msg, pcb, broken)
    ensures msg.Closing? ==> msg.pollsLeft >= 1
  {}

  lemma StillWaits(msg: Msg, asked: map<nat, Asked>, passed: map<nat, seq<byte>>, inLoop: bool)
    requires msg.Writing? && WInv(msg.w) && if inLoop then msg.w.cnt > 0 else Entry(msg.w) && !msg.dontblock
    requires msg.id in asked && asked[msg.id] == Asked(msg.w.vectors, msg.dontblock)
    requires msg.w.offset <= msg.w.len == |Flatten(msg.w.vectors)|
    requires msg.id in passed && passed[msg.id] == Flatten(msg.w.vectors)[..msg.w.offset]
    ensures WriteOk(msg, asked, passed, inLoop)
  {}

  lemma EntryFacts(w: W)
    requires Entry(w)
    ensures WInv(w) && w.cnt > 0 && w.offset < w.len
  {}

  /** What message `m` has passed on, and what its success means. */
  ghost predicate WriteKept(h: Log, passed: map<nat, seq<byte>>, m: nat, s: Step)
    requires s.Write?
  {
    && m in passed && passed[m] <= Flatten(s.vectors)
    && (m in h.results && h.results[m] == OK && !s.dontblock ==> passed[m] == Flatten(s.vectors))
  }

  lemma KeptFacts(h: Log, asked: map<nat, Asked>, passed: map<nat, seq<byte>>, m: nat, s: Step)
    requires DataOk(h, asked, passed) && s.Write? && m in asked && asked[m] == Asked(s.vectors, s.dontblock)
    ensures WriteKept(h, passed, m, s)
  {}

  lemma AckedFacts(h: Log, msg: Msg)
    requires AckedOnce(h, msg)
    ensures forall m :: m in h.submitted ==> h.acks[m] == 1 || (h.acks[m] == 0 && Current(msg, m))
    ensures forall m :: m in h.results ==> h.acks[m] == 1
  {}

  /** What has been submitted or acknowledged stays so. */
  lemma SettledKeeps(h: Log, msg: Msg, h': Log, msg': Msg, was: Msg, p: nat, p': nat)
    requires AckedOnce(h, msg) && Settled(h, msg, h', msg') && p <= p'
    requires msg.Closing? ==> KeepsClosing(msg, msg', p' - p)
    ensures h'.submitted == h.submitted && (msg'.Closing? ==> msg.Closing?)
    ensures was.Closing? && Waiting(was, h, msg, p) ==> Waiting(was, h', msg', p')
  {}

  lemma TakenKeeps(h: Log, msg: Msg, h': Log, msg': Msg, m: nat, was: Msg, p: nat)
    requires Taken(h, h', msg', m) && (msg.Closing? ==> msg' == msg)
    ensures h'.submitted == h.submitted + {m} && (was.Closing? && Waiting(was, h, msg, p) ==> Waiting(was, h', msg', p))
  {}

  lemma WaitingEnds(was: Msg, h: Log, msg: Msg, p: nat)
    requires was.Closing? && Waiting(was, h, msg, p) && AckedOnce(h, msg) && (msg.Closing? ==> msg.pollsLeft >= 1)
    ensures p >= was.pollsLeft ==> h.acks[was.id] == 1
  {}

  lemma WaitingStarts(was: Msg, h: Log)
    ensures was.Closing? ==> Waiting(was, h, was, 0)
  {}

  /** The close is acknowledged, or it is still current with `n` polls used up. */
  ghost predicate Waiting(msg: Msg, h: Log, msg': Msg, n: nat)
    requires msg.Closing?
  {
    msg.id in h.results || (msg'.Closing? && msg'.id == msg.id && msg'.pollsLeft + n == msg.pollsLeft)
  }

  /** The current message waits on, or it has been acknowledged; nothing else is. */
  ghost predicate Settled(h: Log, msg: Msg, h': Log, msg': Msg) {
    if msg.NoMsg? then h' == h && msg'.NoMsg?
    else
      || (h' == h && Current(msg', msg.id) && (msg'.Closing? ==> msg.Closing?))
      || (msg'.NoMsg? && exists err :: h' == Acked(h, msg.id, err))
  }

  /** A close that is still waiting has used up `n` more polls. */
  ghost predicate KeepsClosing(msg: Msg, msg': Msg, n: nat) {
    msg.Closing? && msg' != NoMsg ==> msg'.Closing? && msg'.id == msg.id && msg'.pollsLeft + n == msg.pollsLeft
  }

  /** The message has been acknowledged or is now the current one, and no other acknowledgement has changed. */
  ghost predicate Taken(h: Log, h': Log, msg: Msg, m: nat) {
    && h'.submitted == h.submitted + {m} && (m in h'.results || Current(msg, m))
    && forall k :: k in h.results ==> k in h'.results && (k != m ==> h'.results[k] == h.results[k])
  }

  lemma NotCurrent(h: Log, msg: Msg, m: nat)
    requires AckedOnce(h, msg) && m !in h.submitted
    ensures !Current(msg, m)
  {}

  lemma NotAsked(h: Log, asked: map<nat, Asked>, passed: map<nat, seq<byte>>, m: nat)
    requires DataOk(h, asked, passed) && m !in h.submitted
    ensures m !in asked
  {}

  lemma SubmitTwice(h: Log, m: nat, err: Err)
    ensures Acked(h.(submitted := h.submitted + {m}), m, err) == Acked(h, m, err)
  {
    assert h.submitted + {m} + {m} == h.submitted + {m};
  }

  lemma Begins(vs: seq<seq<byte>>)
    requires Flatten(vs) != []
    ensures Entry(Start(vs, |Flatten(vs)|)) && Flatten(vs)[..0] == []
  {
    StartInv(vs);
  }

  function ConnectErr(pcb: Pcb, state: State, accepted: TcpErr): Err {
    if pcb == NoPcb then CLSD
    else if state == CONNECT then ALREADY
    else if state != NONE then ISCONN
    else if accepted == TcpMem then MEM else OTHER
  }

  function WriteRefusal(pendingErr: Err, state: State, pcb: Pcb): Err {
    if pendingErr != OK then pendingErr else if state != NONE then INPROGRESS else if pcb == NoPcb then CONN else OK
  }

  lemma SameId(h: Log, msg: Msg, msg': Msg)
    requires AckedOnce(h, msg) && !msg.NoMsg? && !msg'.NoMsg? && msg'.id == msg.id
    ensures AckedOnce(h, msg')
  {
    assert forall m :: Current(msg, m) == Current(msg', m);
  }

  lemma SentSoFar(w: W, w': W, sent: seq<byte>, out: seq<byte>)
    requires WInv(w') && w'.vectors == w.vectors && w.offset <= w'.offset <= w'.len
    requires sent == Flatten(w.vectors)[..w.offset] && out == Flatten(w.vectors)[w.offset..w'.offset]
    ensures sent + out == Flatten(w.vectors)[..w'.offset]
    ensures w'.offset == w'.len ==> sent + out == Flatten(w.vectors)
  {}
}
