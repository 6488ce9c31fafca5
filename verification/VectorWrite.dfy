/**
 * lwip_netconn_do_writemore of api_msg.c: a write of several vectors that stops when the send buffer is full
 * and resumes later.
 */
module VectorWrite {
  import opened Octets

  datatype Err = OK | MEM | WOULDBLOCK | INPROGRESS | ALREADY | ISCONN | CONN | CLSD | RTE | OTHER

  /** What tcp_sndbuf and then tcp_write return in one pass of the loop. */
  datatype Tcp = Tcp(sndbuf: nat, err: TcpErr)

  datatype TcpErr = TcpOk | TcpMem | TcpFail

  /** tcp_write does not run out of memory over no bytes. */
  function Answer(t: Tcp, len: nat): TcpErr {
    if len == 0 && t.err == TcpMem then TcpOk else t.err
  }

  const U16 := 0x1_0000
  const MAX_U16 := 0xFFFF

  /** msg.w: the pointer `vector` is the index `vi`. */
  datatype W = W(vectors: seq<seq<byte>>, vi: nat, cnt: nat, off: nat, offset: nat, len: nat)

  /** The first `offset` bytes of the data end `off` bytes into vector `vi`. */
  ghost predicate WInv(w: W) {
    && w.vi < |w.vectors| && w.off <= |w.vectors[w.vi]|
    && w.len == |Flatten(w.vectors)|
    && w.offset == |Flatten(w.vectors[..w.vi])| + w.off
    && (if w.cnt == 0 then w.offset == w.len else w.vi + w.cnt == |w.vectors|)
    && (w.cnt != 0 ==> w.off < |w.vectors[w.vi]| || w.off == 0)
  }

  /** The assertions on entry. */
  ghost predicate Entry(w: W) {
    WInv(w) && w.offset < w.len && w.cnt > 0
  }

  function Start(vs: seq<seq<byte>>, len: nat): W {
    W(vs, 0, |vs|, 0, 0, len)
  }

  /** What is left of the current vector. */
  function Diff(w: W): int
    requires w.vi < |w.vectors|
  {
    |w.vectors[w.vi]| - w.off
  }

  function Chunk(w: W, sndbuf: nat): (r: nat)
    requires w.vi < |w.vectors| && w.off <= |w.vectors[w.vi]|
    ensures r <= Diff(w)
  {
    var len := if Diff(w) > MAX_U16 then MAX_U16 else Diff(w);
    if sndbuf < len then sndbuf else len
  }

  /** The loop goes on after a chunk of `len` bytes; the second comparison is made on 16 bits. */
  predicate More(w: W, len: nat)
    requires w.vi < |w.vectors| && w.off <= |w.vectors[w.vi]|
  {
    (len == MAX_U16 && Diff(w) > MAX_U16) || (len == Diff(w) % U16 && w.cnt > 1)
  }

  /** After tcp_write has taken `len` bytes. */
  function Advance(w: W, len: nat): W
    requires w.vi < |w.vectors| && w.off + len <= |w.vectors[w.vi]| && w.cnt > 0
  {
    var x := w.(offset := w.offset + len, off := w.off + len);
    if x.off == |x.vectors[x.vi]| then
      if x.cnt > 1 then x.(cnt := x.cnt - 1, vi := x.vi + 1, off := 0) else x.(cnt := x.cnt - 1)
    else x
  }

  lemma StartInv(vs: seq<seq<byte>>)
    requires vs != []
    ensures WInv(Start(vs, |Flatten(vs)|))
    ensures Flatten(vs) != [] ==> Entry(Start(vs, |Flatten(vs)|))
  {
    assert vs[..0] == [];
  }

  /** The bytes of a chunk are the next ones of the data. */
  lemma AdvanceInv(w: W, len: nat)
    requires WInv(w) && w.cnt > 0 && w.off + len <= |w.vectors[w.vi]|
    ensures WInv(Advance(w, len)) && w.offset + len <= w.len
    ensures w.vectors[w.vi][w.off..w.off + len] == Flatten(w.vectors)[w.offset..w.offset + len]
  {
    var vs := w.vectors;
    FlattenPrefix(vs, w.vi);
    var before, through, all := Flatten(vs[..w.vi]), Flatten(vs[..w.vi + 1]), Flatten(vs);
    assert vs[..|vs|] == vs;
    hide Flatten;
    assert all[w.offset..w.offset + len] == through[w.offset..w.offset + len];
    assert (before + vs[w.vi])[w.offset..w.offset + len] == vs[w.vi][w.off..w.off + len];
  }

  /** There is data left while there is some in the current vector or a later one. */
  lemma DataLeft(w: W, i: nat)
    requires WInv(w) && w.cnt > 0 && w.vi <= i < |w.vectors| && w.vectors[i] != []
    requires w.vi == i ==> w.off < |w.vectors[i]|
    ensures w.offset < w.len
  {
    var vs := w.vectors;
    hide Flatten;
    FlattenPrefix(vs, w.vi);
    FlattenPrefix(vs, i);
    if w.vi < i {
      FlattenShorter(vs, w.vi + 1, i);
    }
  }

  lemma {:induction false} FlattenShorter(vs: seq<seq<byte>>, i: nat, j: nat)
    requires i <= j <= |vs|
    ensures |Flatten(vs[..i])| <= |Flatten(vs[..j])|
    decreases j - i
  {
    hide Flatten;
    if i < j {
      FlattenPrefix(vs, i);
      FlattenShorter(vs, i + 1, j);
    }
  }

  // When the loop cannot end

  /** All vectors but the last fit in 16 bits. */
  predicate Short(vs: seq<seq<byte>>) {
    forall i :: 0 <= i < |vs| - 1 ==> |vs[i]| <= MAX_U16
  }

  /** The inner loop and the room in the send buffer; `inLoop` is false while the write waits for a callback. */
  datatype Loop = Loop(w: W, room: nat, inLoop: bool)

  /** A pass that tcp_write accepts, one that it refuses for memory, and a callback that finds this much room. */
  datatype Act = Pass | Refuse | Resume(room: nat)

  /** A non-blocking write leaves the loop when there is no room. */
  predicate Leaves(w: W, room: nat, dontblock: bool)
    requires w.vi < |w.vectors|
  {
    dontblock && room == 0 && Diff(w) > 0
  }

  /** `cap` is the size of an empty send buffer. */
  ghost predicate CanDo(l: Loop, act: Act, dontblock: bool, cap: nat) {
    match act
    case Pass => l.inLoop && WInv(l.w) && l.w.cnt > 0 && !Leaves(l.w, l.room, dontblock)
    case Refuse => l.inLoop && WInv(l.w) && l.w.cnt > 0 && Chunk(l.w, l.room) > 0
    case Resume(room) => !l.inLoop && !dontblock && Entry(l.w) && l.room <= room <= cap
  }

  ghost function After(l: Loop, act: Act, dontblock: bool, cap: nat): Loop
    requires CanDo(l, act, dontblock, cap)
  {
    match act
    case Pass =>
      var len := Chunk(l.w, l.room);
      Loop(Advance(l.w, len), l.room - len, More(l.w, len))
    case Refuse => l.(inLoop := false)
    case Resume(room) => l.(room := room, inLoop := true)
  }

  ghost predicate Runs(l: Loop, acts: seq<Act>, dontblock: bool, cap: nat, z: Loop)
    decreases |acts|
  {
    if acts == [] then l == z
    else CanDo(l, acts[0], dontblock, cap) && Runs(After(l, acts[0], dontblock, cap), acts[1..], dontblock, cap, z)
  }

  /** An accepted pass changes nothing and calls for another. */
  ghost predicate Spins(l: Loop, dontblock: bool, cap: nat) {
    CanDo(l, Pass, dontblock, cap) && After(l, Pass, dontblock, cap) == l
  }

  lemma SpinsIff(l: Loop, dontblock: bool, cap: nat)
    requires WInv(l.w) && l.w.cnt > 0
    ensures Spins(l, dontblock, cap)
            <==> l.inLoop && !dontblock && l.room == 0 && l.w.cnt > 1 && Diff(l.w) > 0 && Diff(l.w) % U16 == 0
  {}

  ghost predicate LoopInv(l: Loop) {
    WInv(l.w) && (l.inLoop ==> l.w.cnt > 0)
  }

  lemma AfterInv(l: Loop, act: Act, dontblock: bool, cap: nat)
    requires LoopInv(l) && CanDo(l, act, dontblock, cap)
    ensures LoopInv(After(l, act, dontblock, cap)) && After(l, act, dontblock, cap).w.vectors == l.w.vectors
  {
    if act == Pass { AdvanceInv(l.w, Chunk(l.w, l.room)); }
  }

  lemma {:induction false} RunsKeep(l: Loop, acts: seq<Act>, dontblock: bool, cap: nat, z: Loop)
    requires LoopInv(l) && Runs(l, acts, dontblock, cap, z)
    ensures LoopInv(z) && z.w.vectors == l.w.vectors
    decreases |acts|
  {
    hide LoopInv, CanDo, After;
    if acts != [] {
      AfterInv(l, acts[0], dontblock, cap);
      RunsKeep(After(l, acts[0], dontblock, cap), acts[1..], dontblock, cap, z);
    }
  }

  lemma {:induction false} RunsMore(l: Loop, acts: seq<Act>, m: Loop, more: seq<Act>, dontblock: bool, cap: nat,
    z: Loop)
    requires Runs(l, acts, dontblock, cap, m) && Runs(m, more, dontblock, cap, z)
    ensures Runs(l, acts + more, dontblock, cap, z)
    decreases |acts|
  {
    hide CanDo, After;
    if acts == [] {
      assert acts + more == more;
    } else {
      RunsMore(After(l, acts[0], dontblock, cap), acts[1..], m, more, dontblock, cap, z);
      assert (acts + more)[1..] == acts[1..] + more;
    }
  }

  lemma RunsOne(l: Loop, act: Act, dontblock: bool, cap: nat)
    requires CanDo(l, act, dontblock, cap)
    ensures Runs(l, [act], dontblock, cap, After(l, act, dontblock, cap))
  {
    assert [act][1..] == [];
  }

  /** On the way to the long vector `i`, with no room left. */
  ghost predicate OnTheWay(l: Loop, i: nat) {
    && LoopInv(l) && l.w.cnt > 0 && l.room == 0
    && l.w.vi <= i < |l.w.vectors| - 1 && |l.w.vectors[i]| > MAX_U16
    && (l.w.vi == i ==> Diff(l.w) > MAX_U16)
  }

  lemma WayOn(l: Loop, i: nat)
    requires OnTheWay(l, i)
    ensures Entry(l.w) && l.w.cnt > 1
  {
    DataLeft(l.w, i);
  }

  /** With no room the loop ends and the write waits. */
  lemma Waits(l: Loop, i: nat, cap: nat) returns (acts: seq<Act>)
    requires OnTheWay(l, i) && Diff(l.w) % U16 != 0
    ensures Runs(l, acts, false, cap, l.(inLoop := false))
  {
    acts := if l.inLoop then [Pass] else [];
    if l.inLoop { RunsOne(l, Pass, false, cap); }
  }

  lemma OnePass(w: W, i: nat, cap: nat)
    requires OnTheWay(Loop(w, 0, true), i) && Diff(w) % U16 != 0
    ensures CanDo(Loop(w, 1, true), Pass, false, cap)
    ensures var z := After(Loop(w, 1, true), Pass, false, cap);
            OnTheWay(z, i) && z.w.offset == w.offset + 1 && z.w.len == w.len
  {
    AdvanceInv(w, 1);
    hide Flatten;
  }

  /** One byte is let through. */
  lemma OneByte(l: Loop, i: nat, cap: nat) returns (acts: seq<Act>, z: Loop)
    requires OnTheWay(l, i) && 1 <= cap <= MAX_U16 && Diff(l.w) % U16 != 0
    ensures Runs(l, acts, false, cap, z) && OnTheWay(z, i) && z.w.offset == l.w.offset + 1 && z.w.len == l.w.len
  {
    hide Runs, WInv;
    WayOn(l, i);
    var waiting, open := l.(inLoop := false), Loop(l.w, 1, true);
    var first := Waits(l, i, cap);
    RunsOne(waiting, Resume(1), false, cap);
    RunsMore(l, first, waiting, [Resume(1)], false, cap, open);
    OnePass(l.w, i, cap);
    hide After, OnTheWay, CanDo;
    z := After(open, Pass, false, cap);
    RunsOne(open, Pass, false, cap);
    RunsMore(l, first + [Resume(1)], open, [Pass], false, cap, z);
    acts := first + [Resume(1)] + [Pass];
  }

  /** An empty vector is passed over. */
  lemma NoByte(l: Loop, i: nat, cap: nat) returns (acts: seq<Act>, z: Loop)
    requires OnTheWay(l, i) && Diff(l.w) == 0
    ensures Runs(l, acts, false, cap, z) && OnTheWay(z, i) && z.w.offset == l.w.offset && z.w.cnt < l.w.cnt
            && z.w.len == l.w.len
  {
    WayOn(l, i);
    var open := l.(inLoop := true);
    var first := if l.inLoop then [] else [Resume(0)];
    assert Runs(l, first, false, cap, open) by {
      if !l.inLoop { RunsOne(l, Resume(0), false, cap); }
    }
    RunsOne(open, Pass, false, cap);
    z := After(open, Pass, false, cap);
    RunsMore(l, first, open, [Pass], false, cap, z);
    acts := first + [Pass];
    AdvanceInv(l.w, 0);
  }

  /** Byte by byte the write comes to a multiple of 0x10000 bytes before the end of a long vector. */
  lemma {:induction false} FindSpin(l: Loop, i: nat, cap: nat) returns (acts: seq<Act>, z: Loop)
    requires OnTheWay(l, i) && 1 <= cap <= MAX_U16
    ensures Runs(l, acts, false, cap, z) && Spins(z, false, cap)
    decreases l.w.len - l.w.offset, l.w.cnt
  {
    hide Runs;
    var first, next, more;
    WayOn(l, i);
    if Diff(l.w) == 0 {
      first, next := NoByte(l, i, cap);
    } else if Diff(l.w) % U16 != 0 {
      first, next := OneByte(l, i, cap);
    } else {
      acts, z := Stuck(l, cap);
      return;
    }
    more, z := FindSpin(next, i, cap);
    RunsMore(l, first, next, more, false, cap, z);
    acts := first + more;
  }

  lemma Stuck(l: Loop, cap: nat) returns (acts: seq<Act>, z: Loop)
    requires LoopInv(l) && Entry(l.w) && l.w.cnt > 1 && l.room == 0 && Diff(l.w) > 0 && Diff(l.w) % U16 == 0
    ensures Runs(l, acts, false, cap, z) && Spins(z, false, cap)
  {
    z := l.(inLoop := true);
    acts := if l.inLoop then [] else [Resume(0)];
    if !l.inLoop { RunsOne(l, Resume(0), false, cap); }
    SpinsIff(z, false, cap);
  }

  lemma SpinIsLong(vs: seq<seq<byte>>, dontblock: bool, cap: nat, room: nat, acts: seq<Act>, z: Loop)
    requires vs != [] && Runs(Loop(Start(vs, |Flatten(vs)|), room, true), acts, dontblock, cap, z)
             && Spins(z, dontblock, cap)
    ensures !dontblock && !Short(vs)
  {
    hide Runs, Flatten;
    StartInv(vs);
    RunsKeep(Loop(Start(vs, |Flatten(vs)|), room, true), acts, dontblock, cap, z);
    SpinsIff(z, dontblock, cap);
    assert |vs[z.w.vi]| > MAX_U16;
  }

  lemma LongSpins(vs: seq<seq<byte>>, cap: nat) returns (acts: seq<Act>, z: Loop)
    requires !Short(vs) && 1 <= cap <= MAX_U16
    ensures Runs(Loop(Start(vs, |Flatten(vs)|), 0, true), acts, false, cap, z) && Spins(z, false, cap)
  {
    hide Runs, Flatten, Spins;
    var i: nat :| i < |vs| - 1 && |vs[i]| > MAX_U16;
    StartInv(vs);
    acts, z := FindSpin(Loop(Start(vs, |Flatten(vs)|), 0, true), i, cap);
  }

  /**
   * With a send buffer of any size, a run of passes, refusals and resumptions can be caught in a pass without
   * effect exactly when the write blocks and a vector other than the last exceeds 0xffff bytes.
   */
  lemma SpinIff(vs: seq<seq<byte>>, dontblock: bool, cap: nat)
    requires vs != [] && 1 <= cap <= MAX_U16
    ensures (exists room: nat, acts: seq<Act>, z: Loop ::
               room <= cap && Runs(Loop(Start(vs, |Flatten(vs)|), room, true), acts, dontblock, cap, z)
                 && Spins(z, dontblock, cap))
            <==> !dontblock && !Short(vs)
  {
    hide *;
    if room: nat, acts: seq<Act>, z: Loop :|
      room <= cap && Runs(Loop(Start(vs, |Flatten(vs)|), room, true), acts, dontblock, cap, z)
        && Spins(z, dontblock, cap)
    {
      SpinIsLong(vs, dontblock, cap, room, acts, z);
    }
    if !dontblock && !Short(vs) {
      var acts, z := LongSpins(vs, cap);
    }
  }

  // The function itself

  /** What a turn of the loop, or the whole loop, comes to: the new msg.w, the result, and whether to go on. */
  datatype Turn = Turn(w: W, err: Err, more: bool)

  ghost function PassSpec(w: W, dontblock: bool, t: Tcp): Turn
    requires WInv(w) && w.cnt > 0
  {
    if Leaves(w, t.sndbuf, dontblock) then Turn(w, if w.offset == 0 then WOULDBLOCK else OK, false)
    else
      var len := Chunk(w, t.sndbuf);
      match Answer(t, len)
      case TcpOk => Turn(Advance(w, len), OK, More(w, len))
      case TcpMem => Turn(w, MEM, More(w, len))
      case TcpFail => Turn(w, OTHER, More(w, len))
  }

  /** The loop with these answers to its passes; it is still running if they do not suffice. */
  ghost function LoopSpec(w: W, dontblock: bool, tcp: seq<Tcp>): Turn
    requires WInv(w) && w.cnt > 0
    decreases |tcp|
  {
    if tcp == [] then Turn(w, OK, true)
    else
      PassOk(w, dontblock, tcp[0]);
      var p := PassSpec(w, dontblock, tcp[0]);
      if p.err == OK && p.more then LoopSpec(p.w, dontblock, tcp[1..]) else Turn(p.w, p.err, false)
  }

  lemma PassOk(w: W, dontblock: bool, t: Tcp)
    requires WInv(w) && w.cnt > 0
    ensures var p := PassSpec(w, dontblock, t);
            && WInv(p.w) && p.w.vectors == w.vectors && w.offset <= p.w.offset <= w.len == p.w.len
            && (p.err == OK && p.more ==> p.w.cnt > 0) && (p.err != OK ==> p.w == w)
            && (p.err == MEM ==> w.offset < w.len)
            && (p.err == OTHER ==> t.err == TcpFail) && (p.err == WOULDBLOCK ==> dontblock && w.offset == 0)
            && (p.err == OK || p.err == MEM || p.err == OTHER || p.err == WOULDBLOCK)
            && (dontblock && p.err == OK && !p.more && w.len > 0 ==> p.w.offset > 0)
  {
    Bounds(w);
    var len := Chunk(w, t.sndbuf);
    AdvanceInv(w, len);
    hide Flatten;
    if Diff(w) == 0 && w.offset < w.len { NoneTaken(w); }
  }

  lemma Bounds(w: W)
    requires WInv(w)
    ensures w.vi < |w.vectors| && w.off <= |w.vectors[w.vi]| && w.offset <= w.len == |Flatten(w.vectors)|
    ensures Flatten(w.vectors)[w.offset..w.offset] == []
  {
    FlattenPrefix(w.vectors, w.vi);
  }

  lemma NoneTaken(w: W)
    requires WInv(w) && w.cnt > 0 && w.offset < w.len && Diff(w) == 0
    ensures More(w, 0)
  {
    FlattenPrefix(w.vectors, w.vi);
    assert w.vectors[..|w.vectors|] == w.vectors;
  }

  /** What the loop keeps, and why it ends. */
  ghost predicate LoopOk(w: W, dontblock: bool, tcp: seq<Tcp>, z: Turn) {
    && WInv(z.w) && z.w.vectors == w.vectors && w.offset <= z.w.offset <= w.len == z.w.len
    && (z.more ==> z.err == OK && z.w.cnt > 0)
    && match z.err
       case OK => dontblock && !z.more ==> z.w.offset > 0
       case MEM => z.w.cnt > 0 && z.w.offset < z.w.len
       case OTHER => exists t :: t in tcp && t.err == TcpFail
       case WOULDBLOCK => dontblock && z.w.offset == 0
       case _ => false
  }

  lemma {:induction false} LoopIsOk(w: W, dontblock: bool, tcp: seq<Tcp>)
    requires WInv(w) && w.cnt > 0 && w.len > 0
    ensures LoopOk(w, dontblock, tcp, LoopSpec(w, dontblock, tcp))
    decreases |tcp|
  {
    hide WInv, PassSpec;
    Bounds(w);
    if tcp != [] {
      PassOk(w, dontblock, tcp[0]);
      var p := PassSpec(w, dontblock, tcp[0]);
      if p.err == OK && p.more {
        LoopIsOk(p.w, dontblock, tcp[1..]);
        if z :| z in tcp[1..] && z.err == TcpFail { assert z in tcp; }
      } else if p.err == OTHER {
        assert tcp[0] in tcp;
      }
    }
  }

  /** A pass that calls for another gets further, unless it is one without effect. */
  lemma PassFurther(w: W, dontblock: bool, t: Tcp)
    requires WInv(w) && w.cnt > 0 && (dontblock || Short(w.vectors))
    ensures var p := PassSpec(w, dontblock, t);
            p.err == OK && p.more ==> p.w.offset > w.offset || (p.w.offset == w.offset && p.w.cnt < w.cnt)
  {
    hide Flatten;
    if Short(w.vectors) { assert |w.vectors[w.vi]| <= MAX_U16 || w.cnt == 1; }
  }

  lemma CountFalls(w: W, dontblock: bool, t: Tcp)
    requires WInv(w) && w.cnt > 0
    ensures PassSpec(w, dontblock, t).w.cnt <= w.cnt
  {}

  /** Outside the case of SpinIff the loop ends within as many passes as there are bytes and vectors left. */
  lemma {:induction false} LoopEnds(w: W, dontblock: bool, tcp: seq<Tcp>)
    requires WInv(w) && w.cnt > 0 && (dontblock || Short(w.vectors)) && |tcp| >= w.len - w.offset + w.cnt
    ensures !LoopSpec(w, dontblock, tcp).more
    decreases |tcp|
  {
    hide WInv, PassSpec, Short;
    Bounds(w);
    var p := PassSpec(w, dontblock, tcp[0]);
    PassOk(w, dontblock, tcp[0]);
    PassFurther(w, dontblock, tcp[0]);
    CountFalls(w, dontblock, tcp[0]);
    if p.err == OK && p.more { LoopEnds(p.w, dontblock, tcp[1..]); }
  }

  /** Every pass finds room for what is left of the vector, or for 0xffff bytes, and is accepted. */
  ghost predicate Roomy(w: W, tcp: seq<Tcp>)
    requires WInv(w)
    decreases |tcp|
  {
    tcp != [] && w.cnt > 0 ==>
      && tcp[0].err == TcpOk && Chunk(w, tcp[0].sndbuf) == Chunk(w, MAX_U16)
      && WInv(Advance(w, Chunk(w, MAX_U16))) && Roomy(Advance(w, Chunk(w, MAX_U16)), tcp[1..])
  }

  lemma FullPass(w: W, dontblock: bool, t: Tcp)
    requires WInv(w) && w.cnt > 0 && t.err == TcpOk && Chunk(w, t.sndbuf) == Chunk(w, MAX_U16)
    ensures var p := PassSpec(w, dontblock, t);
            && p.err == OK && p.w == Advance(w, Chunk(w, MAX_U16)) && (p.more <==> p.w.cnt > 0)
            && (p.more ==> p.w.offset > w.offset || (p.w.offset == w.offset && p.w.cnt < w.cnt))
  {
    AdvanceInv(w, Chunk(w, MAX_U16));
    hide Flatten;
  }

  /** With room all the way all the data goes, however long the vectors are. */
  lemma {:induction false} AllGoes(w: W, dontblock: bool, tcp: seq<Tcp>)
    requires WInv(w) && w.cnt > 0 && Roomy(w, tcp) && |tcp| >= w.len - w.offset + w.cnt
    ensures var z := LoopSpec(w, dontblock, tcp); z.err == OK && !z.more && z.w.offset == z.w.len
    decreases |tcp|
  {
    hide WInv, PassSpec, Chunk, Advance;
    Bounds(w);
    var p := PassSpec(w, dontblock, tcp[0]);
    PassOk(w, dontblock, tcp[0]);
    FullPass(w, dontblock, tcp[0]);
    CountFalls(w, dontblock, tcp[0]);
    if p.more { AllGoes(p.w, dontblock, tcp[1..]); } else { AllWritten(p.w); }
  }

  lemma AllWritten(w: W)
    requires WInv(w) && w.cnt == 0
    ensures w.offset == w.len
  {}

  /** Room for the rest of the data, or for 0xffff bytes, at every pass is room enough. */
  lemma {:induction false} PlentyIsRoomy(w: W, tcp: seq<Tcp>, room: nat)
    requires WInv(w) && (room >= w.len - w.offset || room >= MAX_U16)
    requires forall t :: t in tcp ==> t.err == TcpOk && t.sndbuf >= room
    ensures Roomy(w, tcp)
    decreases |tcp|
  {
    if tcp != [] && w.cnt > 0 {
      assert tcp[0] in tcp;
      AdvanceInv(w, Diff(w));
      AdvanceInv(w, Chunk(w, MAX_U16));
      hide Flatten, WInv;
      PlentyIsRoomy(Advance(w, Chunk(w, MAX_U16)), tcp[1..], room);
    }
  }

  // How a blocking write gets on from one resumption to the next

  /** The answers of a send buffer with `room` bytes free that accepts what fits. */
  ghost predicate Accepting(w: W, room: nat, tcp: seq<Tcp>)
    requires WInv(w)
    decreases |tcp|
  {
    tcp != [] && w.cnt > 0 ==>
      && tcp[0] == Tcp(room, TcpOk)
      && var take := Chunk(w, room);
      WInv(Advance(w, take)) && Accepting(Advance(w, take), room - take, tcp[1..])
  }

  function Min(a: int, b: int): int {
    if a <= b then a else b
  }

  /** A pass that does not call for another has used up the room or the data. */
  lemma StopsAt(w: W, room: nat)
    requires WInv(w) && w.cnt > 0 && Short(w.vectors)
    ensures Chunk(w, room) <= Min(room, w.len - w.offset)
    ensures !More(w, Chunk(w, room)) ==> Chunk(w, room) == Min(room, w.len - w.offset)
  {
    FlattenPrefix(w.vectors, w.vi);
    AdvanceInv(w, Diff(w));
    assert w.vectors[..|w.vectors|] == w.vectors;
    hide Flatten;
    assert |w.vectors[w.vi]| <= MAX_U16 || w.cnt == 1;
  }

  /** One run of the loop passes on as much as there is room for. */
  lemma {:induction false} TakesWhatFits(w: W, room: nat, tcp: seq<Tcp>)
    requires WInv(w) && w.cnt > 0 && Short(w.vectors) && Accepting(w, room, tcp)
    requires |tcp| >= w.len - w.offset + w.cnt
    ensures var z := LoopSpec(w, false, tcp);
            z.err == OK && !z.more && z.w.offset == w.offset + Min(room, w.len - w.offset)
    decreases |tcp|
  {
    Bounds(w);
    StopsAt(w, room);
    PassOk(w, false, tcp[0]);
    PassFurther(w, false, tcp[0]);
    CountFalls(w, false, tcp[0]);
    var take := Chunk(w, room);
    var p := PassSpec(w, false, tcp[0]);
    assert p == Turn(Advance(w, take), OK, More(w, take)) && p.w.offset == w.offset + take;
    hide WInv, PassSpec, Chunk, Advance, Short, More;
    if p.more { TakesWhatFits(p.w, room - take, tcp[1..]); }
  }

  ghost function Sum(rooms: seq<nat>): nat {
    if rooms == [] then 0 else rooms[0] + Sum(rooms[1..])
  }

  /** The write finds this much room whenever it is resumed. */
  ghost predicate Resumed(w: W, rooms: seq<nat>, tcps: seq<seq<Tcp>>)
    decreases |tcps|
  {
    && |rooms| == |tcps| && Entry(w)
    && (tcps != [] ==>
          && Accepting(w, rooms[0], tcps[0]) && |tcps[0]| >= w.len - w.offset + w.cnt
          && var z := LoopSpec(w, false, tcps[0]);
          z.w.offset < z.w.len ==> Resumed(z.w, rooms[1..], tcps[1..]))
  }

  /** One of these runs of lwip_netconn_do_writemore is the last, with success. */
  ghost predicate DoneWithin(w: W, tcps: seq<seq<Tcp>>)
    decreases |tcps|
  {
    && tcps != [] && Entry(w)
    && var z := LoopSpec(w, false, tcps[0]);
    !z.more && (EndOf(z, false, false) == (true, OK) || (!EndOf(z, false, false).0 && DoneWithin(z.w, tcps[1..])))
  }

  /** A blocking write whose vectors but the last fit 16 bits is done exactly when it has found room for its data. */
  lemma {:induction false} DoneIff(w: W, rooms: seq<nat>, tcps: seq<seq<Tcp>>)
    requires Resumed(w, rooms, tcps) && Short(w.vectors)
    ensures DoneWithin(w, tcps) <==> Sum(rooms) >= w.len - w.offset
    decreases |tcps|
  {
    if tcps != [] {
      hide Short, Flatten, WInv, LoopSpec, Accepting;
      var z := LoopSpec(w, false, tcps[0]);
      TakesWhatFits(w, rooms[0], tcps[0]);
      LoopIsOk(w, false, tcps[0]);
      if z.w.offset < z.w.len { DoneIff(z.w, rooms[1..], tcps[1..]); }
    }
  }

  /** It is done after at most as many resumptions as it has bytes if each finds some room. */
  lemma DoneInTime(w: W, rooms: seq<nat>, tcps: seq<seq<Tcp>>)
    requires Resumed(w, rooms, tcps) && Short(w.vectors) && |rooms| >= w.len - w.offset
    requires forall i :: 0 <= i < |rooms| ==> rooms[i] > 0
    ensures DoneWithin(w, tcps)
  {
    hide *;
    DoneIff(w, rooms, tcps);
    SumAtLeast(rooms);
  }

  lemma {:induction false} SumAtLeast(rooms: seq<nat>)
    requires forall i :: 0 <= i < |rooms| ==> rooms[i] > 0
    ensures Sum(rooms) >= |rooms|
  {
    if rooms != [] { SumAtLeast(rooms[1..]); }
  }

  /** In a state of SpinIff the loop runs on through any number of passes that find no more room. */
  lemma {:induction false} SpinRuns(l: Loop, dontblock: bool, cap: nat, tcp: seq<Tcp>)
    requires Spins(l, dontblock, cap) && forall t :: t in tcp ==> t == Tcp(l.room, TcpOk)
    ensures LoopSpec(l.w, dontblock, tcp) == Turn(l.w, OK, true)
    decreases |tcp|
  {
    if tcp != [] {
      assert tcp[0] in tcp && forall t :: t in tcp[1..] ==> t in tcp;
      SpinRuns(l, dontblock, cap, tcp[1..]);
    }
  }

  function Least(a: int, b: int, c: int): int {
    if a <= b && a <= c then a else if b <= c then b else c
  }

  /**
   * One turn of the loop: the bytes tcp_write takes, its result, and whether to go on. An accepted pass takes as
   * much as is left of the vector, fits 16 bits and has room.
   */
  method WritePass(w0: W, dontblock: bool, t: Tcp) returns (w: W, part: seq<byte>, err: Err, writeMore: bool)
    requires WInv(w0) && w0.cnt > 0
    ensures Turn(w, err, writeMore) == PassSpec(w0, dontblock, t)
    ensures WInv(w) && w.len == w0.len && (err != OK ==> w == w0)
    ensures var left := |w0.vectors[w0.vi]| - w0.off;
            var take := Least(left, 0xFFFF, t.sndbuf);
            if dontblock && left > 0 && t.sndbuf == 0 then
              w == w0 && !writeMore && err == if w0.offset == 0 then WOULDBLOCK else OK
            else
              && (err == OK <==> t.err == TcpOk || (t.err == TcpMem && take == 0))
              && (err == MEM <==> t.err == TcpMem && take > 0) && (err == OTHER <==> t.err == TcpFail)
              && (err == OK ==> w.offset == w0.offset + take)
              && (writeMore <==> (take == 0xFFFF && left > 0xFFFF) || (take == left % 0x1_0000 && w0.cnt > 1))
    ensures w.vectors == w0.vectors && w0.offset <= w.offset <= |Flatten(w.vectors)|
    ensures part == Flatten(w.vectors)[w0.offset..w.offset]
  {
    hide Flatten, WInv, Short;
    Bounds(w0);
    w, part, err, writeMore := w0, [], OK, false;
    var data := w.vectors[w.vi];
    var diff := |data| - w.off;
    var len := if diff > MAX_U16 then MAX_U16 else diff;
    if t.sndbuf < len {
      len := t.sndbuf;
      if dontblock && len == 0 {
        err := if w.offset == 0 then WOULDBLOCK else OK;
        return;
      }
    }
    AdvanceInv(w, len);
    writeMore := More(w, len);
    match Answer(t, len) {
      case TcpOk =>
        part := data[w.off..w.off + len];
        w := Advance(w, len);
      case TcpMem =>
        err := MEM;
      case TcpFail =>
        err := OTHER;
    }
  }

  /** The do-while loop, up to a pass that does not call for another or is refused, or to the last answer. */
  method WriteLoop(w0: W, dontblock: bool, tcp: seq<Tcp>) returns (w: W, out: seq<byte>, err: Err, looping: bool)
    requires WInv(w0) && w0.cnt > 0
    ensures Turn(w, err, looping) == LoopSpec(w0, dontblock, tcp)
    ensures w.vectors == w0.vectors && w0.offset <= w.offset <= |Flatten(w.vectors)|
    ensures out == Flatten(w.vectors)[w0.offset..w.offset]
  {
    hide Flatten, WInv, PassSpec, Leaves, Chunk;
    Bounds(w0);
    w, out, err := w0, [], OK;
    var n, writeMore := 0, true;
    ghost var goal := LoopSpec(w, dontblock, tcp);
    assert tcp[0..] == tcp;
    while writeMore && err == OK && n < |tcp|
      invariant n <= |tcp| && w.vectors == w0.vectors && w0.offset <= w.offset <= |Flatten(w.vectors)|
      invariant out == Flatten(w.vectors)[w0.offset..w.offset]
      invariant if writeMore && err == OK then WInv(w) && w.cnt > 0 && LoopSpec(w, dontblock, tcp[n..]) == goal
                else goal == Turn(w, err, false)
    {
      var part;
      ghost var from := w.offset;
      PassOk(w, dontblock, tcp[n]);
      assert tcp[n..][1..] == tcp[n + 1..];
      w, part, err, writeMore := WritePass(w, dontblock, tcp[n]);
      Joined(Flatten(w.vectors), w0.offset, from, w.offset);
      out := out + part;
      n := n + 1;
    }
    looping := writeMore && err == OK;
  }

  lemma Joined(all: seq<byte>, i: nat, j: nat, k: nat)
    requires i <= j <= k <= |all|
    ensures all[i..j] + all[j..k] == all[i..k]
  {}

  /** There is a reason for this result. */
  ghost predicate Justified(err: Err, dontblock: bool, tcp: seq<Tcp>, noRoute: bool) {
    match err
    case OK => !noRoute
    case WOULDBLOCK => dontblock
    case RTE => noRoute
    case OTHER => exists t :: t in tcp && t.err == TcpFail
    case _ => false
  }

  /** What remains of the case of SpinIff, or of too few answers, for a loop that still runs. */
  ghost predicate MayLoop(vectors: seq<seq<byte>>, dontblock: bool, tcp: seq<Tcp>) {
    (!dontblock && !Short(vectors)) || |tcp| < |Flatten(vectors)| + |vectors|
  }

  lemma LoopingMay(w: W, dontblock: bool, tcp: seq<Tcp>)
    requires WInv(w) && w.cnt > 0 && LoopSpec(w, dontblock, tcp).more
    ensures MayLoop(w.vectors, dontblock, tcp)
  {
    if dontblock || Short(w.vectors) {
      if |tcp| >= w.len - w.offset + w.cnt { LoopEnds(w, dontblock, tcp); }
    }
  }

  /** What is made of a loop that has ended: whether the write is over, and the result. */
  function EndOf(z: Turn, dontblock: bool, noRoute: bool): (bool, Err) {
    match z.err
    case OK => if noRoute then (true, RTE) else (z.w.offset == z.w.len || dontblock, OK)
    case MEM =>
      if noRoute then (true, RTE)
      else if dontblock then (true, if z.w.offset == 0 then WOULDBLOCK else OK)
      else (false, MEM)
    case _ => (true, z.err)
  }

  /**
   * One run of lwip_netconn_do_writemore; `out` is what it passes to tcp_write, `noRoute` what tcp_output finds.
   * A blocking write that is not done can be resumed, and it succeeds only when all is written;
   * a non-blocking one is always done, and it fails with ERR_WOULDBLOCK only if nothing was ever written.
   * With room all the way a write is done, with success.
   */
  method Writemore(w0: W, dontblock: bool, tcp: seq<Tcp>, noRoute: bool)
      returns (w: W, out: seq<byte>, done: bool, err: Err, looping: bool)
    requires Entry(w0)
    ensures WInv(w) && w.vectors == w0.vectors && w0.offset <= w.offset <= w.len == w0.len
    ensures var z := LoopSpec(w0, dontblock, tcp);
            w == z.w && looping == z.more && (!looping ==> (done, err) == EndOf(z, dontblock, noRoute))
    ensures out == Flatten(w.vectors)[w0.offset..w.offset]
    ensures looping ==> !done && w.cnt > 0 && MayLoop(w.vectors, dontblock, tcp)
    ensures !looping && !done ==> Entry(w) && !dontblock && !noRoute
    ensures done && err == OK ==> if dontblock then w.offset > 0 else w.offset == w.len
    ensures err == WOULDBLOCK ==> dontblock && w.offset == 0
    ensures done ==> Justified(err, dontblock, tcp, noRoute)
    ensures noRoute && !looping ==> done
    ensures Roomy(w0, tcp) && |tcp| >= w0.len - w0.offset + w0.cnt && !noRoute ==>
            done && err == OK && w.offset == w.len
  {
    hide Flatten, More, WInv, LoopSpec, Roomy, MayLoop;
    w, out, err, looping := WriteLoop(w0, dontblock, tcp);
    LoopIsOk(w0, dontblock, tcp);
    if Roomy(w0, tcp) && |tcp| >= w0.len - w0.offset + w0.cnt { AllGoes(w0, dontblock, tcp); }
    done := false;
    if looping {
      LoopingMay(w0, dontblock, tcp);
      return;
    }
    if err == OK {
      if w.offset == w.len || dontblock {
        done := true;
      }
      if noRoute {
        err, done := RTE, true;
      }
    } else if err == MEM {
      if noRoute {
        err, done := RTE, true;
      } else if dontblock {
        err := if w.offset == 0 then WOULDBLOCK else OK;
        done := true;
      }
    } else {
      done := true;
    }
    if w.cnt == 0 { AllWritten(w); }
  }
}
