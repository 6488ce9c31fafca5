/** sys_writev and sys_readv of posix_shim.c over BMFS descriptors. */
module VectoredIo {
  import opened Octets
  import opened BmfsSpec
  import opened BmfsDisk
  import opened BmfsApi
  import opened BmfsLaws

  ghost function Sum(lens: seq<nat>): nat {
    if lens == [] then 0 else lens[0] + Sum(lens[1..])
  }

  // The loops on the map of files

  lemma WriteKeepsValid(a: Fs, fd: int, data: seq<byte>)
    requires Valid(a) && IsOpen(a, fd)
    ensures var (b, n) := WriteSpec(a, fd, data);
            Valid(b) && IsOpen(b, fd) && n <= |data| && (n > 0 || n == -ENOSPC)
  {}

  ghost function WritevSpec(a: Fs, fd: int, iov: seq<seq<byte>>, total: nat): (Fs, int)
    requires Valid(a) && IsOpen(a, fd)
    decreases |iov|
  {
    if iov == [] then (a, total)
    else
      WriteKeepsValid(a, fd, iov[0]);
      var (b, n) := WriteSpec(a, fd, iov[0]);
      if n < 0 then (b, if total != 0 then total else n)
      else if n < |iov[0]| then (b, total + n)
      else WritevSpec(b, fd, iov[1..], total + n)
  }

  lemma ReadKeepsValid(a: Fs, fd: int, len: nat)
    requires Valid(a) && IsOpen(a, fd)
    ensures var (b, data) := ReadSpec(a, fd, len); Valid(b) && IsOpen(b, fd) && |data| <= len
  {}

  ghost function ReadvSpec(a: Fs, fd: int, lens: seq<nat>): (Fs, seq<byte>)
    requires Valid(a) && IsOpen(a, fd)
    decreases |lens|
  {
    if lens == [] then (a, [])
    else
      ReadKeepsValid(a, fd, lens[0]);
      var (b, data) := ReadSpec(a, fd, lens[0]);
      if |data| < lens[0] then (b, data)
      else
        var (c, rest) := ReadvSpec(b, fd, lens[1..]);
        (c, data + rest)
  }

  lemma WritevStep(a: Fs, fd: int, iov: seq<seq<byte>>, i: nat, total: nat, b: Fs, n: int)
    requires Valid(a) && IsOpen(a, fd) && i < |iov| && (b, n) == WriteSpec(a, fd, iov[i])
    ensures Valid(b) && IsOpen(b, fd) && n <= |iov[i]|
    ensures n < 0 ==> WritevSpec(a, fd, iov[i..], total) == (b, if total != 0 then total else n)
    ensures 0 <= n < |iov[i]| ==> WritevSpec(a, fd, iov[i..], total) == (b, total + n)
    ensures n == |iov[i]| ==> WritevSpec(a, fd, iov[i..], total) == WritevSpec(b, fd, iov[i + 1..], total + n)
  {
    hide WriteSpec;
    WriteKeepsValid(a, fd, iov[i]);
    assert iov[i..][1..] == iov[i + 1..];
  }

  lemma WritevEnd(a: Fs, fd: int, iov: seq<seq<byte>>, total: nat)
    requires Valid(a) && IsOpen(a, fd) && iov == []
    ensures WritevSpec(a, fd, iov, total) == (a, total)
  {}

  /** sys_writev: a short or failed write ends it; an error is reported only if nothing was written. */
  method Writev(fs: Bmfs, fd: int, iov: seq<seq<byte>>) returns (total: int)
    requires fs.Valid() && fs.IsFd(fd)
    modifies fs`disk, fs`scratch, fs`files, fs`fs
    ensures fs.Valid() && Valid(old(fs.fs)) && IsOpen(old(fs.fs), fd)
    ensures (fs.fs, total) == WritevSpec(old(fs.fs), fd, iov, 0)
  {
    hide *;
    fs.FdIsOpen(fd);
    total := 0;
    var i := 0;
    assert iov[0..] == iov;
    ghost var goal := WritevSpec(fs.fs, fd, iov, 0);
    while i < |iov|
      invariant 0 <= i <= |iov| && fs.Valid() && fs.IsFd(fd) && total >= 0
      invariant Valid(fs.fs) && IsOpen(fs.fs, fd)
      invariant WritevSpec(fs.fs, fd, iov[i..], total) == goal
    {
      ghost var before := fs.fs;
      var n := fs.Write(fd, iov[i]);
      WritevStep(before, fd, iov, i, total, fs.fs, n);
      fs.FdIsOpen(fd);
      if n < 0 {
        return if total != 0 then total else n;
      }
      total := total + n;
      if n < |iov[i]| { return; }
      i := i + 1;
    }
    WritevEnd(fs.fs, fd, iov[i..], total);
  }

  lemma ReadvStep(a: Fs, fd: int, lens: seq<nat>, i: nat)
    requires Valid(a) && IsOpen(a, fd) && i < |lens|
    ensures var (b, data) := ReadSpec(a, fd, lens[i]);
            && Valid(b) && IsOpen(b, fd)
            && (|data| < lens[i] ==> ReadvSpec(a, fd, lens[i..]) == (b, data))
            && (|data| >= lens[i] ==>
                  var (c, rest) := ReadvSpec(b, fd, lens[i + 1..]);
                  ReadvSpec(a, fd, lens[i..]) == (c, data + rest))
  {
    hide ReadSpec;
    ReadKeepsValid(a, fd, lens[i]);
    assert lens[i..][1..] == lens[i + 1..];
  }

  lemma ReadvEnd(a: Fs, fd: int, lens: seq<nat>)
    requires Valid(a) && IsOpen(a, fd) && lens == []
    ensures ReadvSpec(a, fd, lens) == (a, [])
  {}

  /** sys_readv; `data` is what the buffers receive, one after the other. */
  method Readv(fs: Bmfs, fd: int, lens: seq<nat>) returns (total: int, data: seq<byte>)
    requires fs.Valid() && fs.IsFd(fd)
    modifies fs`scratch, fs`files, fs`fs
    ensures fs.Valid() && Valid(old(fs.fs)) && IsOpen(old(fs.fs), fd)
    ensures (fs.fs, data) == ReadvSpec(old(fs.fs), fd, lens) && total == |data|
  {
    hide Bmfs.Valid, ReadSpec, BmfsSpec.Valid, ReadvSpec;
    fs.FdIsOpen(fd);
    total, data := 0, [];
    var i := 0;
    assert lens[0..] == lens;
    ghost var goal := ReadvSpec(fs.fs, fd, lens);
    assert [] + goal.1 == goal.1;
    while i < |lens|
      invariant 0 <= i <= |lens| && fs.Valid() && fs.IsFd(fd) && total == |data|
      invariant Valid(fs.fs) && IsOpen(fs.fs, fd)
      invariant goal == (ReadvSpec(fs.fs, fd, lens[i..]).0, data + ReadvSpec(fs.fs, fd, lens[i..]).1)
    {
      ReadvStep(fs.fs, fd, lens, i);
      var part := fs.Read(fd, lens[i]);
      fs.FdIsOpen(fd);
      total := total + |part|;
      if |part| < lens[i] {
        data := data + part;
        return;
      }
      assert data + (part + ReadvSpec(fs.fs, fd, lens[i + 1..]).1)
             == data + part + ReadvSpec(fs.fs, fd, lens[i + 1..]).1;
      data := data + part;
      i := i + 1;
    }
    ReadvEnd(fs.fs, fd, lens[i..]);
    assert data + [] == data;
  }

  // Reading

  lemma SplitRead(a: Fs, fd: int, m: nat, n: nat)
    requires Valid(a) && IsOpen(a, fd)
    ensures var (b, data) := ReadSpec(a, fd, m);
            && Valid(b) && IsOpen(b, fd)
            && (|data| < m ==> ReadSpec(a, fd, m + n) == (b, data))
            && (|data| == m ==> ReadSpec(a, fd, m + n) == (ReadSpec(b, fd, n).0, data + ReadSpec(b, fd, n).1))
  {
    ReadKeepsValid(a, fd, m);
    var (b, data) := ReadSpec(a, fd, m);
    var d := a.fds[fd - FD_BASE];
    var f := a.files[d.name];
    SetPosSame(a, fd, d.pos + |data|);
    if |data| == m {
      assert ReadData(f, d.pos, m + n) == data + ReadData(f, d.pos + m, n);
    }
  }

  /** sys_readv is one read of the total length, whatever the buffers. */
  lemma {:induction false} ReadvIsRead(a: Fs, fd: int, lens: seq<nat>)
    requires Valid(a) && IsOpen(a, fd)
    ensures ReadvSpec(a, fd, lens) == ReadSpec(a, fd, Sum(lens))
    decreases |lens|
  {
    if lens == [] {
      SetPosSame(a, fd, a.fds[fd - FD_BASE].pos);
    } else {
      SplitRead(a, fd, lens[0], Sum(lens[1..]));
      ReadKeepsValid(a, fd, lens[0]);
      ReadvIsRead(ReadSpec(a, fd, lens[0]).0, fd, lens[1..]);
    }
  }

  // Writing

  /** How much the next write can take. */
  ghost function Room(a: Fs, fd: int): nat
    requires Valid(a) && IsOpen(a, fd)
  {
    var cap := |a.files[a.fds[fd - FD_BASE].name].bytes|;
    if WriteAt(a, fd) >= cap then 0 else cap - WriteAt(a, fd)
  }

  /** No buffer that is reached while there is room and data left is empty. */
  ghost predicate Smooth(room: nat, iov: seq<seq<byte>>) {
    if iov == [] then true
    else if iov[0] == [] then room == 0 || Flatten(iov) == []
    else |iov[0]| >= room || Smooth(room - |iov[0]|, iov[1..])
  }

  /** The outcome of a write of `data` that follows a write of `total` bytes. */
  ghost function Continue(a: Fs, fd: int, data: seq<byte>, total: nat): (Fs, int)
    requires Valid(a) && IsOpen(a, fd)
  {
    var (b, n) := WriteSpec(a, fd, data);
    (b, if n < 0 then total else total + n)
  }

  ghost predicate Settled(a: Fs, fd: int)
    requires Valid(a) && IsOpen(a, fd)
  {
    a.fds[fd - FD_BASE].pos == WriteAt(a, fd)
  }

  lemma WriteFileTwice(f: File, off: nat, x: seq<byte>, y: seq<byte>)
    requires off + |x| <= |f.bytes| && f.size <= |f.bytes|
    ensures var g := WriteFile(f, off, x);
            var n := Accepted(g, off + |x|, |y|);
            && Accepted(f, off, |x + y|) >= |x| && (x != [] ==> Accepted(f, off, |x + y|) == |x| + n)
            && n <= |y| && off + |x| + n <= |f.bytes|
            && (n > 0 ==> WriteFile(g, off + |x|, y[..n]) == WriteFile(f, off, (x + y)[..|x| + n]))
  {
    var g := WriteFile(f, off, x);
    var n := Accepted(g, off + |x|, |y|);
    if n > 0 {
      assert (x + y)[..|x| + n] == x + y[..n];
      assert Splice(Splice(f.bytes, off, x), off + |x|, y[..n]) == Splice(f.bytes, off, x + y[..n]);
    }
  }

  lemma FirstWrite(a: Fs, fd: int, x: seq<byte>)
    requires Valid(a) && IsOpen(a, fd) && 0 < |x| <= Room(a, fd)
    ensures var (b, n) := WriteSpec(a, fd, x);
            var name := a.fds[fd - FD_BASE].name;
            && n == |x| && Valid(b) && IsOpen(b, fd) && Settled(b, fd)
            && Room(b, fd) == Room(a, fd) - |x|
            && WriteAt(b, fd) == WriteAt(a, fd) + |x|
            && b.fds == SetPos(a, fd, WriteAt(b, fd)).fds
            && b.files == a.files[name := WriteFile(a.files[name], WriteAt(a, fd), x)]
  {
    assert x[..|x|] == x;
  }

  lemma SplitWrite(a: Fs, fd: int, x: seq<byte>, y: seq<byte>)
    requires Valid(a) && IsOpen(a, fd) && 0 < |x| <= Room(a, fd)
    ensures var (b, n) := WriteSpec(a, fd, x);
            && n == |x| && Valid(b) && IsOpen(b, fd) && Settled(b, fd)
            && Room(b, fd) == Room(a, fd) - |x|
            && WriteSpec(a, fd, x + y) == Continue(b, fd, y, |x|)
  {
    hide WriteFile, Accepted, Settled, Room;
    FirstWrite(a, fd, x);
    var d, off := a.fds[fd - FD_BASE], WriteAt(a, fd);
    var b := WriteSpec(a, fd, x).0;
    assert off + |x| <= |a.files[d.name].bytes| by { Fits(a, fd, x); }
    WriteFileTwice(a.files[d.name], off, x, y);
    SetPosSame(a, fd, off + |x|);
    SetPosSame(b, fd, off + |x|);
    if Accepted(b.files[d.name], off + |x|, |y|) == 0 {
      assert (x + y)[..|x|] == x;
    } else {
      var h := WriteFile(b.files[d.name], off + |x|, y[..Accepted(b.files[d.name], off + |x|, |y|)]);
      assert b.files[d.name := h] == a.files[d.name := h];
    }
  }

  lemma Fits(a: Fs, fd: int, x: seq<byte>)
    requires Valid(a) && IsOpen(a, fd) && 0 < |x| <= Room(a, fd)
    ensures WriteAt(a, fd) + |x| <= |a.files[a.fds[fd - FD_BASE].name].bytes|
  {}

  lemma Stops(a: Fs, fd: int, iov: seq<seq<byte>>, total: nat)
    requires Valid(a) && IsOpen(a, fd) && Settled(a, fd) && total > 0
    requires iov == [] || iov[0] == [] || Room(a, fd) == 0
    ensures WritevSpec(a, fd, iov, total) == Continue(a, fd, Flatten(iov), total) <==> Smooth(Room(a, fd), iov)
  {
    SetPosSame(a, fd, WriteAt(a, fd));
    hide WriteFile;
  }

  lemma Overflows(a: Fs, fd: int, iov: seq<seq<byte>>, total: nat)
    requires Valid(a) && IsOpen(a, fd) && iov != [] && 0 < Room(a, fd) < |iov[0]|
    ensures WritevSpec(a, fd, iov, total) == Continue(a, fd, Flatten(iov), total)
  {
    hide WriteFile;
    assert Flatten(iov)[..Room(a, fd)] == iov[0][..Room(a, fd)];
  }

  lemma {:induction false} ContinueIsContinue(a: Fs, fd: int, iov: seq<seq<byte>>, total: nat)
    requires Valid(a) && IsOpen(a, fd) && Settled(a, fd) && total > 0
    ensures WritevSpec(a, fd, iov, total) == Continue(a, fd, Flatten(iov), total) <==> Smooth(Room(a, fd), iov)
    decreases |iov|
  {
    if iov == [] || iov[0] == [] || Room(a, fd) == 0 {
      Stops(a, fd, iov, total);
    } else if |iov[0]| <= Room(a, fd) {
      hide WriteSpec, Room, Settled, BmfsSpec.Valid;
      SplitWrite(a, fd, iov[0], Flatten(iov[1..]));
      ContinueIsContinue(WriteSpec(a, fd, iov[0]).0, fd, iov[1..], total + |iov[0]|);
    } else {
      Overflows(a, fd, iov, total);
    }
  }

  /** sys_writev is one write of the gathered data exactly when it has a buffer and no empty one cuts it short. */
  lemma WritevIsWrite(a: Fs, fd: int, iov: seq<seq<byte>>)
    requires Valid(a) && IsOpen(a, fd)
    ensures WritevSpec(a, fd, iov, 0) == WriteSpec(a, fd, Flatten(iov)) <==> iov != [] && Smooth(Room(a, fd), iov)
  {
    if iov != [] && iov[0] != [] && Room(a, fd) != 0 {
      if |iov[0]| <= Room(a, fd) {
        SplitWrite(a, fd, iov[0], Flatten(iov[1..]));
        ContinueIsContinue(WriteSpec(a, fd, iov[0]).0, fd, iov[1..], |iov[0]|);
      } else {
        Overflows(a, fd, iov, 0);
      }
    }
  }

  /** In particular when no buffer is empty. */
  lemma {:induction false} NonEmptyIsSmooth(room: nat, iov: seq<seq<byte>>)
    requires forall i :: 0 <= i < |iov| ==> iov[i] != []
    ensures Smooth(room, iov)
  {
    if iov != [] && |iov[0]| < room { NonEmptyIsSmooth(room - |iov[0]|, iov[1..]); }
  }

  /** An empty buffer in front stops sys_writev with an error although the byte behind it would fit. */
  lemma EmptyBufferStops()
    ensures var a := Fs(map[[65] := File([0], 0)],
            [Fd.Open([65], 0, false), Closed, Closed, Closed, Closed, Closed, Closed, Closed]);
            && Valid(a) && IsOpen(a, 3)
            && WritevSpec(a, 3, [[], [7]], 0).1 == -ENOSPC && WriteSpec(a, 3, Flatten([[], [7]])).1 == 1
  {
    FlattenOne([7]);
    assert [[], [7]][1..] == [[7]];
  }
}
