/** What BMFS is meant to be: a map from names to files of fixed capacity, and eight descriptors. */
module BmfsSpec {
  import opened Octets
  import opened BmfsDisk
  import opened BmfsFormat

  /** The bytes of the whole extent and how many of them are the file's contents. */
  datatype File = File(bytes: seq<byte>, size: nat)

  datatype Fd = Closed | Open(name: seq<byte>, pos: nat, append: bool)

  datatype Fs = Fs(files: map<seq<byte>, File>, fds: seq<Fd>)

  datatype Flags = Flags(creat: bool, excl: bool, trunc: bool, append: bool)

  const FD_BASE := 3
  const MAX_OPEN := 8
  const SLASH: byte := 47

  const ENOENT := 2
  const EEXIST := 17
  const EINVAL := 22
  const EMFILE := 24
  const ENOSPC := 28

  predicate Valid(a: Fs) {
    && |a.fds| == MAX_OPEN
    && (forall n :: n in a.files ==> a.files[n].size <= |a.files[n].bytes|)
    && (forall k :: 0 <= k < MAX_OPEN && a.fds[k].Open? ==> a.fds[k].name in a.files)
  }

  predicate IsOpen(a: Fs, fd: int) {
    FD_BASE <= fd < FD_BASE + MAX_OPEN && fd - FD_BASE < |a.fds| && a.fds[fd - FD_BASE].Open?
  }

  /** No descriptor is open on the file. */
  predicate Idle(a: Fs, name: seq<byte>) {
    forall k :: 0 <= k < |a.fds| && a.fds[k].Open? ==> a.fds[k].name != name
  }

  function StripSlash(path: seq<byte>): seq<byte> {
    if path != [] && path[0] == SLASH then path[1..] else path
  }

  predicate GoodName(name: seq<byte>) {
    0 < |name| < NAME_BYTES && SLASH !in name
  }

  /** Names are compared up to 32 bytes. */
  function Key(name: seq<byte>): seq<byte> {
    if |name| > NAME_BYTES then name[..NAME_BYTES] else name
  }

  function FirstClosed(fds: seq<Fd>): (k: nat)
    ensures k <= |fds|
    ensures k < |fds| ==> fds[k].Closed?
    ensures forall i :: 0 <= i < k ==> fds[i].Open?
  {
    if fds == [] || fds[0].Closed? then 0 else 1 + FirstClosed(fds[1..])
  }

  /** `stale` is what the disk holds where a new file is put. */
  function OpenSpec(a: Fs, path: seq<byte>, flags: Flags, stale: seq<byte>): (Fs, int)
    requires |a.fds| == MAX_OPEN
  {
    var name := StripSlash(path);
    var slot := FirstClosed(a.fds);
    if !GoodName(name) then (a, -ENOENT)
    else if slot == MAX_OPEN then (a, -EMFILE)
    else if name !in a.files && !flags.creat then (a, -ENOENT)
    else if name !in a.files && |a.files| >= ENTRIES then (a, -ENOSPC)
    else if name in a.files && flags.creat && flags.excl then (a, -EEXIST)
    else
      var file := if name in a.files then a.files[name] else File(stale, 0);
      var file := if flags.trunc then file.(size := 0) else file;
      var fd := Open(name, if flags.append then file.size else 0, flags.append);
      (Fs(a.files[name := file], a.fds[slot := fd]), FD_BASE + slot)
  }

  function ReadData(f: File, off: nat, len: nat): seq<byte>
    requires f.size <= |f.bytes|
  {
    if off >= f.size then [] else f.bytes[off..if off + len > f.size then f.size else off + len]
  }

  function SetPos(a: Fs, fd: int, pos: nat): Fs
    requires IsOpen(a, fd)
  {
    a.(fds := a.fds[fd - FD_BASE := a.fds[fd - FD_BASE].(pos := pos)])
  }

  lemma SetPosSame(a: Fs, fd: int, pos: nat)
    requires IsOpen(a, fd)
    ensures SetPos(a, fd, a.fds[fd - FD_BASE].pos) == a
    ensures IsOpen(SetPos(a, fd, pos), fd) && forall q: nat :: SetPos(SetPos(a, fd, pos), fd, q) == SetPos(a, fd, q)
  {
    var k := fd - FD_BASE;
    assert a.fds[k := a.fds[k].(pos := a.fds[k].pos)] == a.fds;
    forall q: nat ensures SetPos(SetPos(a, fd, pos), fd, q) == SetPos(a, fd, q) {
      assert a.fds[k := a.fds[k].(pos := pos)][k := a.fds[k].(pos := q)] == a.fds[k := a.fds[k].(pos := q)];
    }
  }

  function ReadSpec(a: Fs, fd: int, len: nat): (Fs, seq<byte>)
    requires Valid(a) && IsOpen(a, fd)
  {
    var d := a.fds[fd - FD_BASE];
    var data := ReadData(a.files[d.name], d.pos, len);
    (SetPos(a, fd, d.pos + |data|), data)
  }

  /** How many bytes a write of `len` at `off` takes. */
  function Accepted(f: File, off: nat, len: nat): nat {
    if off >= |f.bytes| then 0 else if off + len > |f.bytes| then |f.bytes| - off else len
  }

  function WriteFile(f: File, off: nat, data: seq<byte>): (r: File)
    requires off + |data| <= |f.bytes| && f.size <= |f.bytes|
    ensures |r.bytes| == |f.bytes| && r.size <= |r.bytes|
  {
    File(Splice(f.bytes, off, data), if off + |data| > f.size then off + |data| else f.size)
  }

  /** A write that takes no byte, be it for want of room or of data, fails. */
  function WriteSpec(a: Fs, fd: int, data: seq<byte>): (Fs, int)
    requires Valid(a) && IsOpen(a, fd)
  {
    var d := a.fds[fd - FD_BASE];
    var f := a.files[d.name];
    var off := if d.append then f.size else d.pos;
    var n := Accepted(f, off, |data|);
    if n == 0 then (SetPos(a, fd, off), -ENOSPC)
    else (SetPos(a, fd, off + n).(files := a.files[d.name := WriteFile(f, off, data[..n])]), n)
  }

  const MAX_LONG := 0x7FFF_FFFF_FFFF_FFFF

  /** A result cut to a signed word of 64 bits. */
  function Long(x: int): (r: int)
    ensures -MAX_LONG - 1 <= r <= MAX_LONG && (-MAX_LONG - 1 <= x <= MAX_LONG ==> r == x)
  {
    var m := x % 0x1_0000_0000_0000_0000;
    if m <= MAX_LONG then m else m - 0x1_0000_0000_0000_0000
  }

  function LseekSpec(a: Fs, fd: int, offset: int, whence: int): (Fs, int)
    requires Valid(a) && IsOpen(a, fd)
  {
    var d := a.fds[fd - FD_BASE];
    if whence != 0 && whence != 1 && whence != 2 then (a, -EINVAL)
    else
      var np := Long(offset + if whence == 0 then 0 else if whence == 1 then d.pos else a.files[d.name].size);
      if np < 0 then (a, -EINVAL) else (SetPos(a, fd, np), np)
  }

  function CloseSpec(a: Fs, fd: int): (Fs, int)
    requires IsOpen(a, fd)
  {
    (a.(fds := a.fds[fd - FD_BASE := Closed]), 0)
  }

  function UnlinkSpec(a: Fs, path: seq<byte>): (Fs, int) {
    var key := Key(StripSlash(path));
    if key !in a.files then (a, -ENOENT) else (a.(files := a.files - {key}), 0)
  }
}
