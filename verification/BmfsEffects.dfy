/** What each call does to the map of files, in terms of the state before and after it alone. */
module BmfsEffects {
  import opened Octets
  import opened BmfsDisk
  import opened BmfsFormat
  import opened BmfsSpec

  /** Only this file differs, if any. */
  ghost predicate OtherFilesSame(a: Fs, b: Fs, name: seq<byte>) {
    forall n :: n != name ==> (n in b.files <==> n in a.files) && (n in a.files ==> b.files[n] == a.files[n])
  }

  /** Only this descriptor differs, if any. */
  ghost predicate OtherFdsSame(a: Fs, b: Fs, k: int) {
    |b.fds| == |a.fds| && forall j :: 0 <= j < |a.fds| && j != k ==> b.fds[j] == a.fds[j]
  }

  /** The error that open reports, 0 if none. */
  ghost function OpenError(a: Fs, name: seq<byte>, flags: Flags): int {
    if |name| == 0 || |name| >= 32 || SLASH in name then -ENOENT
    else if forall k :: 0 <= k < |a.fds| ==> a.fds[k].Open? then -EMFILE
    else if name in a.files then if flags.creat && flags.excl then -EEXIST else 0
    else if !flags.creat then -ENOENT
    else if |a.files| >= 64 then -ENOSPC
    else 0
  }

  /** A file is truncated exactly if that is asked for, a new one is empty, and only append mode starts at the end. */
  ghost predicate OpenEffect(a: Fs, path: seq<byte>, flags: Flags, b: Fs, r: int) {
    var name := if path != [] && path[0] == SLASH then path[1..] else path;
    var err := OpenError(a, name, flags);
    if err < 0 then r == err && b == a
    else
      var k := r - FD_BASE;
      && 0 <= k < |a.fds| && a.fds[k].Closed? && (forall j :: 0 <= j < k ==> a.fds[j].Open?)
      && OtherFilesSame(a, b, name) && OtherFdsSame(a, b, k) && name in b.files
      && b.fds[k] == Open(name, if flags.append then b.files[name].size else 0, flags.append)
      && (flags.trunc || name !in a.files ==> b.files[name].size == 0)
      && (name !in a.files ==> |b.files[name].bytes| == 0x20_0000)
      && (name in a.files ==> b.files[name].bytes == a.files[name].bytes)
      && (name in a.files && !flags.trunc ==> b.files[name].size == a.files[name].size)
  }

  /** Nothing changes but the position, by the number of bytes returned. */
  ghost predicate ReadEffect(a: Fs, fd: int, len: nat, b: Fs, data: seq<byte>) {
    && IsOpen(a, fd) && IsOpen(b, fd) && b.files == a.files && OtherFdsSame(a, b, fd - FD_BASE)
    && var d := a.fds[fd - FD_BASE];
    && d.name in a.files
    && var f := a.files[d.name];
    && b.fds[fd - FD_BASE] == Open(d.name, d.pos + |data|, d.append)
    && (d.pos >= f.size ==> data == [])
    && (d.pos < f.size ==> |data| == if len < f.size - d.pos then len else f.size - d.pos)
    && forall i :: 0 <= i < |data| ==> d.pos + i < |f.bytes| && data[i] == f.bytes[d.pos + i]
  }

  /** A write takes what fits from its position, in append mode from the end, changes those bytes only, and moves
      the position behind them. */
  ghost predicate WriteEffect(a: Fs, fd: int, data: seq<byte>, b: Fs, n: int) {
    && IsOpen(a, fd) && IsOpen(b, fd) && OtherFdsSame(a, b, fd - FD_BASE)
    && var d := a.fds[fd - FD_BASE];
    && d.name in a.files && d.name in b.files && OtherFilesSame(a, b, d.name)
    && var f, g := a.files[d.name], b.files[d.name];
    && var at := if d.append then f.size else d.pos;
    if data == [] || at >= |f.bytes| then
      n == -ENOSPC && g == f && b.fds[fd - FD_BASE] == Open(d.name, at, d.append)
    else
      && n == (if |data| < |f.bytes| - at then |data| else |f.bytes| - at)
      && b.fds[fd - FD_BASE] == Open(d.name, at + n, d.append)
      && g.size == (if at + n > f.size then at + n else f.size) && |g.bytes| == |f.bytes|
      && forall i :: 0 <= i < |f.bytes| ==> g.bytes[i] == if at <= i < at + n then data[i - at] else f.bytes[i]
  }

  /** The position counts from the start, from where it was, or from the end; a result that is negative, or too large
      for a long, is refused. */
  ghost predicate SeekEffect(a: Fs, fd: int, offset: int, whence: int, b: Fs, r: int) {
    && IsOpen(a, fd) && IsOpen(b, fd) && b.files == a.files && OtherFdsSame(a, b, fd - FD_BASE)
    && var d := a.fds[fd - FD_BASE];
    && d.name in a.files
    && (whence < 0 || whence > 2 ==> r == -EINVAL && b == a)
    && (0 <= whence <= 2 ==>
          var target := if whence == 0 then offset else if whence == 1 then d.pos + offset
            else a.files[d.name].size + offset;
          && (0 <= target < 0x8000_0000_0000_0000 ==>
                r == target && b.fds[fd - FD_BASE] == Open(d.name, target, d.append))
          && (-0x8000_0000_0000_0000 <= target < 0 ==> r == -EINVAL && b == a)
          && (0x8000_0000_0000_0000 <= target < 0x1_0000_0000_0000_0000 ==> r == -EINVAL && b == a))
  }

  ghost predicate CloseEffect(a: Fs, fd: int, b: Fs, r: int) {
    && IsOpen(a, fd) && r == 0 && b.files == a.files && OtherFdsSame(a, b, fd - FD_BASE)
    && b.fds[fd - FD_BASE].Closed?
  }

  /** The name, of which 32 bytes count, is gone, or was not there. */
  ghost predicate UnlinkEffect(a: Fs, path: seq<byte>, b: Fs, r: int) {
    var full := if path != [] && path[0] == SLASH then path[1..] else path;
    var name := if |full| > 32 then full[..32] else full;
    && b.fds == a.fds
    && if name in a.files then r == 0 && name !in b.files && OtherFilesSame(a, b, name)
       else r == -ENOENT && b == a
  }

  lemma OpenHasEffect(a: Fs, path: seq<byte>, flags: Flags, stale: seq<byte>)
    requires |a.fds| == MAX_OPEN && |stale| == BLOCK
    ensures var (b, r) := OpenSpec(a, path, flags, stale); OpenEffect(a, path, flags, b, r)
  {}

  lemma ReadHasEffect(a: Fs, fd: int, len: nat)
    requires Valid(a) && IsOpen(a, fd)
    ensures var (b, data) := ReadSpec(a, fd, len); ReadEffect(a, fd, len, b, data)
  {}

  lemma WriteHasEffect(a: Fs, fd: int, data: seq<byte>)
    requires Valid(a) && IsOpen(a, fd)
    ensures var (b, n) := WriteSpec(a, fd, data); WriteEffect(a, fd, data, b, n)
  {}

  lemma SeekHasEffect(a: Fs, fd: int, offset: int, whence: int)
    requires Valid(a) && IsOpen(a, fd)
    ensures var (b, r) := LseekSpec(a, fd, offset, whence); SeekEffect(a, fd, offset, whence, b, r)
  {}

  lemma CloseHasEffect(a: Fs, fd: int)
    requires IsOpen(a, fd)
    ensures var (b, r) := CloseSpec(a, fd); CloseEffect(a, fd, b, r)
  {}

  lemma UnlinkHasEffect(a: Fs, path: seq<byte>)
    ensures var (b, r) := UnlinkSpec(a, path); UnlinkEffect(a, path, b, r)
  {}
}
