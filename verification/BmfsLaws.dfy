/** Laws of the map of files that programs rely on. */
module BmfsLaws {
  import opened Octets
  import opened BmfsDisk
  import opened BmfsFormat
  import opened BmfsSpec

  /** What a write took is what a read of the same range returns. */
  lemma ReadBack(f: File, off: nat, data: seq<byte>)
    requires off + |data| <= |f.bytes| && f.size <= |f.bytes|
    ensures ReadData(WriteFile(f, off, data), off, |data|) == data
  {
    var g := WriteFile(f, off, data);
    if data != [] {
      assert g.bytes[off..off + |data|] == data;
    }
  }

  /** Where the next write goes. */
  function WriteAt(a: Fs, fd: int): nat
    requires Valid(a) && IsOpen(a, fd)
  {
    var d := a.fds[fd - FD_BASE];
    if d.append then a.files[d.name].size else d.pos
  }

  /** Data written to a file is still there after the file has been closed and opened again. */
  lemma SurvivesReopen(a: Fs, fd: int, data: seq<byte>, path: seq<byte>, flags: Flags, stale: seq<byte>)
    requires Valid(a) && IsOpen(a, fd)
    requires GoodName(StripSlash(path)) && a.fds[fd - FD_BASE].name == StripSlash(path)
    requires !flags.trunc && !(flags.creat && flags.excl)
    ensures var off := WriteAt(a, fd);
            var (a1, n) := WriteSpec(a, fd, data);
            n > 0 && off <= MAX_LONG ==>
              && n <= |data| && IsOpen(a1, fd)
              && var (a2, r) := OpenSpec(CloseSpec(a1, fd).0, path, flags, stale);
              && Valid(a2) && IsOpen(a2, r)
              && var (a3, at) := LseekSpec(a2, r, off, 0);
              Valid(a3) && IsOpen(a3, r) && ReadSpec(a3, r, n).1 == data[..n]
  {
    var k := fd - FD_BASE;
    var name, off := a.fds[k].name, WriteAt(a, fd);
    var f := a.files[name];
    var (a1, n) := WriteSpec(a, fd, data);
    if n > 0 && off <= MAX_LONG {
      ReadBack(f, off, data[..n]);
      var b := CloseSpec(a1, fd).0;
      assert b.fds[k].Closed?;
      assert FirstClosed(b.fds) < MAX_OPEN;
      var (a2, r) := OpenSpec(b, path, flags, stale);
      assert a2.files == b.files by { assert b.files[name := b.files[name]] == b.files; }
    }
  }

  function Contents(f: File): seq<byte>
    requires f.size <= |f.bytes|
  {
    f.bytes[..f.size]
  }

  /** Writing at the start of an empty file makes the data its contents. */
  lemma WriteFromEmpty(a: Fs, fd: int, data: seq<byte>)
    requires Valid(a) && IsOpen(a, fd)
    requires var d := a.fds[fd - FD_BASE];
             a.files[d.name].size == 0 && d.pos == 0 && |data| <= |a.files[d.name].bytes|
    ensures var name, b := a.fds[fd - FD_BASE].name, WriteSpec(a, fd, data).0;
            Valid(b) && IsOpen(b, fd) && b.fds[fd - FD_BASE].name == name && Contents(b.files[name]) == data
  {
    var name, b := a.fds[fd - FD_BASE].name, WriteSpec(a, fd, data).0;
    assert data[..|data|] == data;
    assert Contents(b.files[name]) == data;
  }

  /** Opening a file without truncating it and reading it from the start returns its contents. */
  lemma ReadWhole(a: Fs, path: seq<byte>, flags: Flags, stale: seq<byte>, len: nat)
    requires Valid(a) && GoodName(StripSlash(path)) && StripSlash(path) in a.files && FirstClosed(a.fds) < MAX_OPEN
    requires !flags.trunc && !flags.append && !(flags.creat && flags.excl)
    requires len >= a.files[StripSlash(path)].size
    ensures var (b, r) := OpenSpec(a, path, flags, stale);
            Valid(b) && IsOpen(b, r) && ReadSpec(b, r, len).1 == Contents(a.files[StripSlash(path)])
  {
    var name := StripSlash(path);
    assert a.files[name := a.files[name]] == a.files;
  }

  /** A file that is created or truncated, written, closed and opened again holds the data and nothing else. */
  lemma RewriteIsExact(a: Fs, path: seq<byte>, how: Flags, data: seq<byte>, again: Flags, stale: seq<byte>, len: nat)
    requires Valid(a) && |stale| == BLOCK && how.creat && how.trunc && len >= |data|
    requires !again.trunc && !again.append && !(again.creat && again.excl)
    ensures var (b, fd) := OpenSpec(a, path, how, stale);
            fd >= 0 ==>
              && Valid(b) && IsOpen(b, fd)
              && var name := StripSlash(path);
              && name in b.files
              && (|data| <= |b.files[name].bytes| ==>
                    && var c := WriteSpec(b, fd, data).0;
                    && Valid(c) && IsOpen(c, fd)
                    && var (e, r) := OpenSpec(CloseSpec(c, fd).0, path, again, stale);
                    Valid(e) && IsOpen(e, r) && ReadSpec(e, r, len).1 == data)
  {
    var (b, fd) := OpenSpec(a, path, how, stale);
    var name := StripSlash(path);
    if fd >= 0 && |data| <= |b.files[name].bytes| {
      WriteFromEmpty(b, fd, data);
      var c := WriteSpec(b, fd, data).0;
      var d := CloseSpec(c, fd).0;
      assert d.fds[fd - FD_BASE].Closed?;
      assert FirstClosed(d.fds) < MAX_OPEN;
      hide OpenSpec, WriteSpec, ReadSpec;
      ReadWhole(d, path, again, stale, len);
    }
  }

  /** In append mode a write that fits extends the contents, wherever the position is. */
  lemma AppendExtends(a: Fs, fd: int, data: seq<byte>)
    requires Valid(a) && IsOpen(a, fd) && a.fds[fd - FD_BASE].append
    ensures var name := a.fds[fd - FD_BASE].name;
            var (b, n) := WriteSpec(a, fd, data);
            && name in b.files && b.files[name].size <= |b.files[name].bytes|
            && (n >= 0 ==> n <= |data| && Contents(b.files[name]) == Contents(a.files[name]) + data[..n])
            && (n < 0 ==> b.files == a.files)
  {
    var name := a.fds[fd - FD_BASE].name;
    var (b, n) := WriteSpec(a, fd, data);
    if n >= 0 { assert Contents(b.files[name]) == Contents(a.files[name]) + data[..n]; }
  }

  /** A name that was unlinked is not found by the next open, and creating it gives an empty file. */
  lemma UnlinkedIsGone(a: Fs, path: seq<byte>, flags: Flags, stale: seq<byte>)
    requires Valid(a) && |stale| == BLOCK && |StripSlash(path)| <= NAME_BYTES && UnlinkSpec(a, path).1 == 0
    ensures var b := UnlinkSpec(a, path).0;
            var (c, r) := OpenSpec(b, path, flags, stale);
            && (!flags.creat ==> r < 0 && c == b)
            && (!flags.creat && GoodName(StripSlash(path)) && FirstClosed(a.fds) < MAX_OPEN ==> r == -ENOENT)
            && (r >= 0 ==> StripSlash(path) in c.files && c.files[StripSlash(path)].size == 0)
  {}

  /** Seeking there and back: the position returned by a seek of 0 from it is where a later seek returns to. */
  lemma SeekBack(a: Fs, fd: int, offset: int, whence: int)
    requires Valid(a) && IsOpen(a, fd) && a.fds[fd - FD_BASE].pos <= MAX_LONG
    ensures var at := LseekSpec(a, fd, 0, 1).1;
            var (b, r) := LseekSpec(a, fd, offset, whence);
            Valid(b) && IsOpen(b, fd) && at >= 0 && LseekSpec(b, fd, at, 0) == (a, at)
  {
    var k := fd - FD_BASE;
    var b := LseekSpec(a, fd, offset, whence).0;
    assert b.fds[k := b.fds[k].(pos := a.fds[k].pos)] == a.fds;
  }

  /** Seeking 0 from the end gives the size, and a read there returns nothing. */
  lemma SeekEnd(a: Fs, fd: int, len: nat)
    requires Valid(a) && IsOpen(a, fd) && a.files[a.fds[fd - FD_BASE].name].size <= MAX_LONG
    ensures var (b, r) := LseekSpec(a, fd, 0, 2);
            && r == |Contents(a.files[a.fds[fd - FD_BASE].name])| && Valid(b) && IsOpen(b, fd)
            && ReadSpec(b, fd, len).1 == []
  {}
}
