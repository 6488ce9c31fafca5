/** Whole sessions: any run of calls on a disk, and what the disk holds afterwards. */
module BmfsRun {
  import opened Octets
  import opened BmfsDisk
  import opened BmfsFormat
  import opened BmfsSpec
  import opened BmfsLayout
  import opened BmfsApi

  datatype Call =
    | Opening(path: seq<byte>, flags: Flags)
    | Reading(fd: int, len: nat)
    | Writing(fd: int, data: seq<byte>)
    | Seeking(fd: int, offset: int, whence: int)
    | Closing(fd: int)
    | Unlinking(path: seq<byte>)

  /** `NotOurs` is for a descriptor that bmfs_is_fd refuses. */
  datatype Reply = Number(n: int) | Data(data: seq<byte>) | NotOurs

  predicate OnDescriptor(c: Call) {
    !c.Opening? && !c.Unlinking?
  }

  /** What programs must keep to: C strings, at most one descriptor per file, no unlinking of an open file. */
  ghost predicate Legal(a: Fs, c: Call) {
    match c
    case Opening(path, _) => 0 !in path && Idle(a, StripSlash(path))
    case Unlinking(path) => 0 !in path && Idle(a, Key(StripSlash(path)))
    case _ => true
  }

  /** The call takes the map of files from `a` to `b` with that reply. */
  ghost predicate Does(a: Fs, c: Call, b: Fs, r: Reply) {
    && Valid(a)
    && if OnDescriptor(c) && !IsOpen(a, c.fd) then b == a && r == NotOurs
       else match c
         case Opening(path, flags) => r.Number? && exists stale: seq<byte> ::
           |stale| == BLOCK && (b, r.n) == OpenSpec(a, path, flags, stale)
         case Reading(fd, len) => r.Data? && (b, r.data) == ReadSpec(a, fd, len)
         case Writing(fd, data) => r.Number? && (b, r.n) == WriteSpec(a, fd, data)
         case Seeking(fd, offset, whence) => r.Number? && (b, r.n) == LseekSpec(a, fd, offset, whence)
         case Closing(fd) => r.Number? && (b, r.n) == CloseSpec(a, fd)
         case Unlinking(path) => r.Number? && (b, r.n) == UnlinkSpec(a, path)
  }

  /** Every call is legal wherever the calls before it may lead. */
  ghost predicate LegalRun(a: Fs, calls: seq<Call>)
    decreases |calls|
  {
    calls != [] ==> Legal(a, calls[0]) && forall b: Fs, r: Reply :: Does(a, calls[0], b, r) ==> LegalRun(b, calls[1..])
  }

  ghost predicate Behaves(a: Fs, calls: seq<Call>, replies: seq<Reply>, z: Fs)
    decreases |calls|
  {
    |calls| == |replies| &&
    if calls == [] then z == a
    else exists b: Fs :: Does(a, calls[0], b, replies[0]) && Behaves(b, calls[1..], replies[1..], z)
  }

  lemma {:induction false} BehavesSnoc(a: Fs, calls: seq<Call>, replies: seq<Reply>, y: Fs, c: Call, r: Reply, z: Fs)
    requires Behaves(a, calls, replies, y) && Does(y, c, z, r)
    ensures Behaves(a, calls + [c], replies + [r], z)
    decreases |calls|
  {
    hide Does;
    if calls == [] {
      assert calls + [c] == [c] && replies + [r] == [r];
      assert Does(a, [c][0], z, [r][0]) && Behaves(z, [c][1..], [r][1..], z);
    } else {
      var b :| Does(a, calls[0], b, replies[0]) && Behaves(b, calls[1..], replies[1..], y);
      BehavesSnoc(b, calls[1..], replies[1..], y, c, r, z);
      assert (calls + [c])[1..] == calls[1..] + [c] && (replies + [r])[1..] == replies[1..] + [r];
    }
  }

  method Descriptor(fs: Bmfs, c: Call) returns (r: Reply)
    requires fs.Valid() && OnDescriptor(c)
    modifies fs
    ensures fs.Valid() && Does(old(fs.fs), c, fs.fs, r)
    ensures forall n: nat :: old(RoomFor(fs.Directory(), n)) ==> RoomFor(fs.Directory(), n)
  {
    hide Bmfs.Valid, DecodeDir, RoomFor, ReadSpec, WriteSpec, LseekSpec, CloseSpec, BmfsSpec.Valid;
    fs.FdIsOpen(c.fd);
    if !fs.IsFd(c.fd) { return NotOurs; }
    match c {
      case Reading(fd, len) =>
        var data := fs.Read(fd, len);
        r := Data(data);
      case Writing(fd, data) =>
        var n := fs.Write(fd, data);
        r := Number(n);
      case Seeking(fd, offset, whence) =>
        var n := fs.Lseek(fd, offset, whence);
        r := Number(n);
      case Closing(fd) =>
        var n := fs.Close(fd);
        r := Number(n);
    }
  }

  method Path(fs: Bmfs, c: Call) returns (r: Reply)
    requires fs.Valid() && !OnDescriptor(c) && Legal(fs.fs, c) && RoomFor(fs.Directory(), 1)
    modifies fs
    ensures fs.Valid() && Does(old(fs.fs), c, fs.fs, r)
    ensures forall n: nat :: old(RoomFor(fs.Directory(), n + 1)) ==> RoomFor(fs.Directory(), n)
  {
    hide Bmfs.Valid, DecodeDir, OpenSpec, UnlinkSpec, BmfsSpec.Valid, Bmfs.Directory;
    fs.FdIsOpen(0);
    match c {
      case Opening(path, flags) =>
        var n; ghost var stale;
        n, stale := fs.Open(path, flags);
        r := Number(n);
      case Unlinking(path) =>
        var n := fs.Unlink(path);
        r := Number(n);
    }
  }

  method Step(fs: Bmfs, c: Call) returns (r: Reply)
    requires fs.Valid() && Legal(fs.fs, c) && RoomFor(fs.Directory(), 1)
    modifies fs
    ensures fs.Valid() && Does(old(fs.fs), c, fs.fs, r)
    ensures forall n: nat :: old(RoomFor(fs.Directory(), n + 1)) ==> RoomFor(fs.Directory(), n)
  {
    hide Bmfs.Valid, DecodeDir, Does, Bmfs.Directory;
    if OnDescriptor(c) {
      r := Descriptor(fs, c);
    } else {
      r := Path(fs, c);
    }
  }

  /** Any legal run of calls does to the map of files what the calls say, and the state stays consistent. */
  method Run(fs: Bmfs, calls: seq<Call>) returns (replies: seq<Reply>)
    requires fs.Valid() && LegalRun(fs.fs, calls) && RoomFor(fs.Directory(), |calls|)
    modifies fs
    ensures fs.Valid() && Behaves(old(fs.fs), calls, replies, fs.fs)
  {
    hide Bmfs.Valid, Does, Legal, RoomFor, Bmfs.Directory;
    replies := [];
    var i := 0;
    while i < |calls|
      invariant 0 <= i <= |calls| && fs.Valid()
      invariant LegalRun(fs.fs, calls[i..]) && RoomFor(fs.Directory(), |calls| - i)
      invariant Behaves(old(fs.fs), calls[..i], replies, fs.fs)
    {
      ghost var before := fs.fs;
      RoomForLess(fs.Directory(), |calls| - i);
      var r := Step(fs, calls[i]);
      BehavesSnoc(old(fs.fs), calls[..i], replies, before, calls[i], r, fs.fs);
      assert calls[..i] + [calls[i]] == calls[..i + 1];
      assert calls[i..][1..] == calls[i + 1..];
      assert RoomFor(fs.Directory(), |calls| - (i + 1));
      replies := replies + [r];
      i := i + 1;
    }
    assert calls[..i] == calls;
  }

  lemma RoomForLess(dir: Dir, n: nat)
    requires RoomFor(dir, n) && n >= 1
    ensures RoomFor(dir, 1)
  {}

  ghost predicate SoundDisk(d: Disk) {
    DirOk(DecodeDir(SectorAt(d, DIR_SECTOR)))
  }

  /** What a sound disk holds, before anything is open. */
  ghost function Mounted(d: Disk): Fs {
    Fs(FsUpTo(d, DecodeDir(SectorAt(d, DIR_SECTOR)), ENTRIES), seq(MAX_OPEN, _ => Closed))
  }

  /**
   * The run behaves like the map of files, and the disk is then sound and holds the final files, but for the
   * sizes of those still open; if nothing is open, it holds exactly the final state.
   */
  ghost predicate Faithful(disk: Disk, calls: seq<Call>, replies: seq<Reply>, disk': Disk) {
    exists z: Fs ::
      && Behaves(Mounted(disk), calls, replies, z)
      && SoundDisk(disk') && OnDisk(z, Mounted(disk').files) && (AllClosed(z) ==> Mounted(disk') == z)
  }

  ghost predicate AllClosed(a: Fs) {
    |a.fds| == MAX_OPEN && forall k :: 0 <= k < MAX_OPEN ==> a.fds[k].Closed?
  }

  /** A session on a sound disk. */
  method Session(disk: Disk, calls: seq<Call>) returns (replies: seq<Reply>, disk': Disk)
    requires SoundDisk(disk) && LegalRun(Mounted(disk), calls)
    requires RoomFor(DecodeDir(SectorAt(disk, DIR_SECTOR)), |calls|)
    ensures Faithful(disk, calls, replies, disk')
  {
    hide Bmfs.Valid, DecodeDir, RoomFor, LegalRun, Behaves, FsUpTo, DirOk, OnDisk;
    var fs := new Bmfs(disk);
    Unloaded(fs);
    replies := Run(fs, calls);
    disk' := fs.disk;
    ghost var z := fs.fs;
    fs.Survives();
    if AllClosed(z) {
      ClosedIsOnDisk(z, Mounted(disk').files);
      assert z.fds == seq(MAX_OPEN, _ => Closed);
    }
  }

  /** An empty disk is sound, holds no files and has room. */
  lemma BlankDisk(disk: Disk, n: nat)
    requires SectorAt(disk, DIR_SECTOR) == seq(SECTOR, _ => 0) && n + 1 < MAX_BLOCKS
    ensures SoundDisk(disk) && Mounted(disk).files == map[] && RoomFor(DecodeDir(SectorAt(disk, DIR_SECTOR)), n)
  {
    var dir := DecodeDir(SectorAt(disk, DIR_SECTOR));
    BlankEntries(SectorAt(disk, DIR_SECTOR), ENTRIES);
    hide DecodeDir;
    NoFiles(disk, dir, ENTRIES);
  }

  lemma {:induction false} BlankEntries(b: seq<byte>, n: nat)
    requires |b| == ENTRY_BYTES * n && forall i :: 0 <= i < |b| ==> b[i] == 0
    ensures forall i :: 0 <= i < n ==> !DecodeEntries(b, n)[i].Used()
  {
    if n > 0 {
      BlankEntries(b[ENTRY_BYTES..], n - 1);
      assert DecodeEntry(b[..ENTRY_BYTES]).name[0] == 0;
    }
  }

  lemma {:induction false} NoFiles(disk: Disk, dir: Dir, n: nat)
    requires n <= ENTRIES && forall i :: 0 <= i < ENTRIES ==> !dir[i].Used()
    ensures FsUpTo(disk, dir, n) == map[]
  {
    if n > 0 { NoFiles(disk, dir, n - 1); }
  }

  lemma Unloaded(fs: Bmfs)
    requires fs.Valid()
    ensures fs.Directory() == DecodeDir(SectorAt(fs.disk, DIR_SECTOR))
  {
    hide DecodeDir, EncodeDir, Stands;
    if fs.dirLoaded { DirRoundTrip(fs.dir); }
  }
}
