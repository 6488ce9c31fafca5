/** bmfs.c: the byte-addressed file API over whole sectors, with its static tables as fields. */
module BmfsApi {
  import opened Octets
  import opened BmfsDisk
  import opened BmfsFormat
  import opened BmfsSpec
  import opened BmfsEffects
  import opened BmfsLayout

  class Bmfs {
    var disk: Disk
    var dir: Dir
    var dirLoaded: bool
    var files: seq<OpenFile>
    var scratch: Sector
    ghost var fs: Fs      // the map of files this state stands for

    /** The directory in force: the cached one, or before its first use the one in sector 1. */
    function Directory(): Dir
      reads this
    {
      if dirLoaded then dir else DecodeDir(SectorAt(disk, DIR_SECTOR))
    }

    /** The cached directory equals sector 1 between calls, and the state stands for `fs`. */
    ghost predicate Valid()
      reads this
    {
      && |files| == MAX_OPEN
      && (dirLoaded ==> SectorAt(disk, DIR_SECTOR) == EncodeDir(dir))
      && (!dirLoaded ==> forall k :: 0 <= k < |files| ==> !files[k].used)
      && Stands(disk, Directory(), files, fs)
    }

    /** Start over a disk whose directory is sound: unique names, disjoint extents from block 1 up, sizes that fit. */
    constructor (disk: Disk)
      requires DirOk(DecodeDir(SectorAt(disk, DIR_SECTOR)))
      ensures Valid() && this.disk == disk
      ensures fs == Fs(FsUpTo(disk, DecodeDir(SectorAt(disk, DIR_SECTOR)), ENTRIES), seq(MAX_OPEN, _ => Closed))
    {
      hide Stands, DecodeDir, FsUpTo;
      this.disk, dirLoaded := disk, false;
      dir := seq(ENTRIES, _ => EMPTY_ENTRY);
      files := seq(MAX_OPEN, _ => OpenFile(false, false, false, 0, 0, 0, 0, 0));
      scratch := seq(SECTOR, _ => 0);
      fs := Fs(FsUpTo(disk, DecodeDir(SectorAt(disk, DIR_SECTOR)), ENTRIES), seq(MAX_OPEN, _ => Closed));
      new;
      MountStands(disk, DecodeDir(SectorAt(disk, DIR_SECTOR)), files, fs.fds);
    }

    /** Starting over on the same disk finds the same files, but for the sizes of those that are open. */
    lemma Survives()
      requires Valid()
      ensures DirOk(DecodeDir(SectorAt(disk, DIR_SECTOR)))
      ensures OnDisk(fs, FsUpTo(disk, DecodeDir(SectorAt(disk, DIR_SECTOR)), ENTRIES))
    {
      hide Stands, DecodeDir, EncodeDir, FsUpTo, OnDisk;
      if dirLoaded { DirRoundTrip(dir); }
      StandsDir(disk, Directory(), files, fs);
      StandsOnDisk(disk, Directory(), files, fs);
    }

    method DirLoad()
      requires Valid()
      modifies this`dir, this`dirLoaded
      ensures Valid() && dirLoaded && dir == old(Directory())
    {
      hide Stands, EncodeDir, DecodeDir;
      if dirLoaded { return; }
      dir := DecodeDir(SectorAt(disk, DIR_SECTOR));
      SectorRoundTrip(SectorAt(disk, DIR_SECTOR));
      dirLoaded := true;
    }

    method DirFlush()
      modifies this`disk
      ensures disk == old(disk)[DIR_SECTOR := EncodeDir(dir)]
    {
      disk := disk[DIR_SECTOR := EncodeDir(dir)];
    }

    method DirFind(name: seq<byte>) returns (i: int)
      ensures -1 <= i < ENTRIES
      ensures i >= 0 ==> dir[i].Used() && SameName(dir[i].name, name)
      ensures i < 0 ==> forall j :: 0 <= j < ENTRIES && dir[j].Used() ==> !SameName(dir[j].name, name)
    {
      i := 0;
      while i < ENTRIES
        invariant 0 <= i <= ENTRIES
        invariant forall j :: 0 <= j < i && dir[j].Used() ==> !SameName(dir[j].name, name)
      {
        if dir[i].name[0] != 0 && SameName(dir[i].name, name) { return; }
        i := i + 1;
      }
      i := -1;
    }

    method DirFindFreeSlot() returns (i: int)
      ensures -1 <= i < ENTRIES
      ensures i >= 0 ==> !dir[i].Used()
      ensures i < 0 ==> forall j :: 0 <= j < ENTRIES ==> dir[j].Used()
    {
      i := 0;
      while i < ENTRIES
        invariant 0 <= i <= ENTRIES
        invariant forall j :: 0 <= j < i ==> dir[j].Used()
      {
        if dir[i].name[0] == 0 { return; }
        i := i + 1;
      }
      i := -1;
    }

    /** The bump allocator: the block behind the last extent. */
    method DirNextFreeBlock() returns (next: nat)
      ensures 1 <= next
      ensures forall j :: 0 <= j < ENTRIES && dir[j].Used() ==> dir[j].startBlock + dir[j].reservedBlocks <= next
      ensures next == 1 || exists j ::
              0 <= j < ENTRIES && dir[j].Used() && dir[j].startBlock + dir[j].reservedBlocks == next
    {
      next := 1;
      var i := 0;
      while i < ENTRIES
        invariant 0 <= i <= ENTRIES && 1 <= next
        invariant forall j :: 0 <= j < i && dir[j].Used() ==> dir[j].startBlock + dir[j].reservedBlocks <= next
        invariant next == 1 || exists j ::
                  0 <= j < i && dir[j].Used() && dir[j].startBlock + dir[j].reservedBlocks == next
      {
        if dir[i].name[0] != 0 {
          var end := dir[i].startBlock as int + dir[i].reservedBlocks as int;
          if end > next { next := end; }
        }
        i := i + 1;
      }
    }

    // Byte ranges

    /** The sector loop of bmfs_pread. */
    method ReadRange(base0: nat, len: nat) returns (dst: seq<byte>)
      modifies this`scratch
      ensures dst == Bytes(disk, base0, len)
    {
      var base, remaining := base0, len;
      dst := [];
      while remaining != 0
        invariant 0 <= remaining <= len && base == base0 + (len - remaining)
        invariant dst == Bytes(disk, base0, len - remaining)
      {
        var sector, sectorOff := base / SECTOR, base % SECTOR;
        var chunk := SECTOR - sectorOff;
        if chunk > remaining { chunk := remaining; }
        scratch := SectorAt(disk, sector);
        ReadChunk(disk, base, chunk);
        BytesConcat(disk, base0, len - remaining, chunk);
        dst := dst + scratch[sectorOff..sectorOff + chunk];
        base := base + chunk;
        remaining := remaining - chunk;
      }
    }

    /** One turn of the write loop: read the sector unless all of it is replaced, modify it, write it back. */
    method WriteSector(base: nat, part: seq<byte>)
      requires base % SECTOR + |part| <= SECTOR
      modifies this`disk, this`scratch
      ensures Overwritten(old(disk), disk, base, part)
    {
      hide Overwritten;
      var sector, sectorOff := base / SECTOR, base % SECTOR;
      if |part| < SECTOR {
        scratch := SectorAt(disk, sector);
      }
      scratch := Splice(scratch, sectorOff, part);
      assert scratch == Splice(SectorAt(disk, sector), sectorOff, part);
      WriteChunk(disk, base, part, scratch);
      disk := disk[sector := scratch];
    }

    /** The sector loop of bmfs_pwrite. */
    method WriteRange(base0: nat, src: seq<byte>)
      modifies this`disk, this`scratch
      ensures Overwritten(old(disk), disk, base0, src)
    {
      var base, remaining := base0, |src|;
      OverwrittenNothing(disk, base0);
      hide Overwritten;
      while remaining != 0
        invariant 0 <= remaining <= |src| && base == base0 + (|src| - remaining)
        invariant Overwritten(old(disk), disk, base0, src[..|src| - remaining])
      {
        var done := |src| - remaining;
        var chunk := SECTOR - base % SECTOR;
        if chunk > remaining { chunk := remaining; }
        ghost var before := disk;
        WriteSector(base, src[done..done + chunk]);
        OverwrittenConcat(old(disk), before, disk, base0, src[..done], src[done..done + chunk]);
        assert src[..done] + src[done..done + chunk] == src[..done + chunk];
        base := base + chunk;
        remaining := remaining - chunk;
      }
      assert src[..|src|] == src;
    }

    // Reading and writing at an offset

    /** bmfs_pread. */
    method Pread(k: nat, len: nat, off: nat) returns (data: seq<byte>)
      requires Valid() && k < MAX_OPEN && files[k].used
      modifies this`scratch
      ensures Valid() && fs.fds[k].Open? && fs.fds[k].name in fs.files
      ensures var f := fs.files[fs.fds[k].name]; f.size <= |f.bytes| && data == ReadData(f, off, len)
    {
      hide Stands, EncodeDir, DecodeDir;
      OpenFacts(disk, Directory(), files, fs, k);
      var f := files[k];
      if off >= f.size { return []; }
      var n := len;
      if off + n > f.size { n := f.size - off; }
      data := ReadRange(f.startBlock * BLOCK + off, n);
      PartOfExtent(disk, f.startBlock * BLOCK, f.reservedBlocks * BLOCK, off, n);
    }

    /** bmfs_pwrite: changes the bytes of the file that fit, its size and its dirty flag. */
    method Pwrite(k: nat, src: seq<byte>, off: nat) returns (n: int)
      requires k < |files| && files[k].used && Valid()
      modifies this`disk, this`scratch, this`files, this`fs
      ensures Valid() && dirLoaded == old(dirLoaded) && |files| == MAX_OPEN && files[k].used
      ensures WroteAt(old(fs), k, off, src, n, fs) && Directory() == old(Directory())
      ensures n < 0 ==> disk == old(disk)
      ensures n >= 0 ==> n <= |src| && Overwritten(old(disk), disk, ByteAddress(old(files)[k], off), src[..n])
    {
      hide Stands, EncodeDir, DecodeDir, Overwritten;
      ghost var d := Directory();
      OpenFacts(disk, d, files, fs, k);
      var f := files[k];
      var cap := f.reservedBlocks * BLOCK;
      if off >= cap { return -ENOSPC; }
      var len := |src|;
      if off + len > cap { len := cap - off; }
      if len == 0 { return -ENOSPC; }
      ghost var before := disk;
      WriteRange(f.startBlock * BLOCK + off, src[..len]);
      WriteRel(before, disk, d, files, fs, k, off, src[..len]);
      fs := Written(fs, k, off, src[..len]);
      files := files[k := AfterWrite(f, off, len)];
      n := len;
    }

    // The API

    predicate IsFd(fd: int)
      reads this
    {
      FD_BASE <= fd < FD_BASE + MAX_OPEN && fd - FD_BASE < |files| && files[fd - FD_BASE].used
    }

    lemma FdIsOpen(fd: int)
      requires Valid()
      ensures |files| == MAX_OPEN && BmfsSpec.Valid(fs) && (IsFd(fd) <==> IsOpen(fs, fd))
    {
      StandsValid(disk, Directory(), files, fs);
      if FD_BASE <= fd < FD_BASE + MAX_OPEN {
        assert FdRel(Directory(), files[fd - FD_BASE], fs.fds[fd - FD_BASE]);
      }
    }

    method SeekTo(k: nat, pos: nat)
      requires Valid() && k < MAX_OPEN && files[k].used
      modifies this`files, this`fs
      ensures Valid() && |files| == MAX_OPEN && files == old(files)[k := old(files)[k].(pos := pos)]
      ensures IsOpen(old(fs), FD_BASE + k) && fs == SetPos(old(fs), FD_BASE + k, pos)
    {
      hide Stands, EncodeDir, DecodeDir;
      OpenFacts(disk, Directory(), files, fs, k);
      MovePos(disk, Directory(), files, fs, k, pos);
      fs := SetPos(fs, FD_BASE + k, pos);
      files := files[k := files[k].(pos := pos)];
    }

    /** bmfs_read. */
    method Read(fd: int, len: nat) returns (data: seq<byte>)
      requires Valid() && IsFd(fd)
      modifies this`scratch, this`files, this`fs
      ensures Valid() && BmfsSpec.Valid(old(fs)) && IsOpen(old(fs), fd)
      ensures (fs, data) == ReadSpec(old(fs), fd, len) && ReadEffect(old(fs), fd, len, fs, data)
    {
      hide Stands, EncodeDir, DecodeDir, ReadEffect;
      FdIsOpen(fd);
      ReadHasEffect(fs, fd, len);
      var k := fd - FD_BASE;
      OpenFacts(disk, Directory(), files, fs, k);
      SetPosSame(fs, fd, files[k].pos);
      data := Pread(k, len, files[k].pos);
      if |data| > 0 {
        SeekTo(k, files[k].pos + |data|);
      }
    }

    /** bmfs_write. */
    method Write(fd: int, src: seq<byte>) returns (n: int)
      requires Valid() && IsFd(fd)
      modifies this`disk, this`scratch, this`files, this`fs
      ensures Valid() && dirLoaded == old(dirLoaded) && BmfsSpec.Valid(old(fs)) && IsOpen(old(fs), fd)
      ensures (fs, n) == WriteSpec(old(fs), fd, src) && WriteEffect(old(fs), fd, src, fs, n)
      ensures Directory() == old(Directory())
    {
      hide Stands, EncodeDir, DecodeDir, WriteEffect;
      FdIsOpen(fd);
      WriteHasEffect(fs, fd, src);
      var k := fd - FD_BASE;
      OpenFacts(disk, Directory(), files, fs, k);
      SetPosSame(fs, fd, if files[k].append then files[k].size else files[k].pos);
      if files[k].append {
        SeekTo(k, files[k].size);
      }
      OpenFacts(disk, Directory(), files, fs, k);
      var off := files[k].pos;
      n := Pwrite(k, src, off);
      if n > 0 {
        OpenFacts(disk, Directory(), files, fs, k);
        SeekTo(k, off + n);
      }
    }

    /** The first free entry of the descriptor table. */
    method FindSlot() returns (slot: int)
      requires Valid()
      ensures -1 <= slot < MAX_OPEN && (slot >= 0 ==> !files[slot].used)
      ensures FirstClosed(fs.fds) == if slot < 0 then MAX_OPEN else slot
    {
      hide Stands;
      StandsDir(disk, Directory(), files, fs);
      slot := 0;
      while slot < MAX_OPEN
        invariant 0 <= slot <= MAX_OPEN
        invariant forall i :: 0 <= i < slot ==> files[i].used
      {
        if !files[slot].used { break; }
        slot := slot + 1;
      }
      FirstUnused(Directory(), files, fs.fds, slot);
      if slot == MAX_OPEN { slot := -1; }
    }

    /** The part of bmfs_open that makes a new entry. */
    method Create(name: seq<byte>, di: nat) returns (ghost stale: seq<byte>)
      requires Valid() && dirLoaded && RoomFor(Directory(), 1) && di < ENTRIES && !dir[di].Used()
      requires GoodName(name) && 0 !in name && name !in fs.files
      modifies this`dir, this`disk, this`fs
      ensures Valid() && |stale| == BLOCK
      ensures dir[di].Used() && CStr(dir[di].name) == name
      ensures fs == old(fs).(files := old(fs).files[name := File(stale, 0)])
      ensures forall n: nat :: old(RoomFor(Directory(), n + 1)) ==> RoomFor(Directory(), n)
    {
      hide Stands, EncodeDir, DecodeDir, Extent;
      var next := DirNextFreeBlock();
      CreateRel(disk, dir, files, fs, di, name, next);
      CStrOfPadded(name, seq(NAME_BYTES - |name|, _ => 0));
      stale := Bytes(disk, next * BLOCK, BLOCK);
      fs := fs.(files := fs.files[name := File(stale, 0)]);
      dir := dir[di := Dirent(PadName(name), next, 1, 0, 0)];
      DirFlush();
    }

    /** The part of bmfs_open that truncates. */
    method Truncate(di: nat)
      requires Valid() && dirLoaded && di < ENTRIES && dir[di].Used() && Idle(fs, CStr(dir[di].name))
      modifies this`dir, this`disk, this`fs
      ensures Valid() && dir[di].Used() && dir[di].name == old(dir[di].name)
      ensures CStr(dir[di].name) in old(fs).files
      ensures var name := CStr(dir[di].name);
              fs == old(fs).(files := old(fs).files[name := old(fs).files[name].(size := 0)])
      ensures forall n: nat :: old(RoomFor(Directory(), n)) ==> RoomFor(Directory(), n)
    {
      hide Stands, EncodeDir, DecodeDir, Extent, CStr;
      NameFacts(disk, dir, files, fs, di);
      SetSizeRel(disk, dir, files, fs, di, 0);
      fs := fs.(files := fs.files[CStr(dir[di].name) := fs.files[CStr(dir[di].name)].(size := 0)]);
      dir := dir[di := dir[di].(size := 0)];
      DirFlush();
    }

    /** The part of bmfs_open that fills the descriptor. */
    method AttachFile(slot: nat, di: nat, append: bool)
      requires Valid() && dirLoaded && slot < MAX_OPEN && !files[slot].used
      requires di < ENTRIES && dir[di].Used() && Idle(fs, CStr(dir[di].name))
      modifies this`files, this`fs
      ensures Valid()
      ensures CStr(dir[di].name) in old(fs).files && slot < |old(fs).fds|
      ensures var size := old(fs).files[CStr(dir[di].name)].size;
              var fd := Fd.Open(CStr(dir[di].name), if append then size else 0, append);
              fs == old(fs).(fds := old(fs).fds[slot := fd])
    {
      hide EncodeDir, DecodeDir, Extent, CStr;
      NameFacts(disk, dir, files, fs, di);
      Attach(disk, dir, files, fs, slot, di, append);
      hide Stands;
      var e := dir[di];
      var pos := if append then e.size else 0;
      fs := fs.(fds := fs.fds[slot := Fd.Open(CStr(e.name), pos, append)]);
      files := files[slot := OpenFile(true, false, append, di, e.startBlock, e.reservedBlocks, e.size, pos)];
    }

    /** The directory part of bmfs_open: find or create the entry, or say why not. */
    method FindOrCreate(name: seq<byte>, flags: Flags) returns (di: int, ghost stale: seq<byte>)
      requires Valid() && dirLoaded && RoomFor(Directory(), 1) && GoodName(name) && 0 !in name
      modifies this`dir, this`disk, this`fs
      ensures Valid() && |stale| == BLOCK && fs.fds == old(fs).fds
      ensures di < 0 ==> fs == old(fs)
      ensures di < 0 ==> di == if name in fs.files then -EEXIST else if !flags.creat then -ENOENT else -ENOSPC
      ensures di >= 0 ==> di < ENTRIES && dir[di].Used() && CStr(dir[di].name) == name
      ensures di >= 0 ==> fs == old(fs).(files := if name in old(fs).files then old(fs).files
              else old(fs).files[name := File(stale, 0)])
      ensures forall n: nat :: old(RoomFor(Directory(), n + 1)) ==> RoomFor(Directory(), n)
      ensures di < 0 <==> if name in old(fs).files then flags.creat && flags.excl
                          else !flags.creat || |old(fs).files| >= ENTRIES
    {
      hide Stands, EncodeDir, DecodeDir, Extent, CStr;
      stale := seq(BLOCK, _ => 0);
      di := DirFind(name);
      if di < 0 {
        NoSuchName(disk, dir, files, fs, name);
        if !flags.creat { return -ENOENT, stale; }
        FullDirectory(disk, dir, files, fs);
        di := DirFindFreeSlot();
        if di < 0 { return -ENOSPC, stale; }
        stale := Create(name, di);
      } else {
        NameFacts(disk, dir, files, fs, di);
        if flags.creat && flags.excl { return -EEXIST, stale; }
      }
    }

    /** bmfs_open, for a file that is not open already. */
    method Open(path: seq<byte>, flags: Flags) returns (r: int, ghost stale: seq<byte>)
      requires Valid() && 0 !in path && RoomFor(Directory(), 1)
      requires Idle(fs, StripSlash(path))
      modifies this`dir, this`dirLoaded, this`disk, this`files, this`fs
      ensures Valid() && |stale| == BLOCK && |old(fs).fds| == MAX_OPEN
      ensures (fs, r) == OpenSpec(old(fs), path, flags, stale) && OpenEffect(old(fs), path, flags, fs, r)
      ensures forall n: nat :: old(RoomFor(Directory(), n + 1)) ==> RoomFor(Directory(), n)
    {
      r, stale := DoOpen(path, flags);
      OpenHasEffect(old(fs), path, flags, stale);
    }

    method DoOpen(path: seq<byte>, flags: Flags) returns (r: int, ghost stale: seq<byte>)
      requires Valid() && 0 !in path && RoomFor(Directory(), 1)
      requires Idle(fs, StripSlash(path))
      modifies this`dir, this`dirLoaded, this`disk, this`files, this`fs
      ensures Valid() && |stale| == BLOCK && |old(fs).fds| == MAX_OPEN
      ensures (fs, r) == OpenSpec(old(fs), path, flags, stale)
      ensures forall n: nat :: old(RoomFor(Directory(), n + 1)) ==> RoomFor(Directory(), n)
    {
      hide Stands, EncodeDir, DecodeDir, Extent, CStr;
      FdIsOpen(0);
      stale := seq(BLOCK, _ => 0);
      var name := StripSlash(path);
      var len := if |name| < NAME_BYTES then |name| else NAME_BYTES;
      if len == 0 || len >= NAME_BYTES || SLASH in name { return -ENOENT, stale; }
      DirLoad();
      var slot := FindSlot();
      if slot < 0 { return -EMFILE, stale; }
      var di;
      di, stale := FindOrCreate(name, flags);
      if di < 0 { return di, stale; }
      if flags.trunc {
        Truncate(di);
      }
      AttachFile(slot, di, flags.append);
      r := FD_BASE + slot;
      ghost var m := old(fs).files;
      assert name in m ==> m[name := m[name]] == m;
      assert m[name := File(stale, 0)][name := File(stale, 0)] == m[name := File(stale, 0)];
    }

    /** bmfs_lseek. */
    method Lseek(fd: int, offset: int, whence: int) returns (np: int)
      requires Valid() && IsFd(fd)
      modifies this`files, this`fs
      ensures Valid() && BmfsSpec.Valid(old(fs)) && IsOpen(old(fs), fd)
      ensures (fs, np) == LseekSpec(old(fs), fd, offset, whence) && SeekEffect(old(fs), fd, offset, whence, fs, np)
    {
      hide Stands, EncodeDir, DecodeDir, SeekEffect;
      FdIsOpen(fd);
      SeekHasEffect(fs, fd, offset, whence);
      var k := fd - FD_BASE;
      OpenFacts(disk, Directory(), files, fs, k);
      var base;
      match whence {
        case 0 => base := 0;
        case 1 => base := files[k].pos;
        case 2 => base := files[k].size;
        case _ => return -EINVAL;
      }
      np := Long(base + offset);
      if np < 0 { return -EINVAL; }
      SeekTo(k, np);
    }

    /** bmfs_close: the size reaches the directory, and the directory the disk, if a write changed it. */
    method Close(fd: int) returns (r: int)
      requires Valid() && IsFd(fd)
      modifies this`dir, this`disk, this`files, this`fs
      ensures Valid() && IsOpen(old(fs), fd)
      ensures (fs, r) == CloseSpec(old(fs), fd) && CloseEffect(old(fs), fd, fs, r)
      ensures forall n: nat :: old(RoomFor(Directory(), n)) ==> RoomFor(Directory(), n)
    {
      hide Stands, EncodeDir, DecodeDir, Extent, CloseEffect;
      FdIsOpen(fd);
      CloseHasEffect(fs, fd);
      var k := fd - FD_BASE;
      OpenFacts(disk, dir, files, fs, k);
      Detach(disk, dir, files, fs, k);
      var f := files[k];
      ghost var name := fs.fds[k].name;
      files := files[k := f.(used := false)];
      ghost var detached := Fs(fs.files[name := fs.files[name].(size := dir[f.dirIndex].size)], fs.fds[k := Closed]);
      RestoreSize(fs, name, dir[f.dirIndex].size);
      if f.dirty {
        SizeFits(f.size, f.reservedBlocks, dir[f.dirIndex]);
        SetSizeRel(disk, dir, files, detached, f.dirIndex, f.size);
        dir := dir[f.dirIndex := dir[f.dirIndex].(size := f.size)];
        DirFlush();
      }
      fs := CloseSpec(fs, fd).0;
      r := 0;
    }

    /** bmfs_unlink, for a file that is not open. */
    method Unlink(path: seq<byte>) returns (r: int)
      requires Valid() && 0 !in path
      requires Idle(fs, Key(StripSlash(path)))
      modifies this`dir, this`dirLoaded, this`disk, this`fs
      ensures Valid()
      ensures (fs, r) == UnlinkSpec(old(fs), path) && UnlinkEffect(old(fs), path, fs, r)
      ensures forall n: nat :: old(RoomFor(Directory(), n)) ==> RoomFor(Directory(), n)
    {
      hide Stands, EncodeDir, DecodeDir, Extent, CStr, UnlinkEffect;
      UnlinkHasEffect(fs, path);
      DirLoad();
      var di := DirFind(StripSlash(path));
      if di < 0 {
        NoSuchName(disk, dir, files, fs, StripSlash(path));
        return -ENOENT;
      }
      NameFacts(disk, dir, files, fs, di);
      RemoveRel(disk, dir, files, fs, di);
      fs := fs.(files := fs.files - {CStr(dir[di].name)});
      dir := dir[di := EMPTY_ENTRY];
      DirFlush();
      r := 0;
    }
  }

  lemma FirstUnused(dir: Dir, files: seq<OpenFile>, fds: seq<Fd>, k: nat)
    requires FdsRel(dir, files, fds) && k <= MAX_OPEN
    requires k < MAX_OPEN ==> !files[k].used
    requires forall i :: 0 <= i < k ==> files[i].used
    ensures FirstClosed(fds) == k
  {
    if k < MAX_OPEN { assert FdRel(dir, files[k], fds[k]); }
    assert forall i :: 0 <= i < k ==> FdRel(dir, files[i], fds[i]);
  }

  lemma SizeFits(size: nat, reserved: nat, e: Dirent)
    requires EntryOk(e) && reserved == e.reservedBlocks && size <= reserved * BLOCK
    ensures size < 0x1_0000_0000_0000_0000
  {}

  lemma RestoreSize(a: Fs, name: seq<byte>, size: nat)
    requires name in a.files
    ensures a.files[name := a.files[name].(size := size)][name := a.files[name]] == a.files
    ensures a.files[name].size == size ==> a.files[name := a.files[name].(size := size)] == a.files
  {}

  lemma NoSuchName(disk: Disk, dir: Dir, files: seq<OpenFile>, a: Fs, name: seq<byte>)
    requires Stands(disk, dir, files, a)
    requires forall j :: 0 <= j < ENTRIES && dir[j].Used() ==> !SameName(dir[j].name, name)
    ensures Key(name) !in a.files
  {
    hide CStr;
    assert forall i: nat :: !HasName(dir, i, Key(name));
  }

  lemma PartOfExtent(d: Disk, at: nat, n: nat, off: nat, m: nat)
    requires off + m <= n
    ensures Bytes(d, at + off, m) == Bytes(d, at, n)[off..off + m]
  {}
}
