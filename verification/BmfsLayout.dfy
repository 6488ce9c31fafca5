/** How the directory, the descriptor table and the disk stand for the map of files, and why each
    change that BMFS makes to them is the change its specification makes. */
module BmfsLayout {
  import opened Octets
  import opened BmfsDisk
  import opened BmfsFormat
  import opened BmfsSpec

  datatype OpenFile = OpenFile(used: bool, dirty: bool, append: bool, dirIndex: nat,
                               startBlock: nat, reservedBlocks: nat, size: nat, pos: nat)

  /** Byte addresses are 64-bit, so blocks are numbered below this. */
  const MAX_BLOCKS := 0x800_0000_0000

  ghost predicate DisjointExtents(d: Dirent, e: Dirent) {
    d.startBlock + d.reservedBlocks <= e.startBlock || e.startBlock + e.reservedBlocks <= d.startBlock
  }

  ghost predicate EntryOk(e: Dirent) {
    && 1 <= e.startBlock && e.startBlock + e.reservedBlocks <= MAX_BLOCKS
    && e.size <= e.reservedBlocks * BLOCK
  }

  /** Names are unique, extents start at block 1 or later and are disjoint, sizes fit. */
  ghost predicate DirOk(dir: Dir) {
    && (forall i :: 0 <= i < ENTRIES && dir[i].Used() ==> EntryOk(dir[i]))
    && (forall i, j :: 0 <= i < j < ENTRIES && dir[i].Used() && dir[j].Used() ==>
          CStr(dir[i].name) != CStr(dir[j].name) && DisjointExtents(dir[i], dir[j]))
  }

  ghost predicate OpenOk(dir: Dir, f: OpenFile) {
    && f.dirIndex < ENTRIES && dir[f.dirIndex].Used()
    && f.startBlock == dir[f.dirIndex].startBlock && f.reservedBlocks == dir[f.dirIndex].reservedBlocks
    && f.size <= f.reservedBlocks * BLOCK
    && (!f.dirty ==> f.size == dir[f.dirIndex].size)
  }

  /** Open files agree with their entries, and no two are open on the same one. */
  ghost predicate FilesOk(dir: Dir, files: seq<OpenFile>) {
    && |files| == MAX_OPEN
    && (forall k :: 0 <= k < MAX_OPEN && files[k].used ==> OpenOk(dir, files[k]))
    && (forall k, l :: 0 <= k < l < MAX_OPEN && files[k].used && files[l].used ==>
      files[k].dirIndex != files[l].dirIndex)
  }

  function Extent(disk: Disk, e: Dirent): seq<byte> {
    Bytes(disk, e.startBlock * BLOCK, e.reservedBlocks * BLOCK)
  }

  ghost predicate Unopened(files: seq<OpenFile>, i: nat) {
    forall k :: 0 <= k < |files| && files[k].used ==> files[k].dirIndex != i
  }

  /** Entry `i` stands for its file: the extent, and the size its descriptor or else the entry holds. */
  ghost predicate EntryRel(disk: Disk, dir: Dir, files: seq<OpenFile>, i: nat, f: File)
    requires i < ENTRIES
  {
    && f.bytes == Extent(disk, dir[i])
    && (forall k :: 0 <= k < |files| && files[k].used && files[k].dirIndex == i ==> f.size == files[k].size)
    && (Unopened(files, i) ==> f.size == dir[i].size)
  }

  ghost predicate FdRel(dir: Dir, f: OpenFile, d: Fd) {
    if f.used then f.dirIndex < ENTRIES && d == Open(CStr(dir[f.dirIndex].name), f.pos, f.append) else d == Closed
  }

  /** Every entry stands for the file of its name. */
  ghost predicate EntriesRel(disk: Disk, dir: Dir, files: seq<OpenFile>, fs: map<seq<byte>, File>) {
    forall i: nat :: i < ENTRIES && dir[i].Used() ==>
                       CStr(dir[i].name) in fs && EntryRel(disk, dir, files, i, fs[CStr(dir[i].name)])
  }

  ghost predicate HasName(dir: Dir, i: nat, n: seq<byte>) {
    i < ENTRIES && dir[i].Used() && CStr(dir[i].name) == n
  }

  /** Every file has an entry. */
  ghost predicate NamesRel(dir: Dir, names: set<seq<byte>>) {
    forall n :: n in names ==> exists i :: HasName(dir, i, n)
  }

  ghost predicate FdsRel(dir: Dir, files: seq<OpenFile>, fds: seq<Fd>) {
    |files| == |fds| == MAX_OPEN && forall k :: 0 <= k < MAX_OPEN ==> FdRel(dir, files[k], fds[k])
  }

  ghost predicate Rel(disk: Disk, dir: Dir, files: seq<OpenFile>, a: Fs) {
    EntriesRel(disk, dir, files, a.files) && NamesRel(dir, a.files.Keys) && FdsRel(dir, files, a.fds)
  }

  /** The whole state is consistent and stands for `a`. */
  ghost predicate Stands(disk: Disk, dir: Dir, files: seq<OpenFile>, a: Fs) {
    DirOk(dir) && FilesOk(dir, files) && Rel(disk, dir, files, a)
  }

  // Consequences

  /** The map is within its own rules: sizes within capacity, open names present. */
  lemma StandsValid(disk: Disk, dir: Dir, files: seq<OpenFile>, a: Fs)
    requires Stands(disk, dir, files, a)
    ensures BmfsSpec.Valid(a)
  {
    forall n | n in a.files ensures a.files[n].size <= |a.files[n].bytes| {
      var i :| HasName(dir, i, n);
      assert EntryRel(disk, dir, files, i, a.files[n]);
    }
    forall k | 0 <= k < MAX_OPEN && a.fds[k].Open? ensures a.fds[k].name in a.files {
      assert FdRel(dir, files[k], a.fds[k]);
      assert OpenOk(dir, files[k]);
    }
  }

  /** An open descriptor's file. */
  lemma OpenFacts(disk: Disk, dir: Dir, files: seq<OpenFile>, a: Fs, k: nat)
    requires Stands(disk, dir, files, a) && k < MAX_OPEN && files[k].used
    ensures |files| == |a.fds| == MAX_OPEN && OpenOk(dir, files[k]) && EntryOk(dir[files[k].dirIndex])
    ensures a.fds[k] == Open(CStr(dir[files[k].dirIndex].name), files[k].pos, files[k].append)
    ensures a.fds[k].name in a.files
    ensures var f := a.files[a.fds[k].name];
            f.size == files[k].size && f.bytes == Extent(disk, dir[files[k].dirIndex])
  {
    assert FdRel(dir, files[k], a.fds[k]);
    assert EntryRel(disk, dir, files, files[k].dirIndex, a.files[CStr(dir[files[k].dirIndex].name)]);
  }

  /** A name is in the map exactly when an entry has it. */
  lemma NameFacts(disk: Disk, dir: Dir, files: seq<OpenFile>, a: Fs, i: nat)
    requires Stands(disk, dir, files, a) && i < ENTRIES && dir[i].Used()
    ensures CStr(dir[i].name) in a.files
    ensures Idle(a, CStr(dir[i].name)) <==> Unopened(files, i)
    ensures a.files[CStr(dir[i].name)].bytes == Extent(disk, dir[i])
    ensures Unopened(files, i) ==> a.files[CStr(dir[i].name)] == File(Extent(disk, dir[i]), dir[i].size)
  {
    var name := CStr(dir[i].name);
    assert EntryRel(disk, dir, files, i, a.files[name]);
    forall k | 0 <= k < MAX_OPEN ensures a.fds[k].Open? && a.fds[k].name == name
      <==> files[k].used && files[k].dirIndex == i {
      assert FdRel(dir, files[k], a.fds[k]);
      if files[k].used && files[k].dirIndex != i {
        assert OpenOk(dir, files[k]);
      }
    }
  }

  // Changes of one descriptor

  lemma UnopenedSame(files: seq<OpenFile>, files': seq<OpenFile>, i: nat)
    requires |files'| == |files|
    requires forall k :: 0 <= k < |files| ==> files'[k].used == files[k].used && files'[k].dirIndex == files[k].dirIndex
    ensures Unopened(files', i) <==> Unopened(files, i)
  {
    if Unopened(files, i) {
      forall k | 0 <= k < |files'| && files'[k].used ensures files'[k].dirIndex != i { assert files[k].used; }
    } else {
      var k :| 0 <= k < |files| && files[k].used && files[k].dirIndex == i;
      assert files'[k].used && files'[k].dirIndex == i;
    }
  }

  /** Descriptor `k` and its file change, `disk` only inside that file's extent. */
  lemma ChangeOne(disk: Disk, disk': Disk, dir: Dir, files: seq<OpenFile>, a: Fs, k: nat, file: OpenFile, f: File)
    requires Stands(disk, dir, files, a) && k < MAX_OPEN && files[k].used
    requires file.used && file.dirIndex == files[k].dirIndex && OpenOk(dir, file)
    requires f.bytes == Extent(disk', dir[file.dirIndex]) && f.size == file.size
    requires forall i: nat :: i < ENTRIES && i != file.dirIndex && dir[i].Used() ==>
             Extent(disk', dir[i]) == Extent(disk, dir[i])
    ensures var name := CStr(dir[file.dirIndex].name);
            Stands(disk', dir, files[k := file], Fs(a.files[name := f], a.fds[k := Open(name, file.pos, file.append)]))
  {
    hide CStr, Extent;
    var files', name := files[k := file], CStr(dir[file.dirIndex].name);
    var fs' := a.files[name := f];
    assert name in a.files by { OpenFacts(disk, dir, files, a, k); }
    assert FilesOk(dir, files');
    assert fs'.Keys == a.files.Keys;
    assert NamesRel(dir, fs'.Keys);
    assert FdsRel(dir, files', a.fds[k := Open(name, file.pos, file.append)]);
    ChangeOneEntries(disk, disk', dir, files, a.files, k, file, f);
  }

  lemma ChangeOneEntries(disk: Disk, disk': Disk, dir: Dir, files: seq<OpenFile>, fs: map<seq<byte>, File>, k: nat,
    file: OpenFile, f: File)
    requires DirOk(dir) && FilesOk(dir, files) && EntriesRel(disk, dir, files, fs) && k < MAX_OPEN && files[k].used
    requires file.used && file.dirIndex == files[k].dirIndex < ENTRIES && dir[file.dirIndex].Used()
    requires f.bytes == Extent(disk', dir[file.dirIndex]) && f.size == file.size
    requires forall i: nat :: i < ENTRIES && i != file.dirIndex && dir[i].Used() ==>
             Extent(disk', dir[i]) == Extent(disk, dir[i])
    ensures EntriesRel(disk', dir, files[k := file], fs[CStr(dir[file.dirIndex].name) := f])
  {
    hide CStr, Extent;
    var files', name := files[k := file], CStr(dir[file.dirIndex].name);
    var fs' := fs[name := f];
    forall i: nat | i < ENTRIES && dir[i].Used()
      ensures CStr(dir[i].name) in fs' && EntryRel(disk', dir, files', i, fs'[CStr(dir[i].name)])
    {
      assert EntryRel(disk, dir, files, i, fs[CStr(dir[i].name)]);
      if i == file.dirIndex {
        assert files'[k].used && files'[k].dirIndex == i;
        forall l | 0 <= l < |files'| && files'[l].used && files'[l].dirIndex == i ensures f.size == files'[l].size {
          assert l == k;
        }
      } else {
        assert CStr(dir[i].name) != name by {
          if i < file.dirIndex { assert CStr(dir[i].name) != CStr(dir[file.dirIndex].name); }
        }
        UnopenedSame(files, files', i);
      }
    }
  }

  /** Moving a file position. */
  lemma MovePos(disk: Disk, dir: Dir, files: seq<OpenFile>, a: Fs, k: nat, pos: nat)
    requires Stands(disk, dir, files, a) && k < MAX_OPEN && files[k].used
    ensures IsOpen(a, FD_BASE + k)
    ensures Stands(disk, dir, files[k := files[k].(pos := pos)], SetPos(a, FD_BASE + k, pos))
  {
    hide CStr, Extent, Stands;
    OpenFacts(disk, dir, files, a, k);
    var f := a.files[a.fds[k].name];
    ChangeOne(disk, disk, dir, files, a, k, files[k].(pos := pos), f);
    assert a.files[a.fds[k].name := f] == a.files;
  }

  /** The descriptor after a write of `n` bytes at `off`. */
  function AfterWrite(f: OpenFile, off: nat, n: nat): OpenFile {
    if off + n > f.size then f.(size := off + n, dirty := true) else f
  }

  /** Where byte `off` of an open file is on the disk. */
  function ByteAddress(f: OpenFile, off: nat): nat {
    f.startBlock * BLOCK + off
  }

  ghost predicate WriteFits(a: Fs, k: nat, off: nat, data: seq<byte>) {
    && k < |a.fds| && a.fds[k].Open? && a.fds[k].name in a.files
    && var f := a.files[a.fds[k].name];
    off + |data| <= |f.bytes| && f.size <= |f.bytes|
  }

  /** The map after that write. */
  ghost function Written(a: Fs, k: nat, off: nat, data: seq<byte>): Fs
    requires WriteFits(a, k, off, data)
  {
    a.(files := a.files[a.fds[k].name := WriteFile(a.files[a.fds[k].name], off, data)])
  }

  /** The outcome of a write at `off`: as many bytes as fit, or an error and no change. */
  ghost predicate WroteAt(a: Fs, k: nat, off: nat, src: seq<byte>, n: int, a': Fs) {
    && k < |a.fds| && a.fds[k].Open? && a.fds[k].name in a.files
    && var m := Accepted(a.files[a.fds[k].name], off, |src|);
    if m == 0 then n == -ENOSPC && a' == a
    else n == m && WriteFits(a, k, off, src[..m]) && a' == Written(a, k, off, src[..m])
  }

  lemma ExtentElsewhere(disk: Disk, disk': Disk, dir: Dir, i: nat, j: nat, off: nat, data: seq<byte>)
    requires DirOk(dir) && i < ENTRIES && j < ENTRIES && i != j && dir[i].Used() && dir[j].Used()
    requires off + |data| <= dir[j].reservedBlocks * BLOCK
    requires Overwritten(disk, disk', dir[j].startBlock * BLOCK + off, data)
    ensures Extent(disk', dir[i]) == Extent(disk, dir[i])
  {
    assert DisjointExtents(dir[i], dir[j]);
    BytesElsewhere(disk, disk', dir[j].startBlock * BLOCK + off, data, dir[i].startBlock * BLOCK,
      dir[i].reservedBlocks * BLOCK);
  }

  /** A write inside the extent of an open file changes that file and no other, nor the directory. */
  lemma WriteRel(disk: Disk, disk': Disk, dir: Dir, files: seq<OpenFile>, a: Fs, k: nat, off: nat, data: seq<byte>)
    requires Stands(disk, dir, files, a) && k < MAX_OPEN && files[k].used
    requires off + |data| <= files[k].reservedBlocks * BLOCK
    requires Overwritten(disk, disk', files[k].startBlock * BLOCK + off, data)
    ensures SectorAt(disk', DIR_SECTOR) == SectorAt(disk, DIR_SECTOR)
    ensures WriteFits(a, k, off, data)
    ensures Stands(disk', dir, files[k := AfterWrite(files[k], off, |data|)], Written(a, k, off, data))
  {
    hide CStr, Stands;
    OpenFacts(disk, dir, files, a, k);
    var j := files[k].dirIndex;
    SectorElsewhere(disk, disk', dir[j].startBlock * BLOCK + off, data, DIR_SECTOR);
    BytesSpliced(disk, disk', dir[j].startBlock * BLOCK, dir[j].reservedBlocks * BLOCK, off, data);
    assert DirOk(dir) by { StandsDir(disk, dir, files, a); }
    forall i: nat | i < ENTRIES && i != j && dir[i].Used() ensures Extent(disk', dir[i]) == Extent(disk, dir[i]) {
      ExtentElsewhere(disk, disk', dir, i, j, off, data);
    }
    hide Extent;
    ChangeOne(disk, disk', dir, files, a, k, AfterWrite(files[k], off, |data|),
      WriteFile(a.files[a.fds[k].name], off, data));
    assert a.fds[k := a.fds[k]] == a.fds;
  }

  lemma StandsDir(disk: Disk, dir: Dir, files: seq<OpenFile>, a: Fs)
    requires Stands(disk, dir, files, a)
    ensures DirOk(dir) && FilesOk(dir, files) && FdsRel(dir, files, a.fds)
  {}

  // Changes of one directory entry

  /** Rewriting the directory sector leaves every extent alone. */
  lemma FlushKeepsExtents(disk: Disk, s: Sector, e: Dirent)
    requires 1 <= e.startBlock
    ensures Extent(disk[DIR_SECTOR := s], e) == Extent(disk, e)
  {
    var at, n := e.startBlock * BLOCK, e.reservedBlocks * BLOCK;
    var t := disk[DIR_SECTOR := s];
    forall i | 0 <= i < n ensures Bytes(t, at, n)[i] == Bytes(disk, at, n)[i] {
      assert (at + i) / SECTOR >= 512;
      assert ByteAt(t, at + i) == ByteAt(disk, at + i);
    }
  }

  /** Entry `i`, on which nothing is open, changes to `e`, and `fs` becomes `fs'` accordingly. */
  lemma ChangeEntry(disk: Disk, dir: Dir, files: seq<OpenFile>, fs: map<seq<byte>, File>, i: nat, e: Dirent,
    fs': map<seq<byte>, File>)
    requires DirOk(dir) && FilesOk(dir, files) && EntriesRel(disk, dir, files, fs) && i < ENTRIES && Unopened(files, i)
    requires forall j: nat :: j < ENTRIES && j != i && dir[j].Used() ==>
                                var n := CStr(dir[j].name); n in fs' && n in fs && fs'[n] == fs[n]
    requires e.Used() ==> 1 <= e.startBlock && CStr(e.name) in fs' && fs'[CStr(e.name)] == File(Extent(disk, e), e.size)
    ensures var dir' := dir[i := e]; EntriesRel(disk[DIR_SECTOR := EncodeDir(dir')], dir', files, fs')
  {
    hide CStr, Extent, EncodeDir;
    var dir': Dir := dir[i := e];
    var disk' := disk[DIR_SECTOR := EncodeDir(dir')];
    forall j: nat | j < ENTRIES && dir'[j].Used()
      ensures CStr(dir'[j].name) in fs' && EntryRel(disk', dir', files, j, fs'[CStr(dir'[j].name)])
    {
      FlushKeepsExtents(disk, EncodeDir(dir'), dir'[j]);
      if j != i {
        assert EntryRel(disk, dir, files, j, fs[CStr(dir[j].name)]);
      }
    }
  }

  /** Setting the size in an entry on which nothing is open. */
  lemma SetSizeRel(disk: Disk, dir: Dir, files: seq<OpenFile>, a: Fs, i: nat, size: u64)
    requires Stands(disk, dir, files, a) && i < ENTRIES && dir[i].Used() && Unopened(files, i)
    requires size <= dir[i].reservedBlocks * BLOCK
    ensures var dir' := dir[i := dir[i].(size := size)];
            && CStr(dir[i].name) in a.files
            && Stands(disk[DIR_SECTOR := EncodeDir(dir')], dir', files,
                      a.(files := a.files[CStr(dir[i].name) := a.files[CStr(dir[i].name)].(size := size)]))
  {
    hide CStr, Extent, EncodeDir;
    NameFacts(disk, dir, files, a, i);
    var name, e := CStr(dir[i].name), dir[i].(size := size);
    var dir': Dir := dir[i := e];
    var fs' := a.files[name := a.files[name].(size := size)];
    forall j: nat | j < ENTRIES && j != i && dir[j].Used()
      ensures CStr(dir[j].name) in a.files && CStr(dir[j].name) != name {
      NameFacts(disk, dir, files, a, j);
      DistinctNames(dir, i, j);
    }
    ExtentSame(disk, dir[i], e);
    ChangeEntry(disk, dir, files, a.files, i, e, fs');
    hide EntriesRel;
    SameShape(dir, dir', files, a, i);
    assert fs'.Keys == a.files.Keys;
  }

  lemma ExtentSame(disk: Disk, d: Dirent, e: Dirent)
    requires d.startBlock == e.startBlock && d.reservedBlocks == e.reservedBlocks
    ensures Extent(disk, d) == Extent(disk, e)
  {}

  lemma DistinctNames(dir: Dir, i: nat, j: nat)
    requires DirOk(dir) && i < ENTRIES && j < ENTRIES && i != j && dir[i].Used() && dir[j].Used()
    ensures CStr(dir[i].name) != CStr(dir[j].name)
  {
    if i < j { assert CStr(dir[i].name) != CStr(dir[j].name); } else { assert CStr(dir[j].name) != CStr(dir[i].name); }
  }

  /** A change of size alone keeps names, extents and descriptors in order. */
  lemma SameShape(dir: Dir, dir': Dir, files: seq<OpenFile>, a: Fs, i: nat)
    requires DirOk(dir) && FilesOk(dir, files) && NamesRel(dir, a.files.Keys) && FdsRel(dir, files, a.fds)
    requires i < ENTRIES && Unopened(files, i) && dir' == dir[i := dir'[i]]
    requires dir'[i] == dir[i].(size := dir'[i].size) && dir'[i].size <= dir[i].reservedBlocks * BLOCK
    ensures DirOk(dir') && FilesOk(dir', files) && NamesRel(dir', a.files.Keys) && FdsRel(dir', files, a.fds)
  {
    hide CStr;
    assert forall j :: 0 <= j < ENTRIES ==>
           dir'[j].name == dir[j].name && dir'[j].startBlock == dir[j].startBlock
             && dir'[j].reservedBlocks == dir[j].reservedBlocks;
    forall n | n in a.files.Keys ensures exists j :: HasName(dir', j, n) {
      var j :| HasName(dir, j, n);
      assert HasName(dir', j, n);
    }
  }

  /** A new entry in a free slot, behind all extents. */
  lemma CreateRel(disk: Disk, dir: Dir, files: seq<OpenFile>, a: Fs, i: nat, name: seq<byte>, next: u64)
    requires Stands(disk, dir, files, a) && i < ENTRIES && !dir[i].Used()
    requires 0 < |name| < NAME_BYTES && 0 !in name && name !in a.files
    requires 1 <= next < MAX_BLOCKS
    requires forall j :: 0 <= j < ENTRIES && dir[j].Used() ==> dir[j].startBlock + dir[j].reservedBlocks <= next
    ensures var e := Dirent(PadName(name), next, 1, 0, 0);
            var dir' := dir[i := e];
            Stands(disk[DIR_SECTOR := EncodeDir(dir')], dir', files,
                   a.(files := a.files[name := File(Bytes(disk, next * BLOCK, BLOCK), 0)]))
  {
    hide EncodeDir;
    var e := Dirent(PadName(name), next, 1, 0, 0);
    var dir': Dir := dir[i := e];
    var fs' := a.files[name := File(Bytes(disk, next * BLOCK, BLOCK), 0)];
    CStrOfPadded(name, seq(NAME_BYTES - |name|, _ => 0));
    hide CStr, Extent;
    assert e.Used() && CStr(e.name) == name;
    assert Unopened(files, i) by {
      forall k | 0 <= k < |files| && files[k].used ensures files[k].dirIndex != i { assert OpenOk(dir, files[k]); }
    }
    forall j: nat | j < ENTRIES && dir[j].Used() ensures CStr(dir[j].name) in a.files && CStr(dir[j].name) != name {
      NameFacts(disk, dir, files, a, j);
    }
    ExtentOfNew(disk, e, next);
    ChangeEntry(disk, dir, files, a.files, i, e, fs');
    CreateShape(dir, dir', files, a, i, e, name);
    assert fs'.Keys == a.files.Keys + {name};
  }

  lemma ExtentOfNew(disk: Disk, e: Dirent, next: u64)
    requires e.startBlock == next && e.reservedBlocks == 1
    ensures Extent(disk, e) == Bytes(disk, next * BLOCK, BLOCK)
  {}

  lemma CreateShape(dir: Dir, dir': Dir, files: seq<OpenFile>, a: Fs, i: nat, e: Dirent, name: seq<byte>)
    requires DirOk(dir) && FilesOk(dir, files) && NamesRel(dir, a.files.Keys) && FdsRel(dir, files, a.fds)
    requires i < ENTRIES && !dir[i].Used() && Unopened(files, i) && dir' == dir[i := e]
    requires e.Used() && CStr(e.name) == name && EntryOk(e)
    requires forall j: nat :: j < ENTRIES && dir[j].Used() ==>
                                CStr(dir[j].name) != name && dir[j].startBlock + dir[j].reservedBlocks <= e.startBlock
    ensures DirOk(dir') && FilesOk(dir', files) && NamesRel(dir', a.files.Keys + {name}) && FdsRel(dir', files, a.fds)
  {
    hide CStr;
    forall n | n in a.files.Keys + {name} ensures exists j :: HasName(dir', j, n) {
      if n == name {
        assert HasName(dir', i, n);
      } else {
        var j :| HasName(dir, j, n);
        assert HasName(dir', j, n);
      }
    }
  }

  /** Clearing an entry on which nothing is open. */
  lemma RemoveRel(disk: Disk, dir: Dir, files: seq<OpenFile>, a: Fs, i: nat)
    requires Stands(disk, dir, files, a) && i < ENTRIES && dir[i].Used() && Unopened(files, i)
    ensures var dir' := dir[i := EMPTY_ENTRY];
            Stands(disk[DIR_SECTOR := EncodeDir(dir')], dir', files, a.(files := a.files - {CStr(dir[i].name)}))
  {
    hide CStr, Extent, EncodeDir;
    var name := CStr(dir[i].name);
    var dir': Dir := dir[i := EMPTY_ENTRY];
    var fs' := a.files - {name};
    forall j: nat | j < ENTRIES && j != i && dir[j].Used()
      ensures CStr(dir[j].name) in a.files && CStr(dir[j].name) != name {
      NameFacts(disk, dir, files, a, j);
      DistinctNames(dir, i, j);
    }
    ChangeEntry(disk, dir, files, a.files, i, EMPTY_ENTRY, fs');
    RemoveShape(dir, dir', files, a, i, name);
    assert fs'.Keys == a.files.Keys - {name};
  }

  lemma RemoveShape(dir: Dir, dir': Dir, files: seq<OpenFile>, a: Fs, i: nat, name: seq<byte>)
    requires DirOk(dir) && FilesOk(dir, files) && NamesRel(dir, a.files.Keys) && FdsRel(dir, files, a.fds)
    requires i < ENTRIES && Unopened(files, i) && dir' == dir[i := EMPTY_ENTRY] && CStr(dir[i].name) == name
    ensures DirOk(dir') && FilesOk(dir', files) && NamesRel(dir', a.files.Keys - {name}) && FdsRel(dir', files, a.fds)
  {
    hide CStr;
    forall n | n in a.files.Keys - {name} ensures exists j :: HasName(dir', j, n) {
      var j :| HasName(dir, j, n);
      assert HasName(dir', j, n);
    }
  }

  // Opening and closing

  lemma Attach(disk: Disk, dir: Dir, files: seq<OpenFile>, a: Fs, k: nat, i: nat, append: bool)
    requires Stands(disk, dir, files, a) && k < MAX_OPEN && !files[k].used && i < ENTRIES && dir[i].Used()
             && Unopened(files, i)
    ensures var pos := if append then dir[i].size else 0;
            var f := OpenFile(true, false, append, i, dir[i].startBlock, dir[i].reservedBlocks, dir[i].size, pos);
            Stands(disk, dir, files[k := f], a.(fds := a.fds[k := Open(CStr(dir[i].name), pos, append)]))
  {
    hide CStr, Extent;
    var pos := if append then dir[i].size else 0;
    var f := OpenFile(true, false, append, i, dir[i].startBlock, dir[i].reservedBlocks, dir[i].size, pos);
    var files' := files[k := f];
    AttachShape(dir, files, a.fds, k, i, f);
    hide FilesOk, FdsRel;
    forall j: nat | j < ENTRIES && dir[j].Used() ensures EntryRel(disk, dir, files', j, a.files[CStr(dir[j].name)]) {
      assert EntryRel(disk, dir, files, j, a.files[CStr(dir[j].name)]);
      if j != i { UnopenedExcept(files, files', k, j); } else { assert files'[k].used && files'[k].dirIndex == j; }
    }
  }

  lemma AttachShape(dir: Dir, files: seq<OpenFile>, fds: seq<Fd>, k: nat, i: nat, f: OpenFile)
    requires DirOk(dir) && FilesOk(dir, files) && FdsRel(dir, files, fds) && k < MAX_OPEN && !files[k].used
    requires i < ENTRIES && dir[i].Used() && Unopened(files, i)
    requires f.used && !f.dirty && f.dirIndex == i && f.size == dir[i].size
    requires f.startBlock == dir[i].startBlock && f.reservedBlocks == dir[i].reservedBlocks
    ensures FilesOk(dir, files[k := f])
    ensures FdsRel(dir, files[k := f], fds[k := Open(CStr(dir[i].name), f.pos, f.append)])
  {
    hide CStr;
    assert EntryOk(dir[i]);
    assert OpenOk(dir, f);
  }

  /** Descriptor `k` does not matter to an entry it is not open on. */
  lemma UnopenedExcept(files: seq<OpenFile>, files': seq<OpenFile>, k: nat, j: nat)
    requires k < |files| == |files'| && files' == files[k := files'[k]]
    requires files[k].used ==> files[k].dirIndex != j
    requires files'[k].used ==> files'[k].dirIndex != j
    ensures Unopened(files', j) <==> Unopened(files, j)
  {
    if !Unopened(files, j) {
      var l :| 0 <= l < |files| && files[l].used && files[l].dirIndex == j;
      assert files'[l] == files[l];
    }
  }

  /** Giving up a descriptor: the file falls back to the size in its entry. */
  lemma Detach(disk: Disk, dir: Dir, files: seq<OpenFile>, a: Fs, k: nat)
    requires Stands(disk, dir, files, a) && k < MAX_OPEN && files[k].used
    ensures files[k].dirIndex < ENTRIES && dir[files[k].dirIndex].Used() && CStr(dir[files[k].dirIndex].name) in a.files
    ensures Unopened(files[k := files[k].(used := false)], files[k].dirIndex)
    ensures var name := CStr(dir[files[k].dirIndex].name);
            Stands(disk, dir, files[k := files[k].(used := false)],
                   Fs(a.files[name := a.files[name].(size := dir[files[k].dirIndex].size)], a.fds[k := Closed]))
  {
    hide CStr, Extent;
    OpenFacts(disk, dir, files, a, k);
    var i := files[k].dirIndex;
    var files' := files[k := files[k].(used := false)];
    var name := CStr(dir[i].name);
    var fs' := a.files[name := a.files[name].(size := dir[i].size)];
    DetachShape(dir, files, a.fds, k);
    DetachEntries(disk, dir, files, a.files, k);
    hide EntriesRel, FilesOk, FdsRel, Unopened;
    assert fs'.Keys == a.files.Keys;
  }

  lemma DetachShape(dir: Dir, files: seq<OpenFile>, fds: seq<Fd>, k: nat)
    requires FilesOk(dir, files) && FdsRel(dir, files, fds) && k < MAX_OPEN && files[k].used
    ensures FilesOk(dir, files[k := files[k].(used := false)])
            && FdsRel(dir, files[k := files[k].(used := false)], fds[k := Closed])
    ensures Unopened(files[k := files[k].(used := false)], files[k].dirIndex)
  {
    hide CStr;
  }

  lemma DetachEntries(disk: Disk, dir: Dir, files: seq<OpenFile>, fs: map<seq<byte>, File>, k: nat)
    requires DirOk(dir) && FilesOk(dir, files) && EntriesRel(disk, dir, files, fs) && k < MAX_OPEN && files[k].used
    ensures var i := files[k].dirIndex;
            && i < ENTRIES && dir[i].Used() && CStr(dir[i].name) in fs
            && EntriesRel(disk, dir, files[k := files[k].(used := false)],
                          fs[CStr(dir[i].name) := fs[CStr(dir[i].name)].(size := dir[i].size)])
  {
    hide CStr, Extent;
    assert OpenOk(dir, files[k]);
    var i := files[k].dirIndex;
    var files' := files[k := files[k].(used := false)];
    var fs' := fs[CStr(dir[i].name) := fs[CStr(dir[i].name)].(size := dir[i].size)];
    assert Unopened(files', i);
    forall j: nat | j < ENTRIES && dir[j].Used()
      ensures CStr(dir[j].name) in fs' && EntryRel(disk, dir, files', j, fs'[CStr(dir[j].name)]) {
      assert EntryRel(disk, dir, files, j, fs[CStr(dir[j].name)]);
      if j != i {
        DistinctNames(dir, i, j);
        UnopenedExcept(files, files', k, j);
      }
    }
  }

  /** Block numbers are left for `n` more files behind the last extent. */
  ghost predicate RoomFor(dir: Dir, n: nat) {
    n + 1 < MAX_BLOCKS && forall i :: 0 <= i < ENTRIES && dir[i].Used() ==>
      dir[i].startBlock + dir[i].reservedBlocks + n <= MAX_BLOCKS
  }

  // Counting

  ghost predicate HasNameBelow(dir: Dir, n: nat, x: seq<byte>) {
    exists i: nat :: i < n && HasName(dir, i, x)
  }

  lemma HasNameStep(dir: Dir, n: nat, x: seq<byte>)
    requires 0 < n <= ENTRIES
    ensures HasNameBelow(dir, n, x) <==> HasNameBelow(dir, n - 1, x) || HasName(dir, n - 1, x)
  {
    hide CStr;
    if HasNameBelow(dir, n, x) {
      var i: nat :| i < n && HasName(dir, i, x);
      if i < n - 1 { assert HasNameBelow(dir, n - 1, x); }
    }
    if HasNameBelow(dir, n - 1, x) {
      var i: nat :| i < n - 1 && HasName(dir, i, x);
      assert i < n && HasName(dir, i, x);
    }
  }

  ghost function NamesUpTo(dir: Dir, n: nat): set<seq<byte>>
    requires n <= ENTRIES
  {
    if n == 0 then {} else NamesUpTo(dir, n - 1) + if dir[n - 1].Used() then {CStr(dir[n - 1].name)} else {}
  }

  lemma {:induction false} NamesUpToMembers(dir: Dir, n: nat, x: seq<byte>)
    requires n <= ENTRIES
    ensures x in NamesUpTo(dir, n) <==> HasNameBelow(dir, n, x)
  {
    hide CStr;
    if n > 0 {
      NamesUpToMembers(dir, n - 1, x);
      HasNameStep(dir, n, x);
    }
  }

  /** Distinct names: one more used entry, one more name. */
  lemma NewName(dir: Dir, n: nat)
    requires DirOk(dir) && n < ENTRIES && dir[n].Used()
    ensures CStr(dir[n].name) !in NamesUpTo(dir, n)
  {
    hide CStr;
    var x := CStr(dir[n].name);
    NamesUpToMembers(dir, n, x);
    forall i: nat | i < n ensures !HasName(dir, i, x) {
      if dir[i].Used() { DistinctNames(dir, i, n); }
    }
  }

  lemma {:induction false} NamesUpToCount(dir: Dir, n: nat)
    requires DirOk(dir) && n <= ENTRIES
    ensures |NamesUpTo(dir, n)| <= n
    ensures |NamesUpTo(dir, n)| == n <==> forall i :: 0 <= i < n ==> dir[i].Used()
  {
    hide CStr, DirOk;
    if n > 0 {
      NamesUpToCount(dir, n - 1);
      if dir[n - 1].Used() { NewName(dir, n - 1); }
    }
  }

  /** The directory is full exactly when the map holds 64 files. */
  lemma FullDirectory(disk: Disk, dir: Dir, files: seq<OpenFile>, a: Fs)
    requires Stands(disk, dir, files, a)
    ensures |a.files| >= ENTRIES <==> forall i :: 0 <= i < ENTRIES ==> dir[i].Used()
  {
    hide CStr, Stands;
    StandsDir(disk, dir, files, a);
    NamesUpToCount(dir, ENTRIES);
    forall x ensures x in a.files.Keys <==> x in NamesUpTo(dir, ENTRIES) {
      NamesUpToMembers(dir, ENTRIES, x);
      NamedIffUsed(disk, dir, files, a, x);
    }
    assert a.files.Keys == NamesUpTo(dir, ENTRIES);
  }

  lemma NamedIffUsed(disk: Disk, dir: Dir, files: seq<OpenFile>, a: Fs, x: seq<byte>)
    requires Stands(disk, dir, files, a)
    ensures x in a.files <==> HasNameBelow(dir, ENTRIES, x)
  {
    hide CStr;
    if x in a.files {
      var i: nat :| HasName(dir, i, x);
      assert i < ENTRIES && HasName(dir, i, x);
    }
    forall i: nat | HasName(dir, i, x) ensures x in a.files { NameFacts(disk, dir, files, a, i); }
  }

  // The map a directory stands for when nothing is open

  ghost function FsUpTo(disk: Disk, dir: Dir, n: nat): map<seq<byte>, File>
    requires n <= ENTRIES
  {
    if n == 0 then map[]
    else if !dir[n - 1].Used() then FsUpTo(disk, dir, n - 1)
    else FsUpTo(disk, dir, n - 1)[CStr(dir[n - 1].name) := File(Extent(disk, dir[n - 1]), dir[n - 1].size)]
  }

  lemma {:induction false} FsUpToNames(disk: Disk, dir: Dir, n: nat, x: seq<byte>)
    requires n <= ENTRIES
    ensures x in FsUpTo(disk, dir, n) <==> HasNameBelow(dir, n, x)
  {
    hide CStr, Extent;
    if n > 0 {
      FsUpToNames(disk, dir, n - 1, x);
      HasNameStep(dir, n, x);
    }
  }

  lemma {:induction false} FsUpToAt(disk: Disk, dir: Dir, n: nat, i: nat)
    requires DirOk(dir) && i < n <= ENTRIES && dir[i].Used()
    ensures CStr(dir[i].name) in FsUpTo(disk, dir, n)
            && FsUpTo(disk, dir, n)[CStr(dir[i].name)] == File(Extent(disk, dir[i]), dir[i].size)
  {
    hide CStr, Extent, DirOk;
    if i < n - 1 {
      FsUpToAt(disk, dir, n - 1, i);
      if dir[n - 1].Used() { DistinctNames(dir, i, n - 1); }
    }
  }

  /** A sound directory with nothing open stands for its contents. */
  lemma MountStands(disk: Disk, dir: Dir, files: seq<OpenFile>, fds: seq<Fd>)
    requires DirOk(dir) && |files| == |fds| == MAX_OPEN
    requires forall k :: 0 <= k < MAX_OPEN ==> !files[k].used && fds[k] == Closed
    ensures Stands(disk, dir, files, Fs(FsUpTo(disk, dir, ENTRIES), fds))
  {
    hide CStr, Extent, FsUpTo;
    var m := FsUpTo(disk, dir, ENTRIES);
    forall n | n in m.Keys ensures exists i :: HasName(dir, i, n) {
      FsUpToNames(disk, dir, ENTRIES, n);
    }
    forall i: nat | i < ENTRIES && dir[i].Used()
      ensures CStr(dir[i].name) in m && EntryRel(disk, dir, files, i, m[CStr(dir[i].name)]) {
      FsUpToAt(disk, dir, ENTRIES, i);
    }
  }

  /** A disk that holds `m` has the bytes of every file, and the size of every file that is not open. */
  ghost predicate OnDisk(a: Fs, m: map<seq<byte>, File>) {
    && m.Keys == a.files.Keys
    && forall n :: n in a.files ==> m[n].bytes == a.files[n].bytes && (Idle(a, n) ==> m[n] == a.files[n])
  }

  /** The disk has all files, but for the sizes of those that are open. */
  lemma StandsOnDisk(disk: Disk, dir: Dir, files: seq<OpenFile>, a: Fs)
    requires Stands(disk, dir, files, a)
    ensures OnDisk(a, FsUpTo(disk, dir, ENTRIES))
  {
    hide CStr, Extent, FsUpTo, Stands;
    var m := FsUpTo(disk, dir, ENTRIES);
    StandsDir(disk, dir, files, a);
    forall n ensures n in a.files <==> n in m {
      FsUpToNames(disk, dir, ENTRIES, n);
      NamedIffUsed(disk, dir, files, a, n);
    }
    forall n | n in a.files ensures m[n].bytes == a.files[n].bytes && (Idle(a, n) ==> m[n] == a.files[n]) {
      NamedIffUsed(disk, dir, files, a, n);
      var i: nat :| i < ENTRIES && HasName(dir, i, n);
      NameFacts(disk, dir, files, a, i);
      FsUpToAt(disk, dir, ENTRIES, i);
    }
  }

  /** With every descriptor closed, the map is exactly what the disk holds. */
  lemma ClosedIsOnDisk(a: Fs, m: map<seq<byte>, File>)
    requires OnDisk(a, m) && forall k :: 0 <= k < |a.fds| ==> a.fds[k].Closed?
    ensures a.files == m
  {
    assert forall n :: n in a.files ==> Idle(a, n);
  }
}
