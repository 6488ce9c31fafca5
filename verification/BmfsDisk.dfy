/** The disk under BMFS: 4096-byte sectors, read and written whole, seen as one flat byte array. */
module BmfsDisk {
  import opened Octets

  const SECTOR := 4096
  const BLOCK := 512 * SECTOR

  type Sector = s: seq<byte> | |s| == SECTOR witness seq(SECTOR, _ => 0)

  /** A disk of any size; a sector never written reads as zeros. */
  type Disk = map<nat, Sector>

  function SectorAt(d: Disk, k: nat): Sector {
    if k in d then d[k] else seq(SECTOR, _ => 0)
  }

  function ByteAt(d: Disk, a: nat): byte {
    SectorAt(d, a / SECTOR)[a % SECTOR]
  }

  function Bytes(d: Disk, base: nat, n: nat): (r: seq<byte>)
    ensures |r| == n
  {
    seq<byte>(n, i requires 0 <= i < n => ByteAt(d, base + i))
  }

  /** `e` is `d` with `data` written from byte `base` on and every other byte as before. */
  ghost predicate Overwritten(d: Disk, e: Disk, base: nat, data: seq<byte>) {
    forall a: nat :: ByteAt(e, a) == if base <= a < base + |data| then data[a - base] else ByteAt(d, a)
  }

  /** Replace part of a byte sequence. */
  function Splice(s: seq<byte>, off: nat, data: seq<byte>): (r: seq<byte>)
    requires off + |data| <= |s|
    ensures |r| == |s|
    ensures forall i :: 0 <= i < |s| ==> r[i] == if off <= i < off + |data| then data[i - off] else s[i]
  {
    s[..off] + data + s[off + |data|..]
  }

  // Sector by sector

  /** Reading the part of one sector from `base` on gives those bytes. */
  lemma ReadChunk(d: Disk, base: nat, chunk: nat)
    requires base % SECTOR + chunk <= SECTOR
    ensures SectorAt(d, base / SECTOR)[base % SECTOR..base % SECTOR + chunk] == Bytes(d, base, chunk)
  {
    var part := SectorAt(d, base / SECTOR)[base % SECTOR..base % SECTOR + chunk];
    forall i | 0 <= i < chunk ensures part[i] == Bytes(d, base, chunk)[i] {
      SameSector(base, i);
    }
  }

  lemma SameSector(base: nat, i: nat)
    requires base % SECTOR + i < SECTOR
    ensures (base + i) / SECTOR == base / SECTOR && (base + i) % SECTOR == base % SECTOR + i
  {}

  lemma BytesConcat(d: Disk, base: nat, m: nat, n: nat)
    ensures Bytes(d, base, m) + Bytes(d, base + m, n) == Bytes(d, base, m + n)
  {}

  /** Writing a sector back with part of it replaced changes only those bytes of the disk. */
  lemma WriteChunk(d: Disk, base: nat, data: seq<byte>, sector: Sector)
    requires base % SECTOR + |data| <= SECTOR
    requires sector == Splice(SectorAt(d, base / SECTOR), base % SECTOR, data)
    ensures Overwritten(d, d[base / SECTOR := sector], base, data)
  {
    var e := d[base / SECTOR := sector];
    forall a: nat ensures ByteAt(e, a) == if base <= a < base + |data| then data[a - base] else ByteAt(d, a) {
      if a / SECTOR == base / SECTOR {
        assert ByteAt(e, a) == sector[a % SECTOR];
        assert a - base == a % SECTOR - base % SECTOR;
      }
    }
  }

  lemma OverwrittenNothing(d: Disk, base: nat)
    ensures Overwritten(d, d, base, [])
  {}

  lemma OverwrittenConcat(d: Disk, e: Disk, f: Disk, base: nat, a: seq<byte>, b: seq<byte>)
    requires Overwritten(d, e, base, a) && Overwritten(e, f, base + |a|, b)
    ensures Overwritten(d, f, base, a + b)
  {
    forall x: nat ensures ByteAt(f, x) == if base <= x < base + |a + b| then (a + b)[x - base] else ByteAt(d, x) {
      assert ByteAt(e, x) == if base <= x < base + |a| then a[x - base] else ByteAt(d, x);
    }
  }

  /** A region the write does not touch reads as before. */
  lemma BytesElsewhere(d: Disk, e: Disk, base: nat, data: seq<byte>, at: nat, n: nat)
    requires Overwritten(d, e, base, data) && (at + n <= base || base + |data| <= at)
    ensures Bytes(e, at, n) == Bytes(d, at, n)
  {
    forall i | 0 <= i < n ensures Bytes(e, at, n)[i] == Bytes(d, at, n)[i] {
      assert ByteAt(e, at + i) == ByteAt(d, at + i);
    }
  }

  /** A region that holds the write reads as before with the write spliced in. */
  lemma BytesSpliced(d: Disk, e: Disk, at: nat, n: nat, off: nat, data: seq<byte>)
    requires off + |data| <= n && Overwritten(d, e, at + off, data)
    ensures Bytes(e, at, n) == Splice(Bytes(d, at, n), off, data)
  {
    forall i | 0 <= i < n ensures Bytes(e, at, n)[i] == Splice(Bytes(d, at, n), off, data)[i] {
      assert ByteAt(e, at + i) == if at + off <= at + i < at + off + |data| then data[at + i - (at + off)]
             else ByteAt(d, at + i);
    }
  }

  lemma SectorIsBytes(d: Disk, k: nat)
    ensures SectorAt(d, k) == Bytes(d, k * SECTOR, SECTOR)
  {
    var s, t := SectorAt(d, k), Bytes(d, k * SECTOR, SECTOR);
    forall i | 0 <= i < SECTOR ensures s[i] == t[i] {
      assert (k * SECTOR + i) / SECTOR == k && (k * SECTOR + i) % SECTOR == i;
      assert t[i] == ByteAt(d, k * SECTOR + i);
    }
  }

  lemma SectorElsewhere(d: Disk, e: Disk, base: nat, data: seq<byte>, k: nat)
    requires Overwritten(d, e, base, data) && ((k + 1) * SECTOR <= base || base + |data| <= k * SECTOR)
    ensures SectorAt(e, k) == SectorAt(d, k)
  {
    SectorIsBytes(d, k);
    SectorIsBytes(e, k);
    BytesElsewhere(d, e, base, data, k * SECTOR, SECTOR);
  }
}
