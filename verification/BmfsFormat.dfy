/** The BMFS directory: 64 entries of 64 bytes in sector 1, kept in memory as the same bytes. */
module BmfsFormat {
  import opened Octets
  import opened BmfsDisk

  const ENTRIES := 64
  const ENTRY_BYTES := 64
  const NAME_BYTES := 32
  const DIR_SECTOR := 1

  type u64 = x: int | 0 <= x < 0x1_0000_0000_0000_0000

  type NameField = s: seq<byte> | |s| == NAME_BYTES witness seq(NAME_BYTES, _ => 0)

  datatype Dirent = Dirent(name: NameField, startBlock: u64, reservedBlocks: u64, size: u64, unused: u64) {
    /** An entry whose name is empty is free. */
    predicate Used() { name[0] != 0 }
  }

  type Dir = d: seq<Dirent> | |d| == ENTRIES witness seq(ENTRIES, _ => EMPTY_ENTRY)

  const EMPTY_ENTRY := Dirent(seq(NAME_BYTES, _ => 0), 0, 0, 0, 0)

  // Little-endian numbers

  function Digits(x: nat, n: nat): (r: seq<byte>)
    ensures |r| == n
  {
    if n == 0 then [] else [x % 256] + Digits(x / 256, n - 1)
  }

  function Number(s: seq<byte>): nat {
    if s == [] then 0 else s[0] + 256 * Number(s[1..])
  }

  function Pow256(n: nat): (p: nat)
    ensures p > 0
  {
    if n == 0 then 1 else 256 * Pow256(n - 1)
  }

  lemma {:induction false} NumberOfDigits(x: nat, n: nat)
    requires x < Pow256(n)
    ensures Number(Digits(x, n)) == x
    decreases n
  {
    if n > 0 {
      NumberOfDigits(x / 256, n - 1);
      assert Digits(x, n)[1..] == Digits(x / 256, n - 1);
    }
  }

  lemma {:induction false} DigitsOfNumber(s: seq<byte>)
    ensures Number(s) < Pow256(|s|) && Digits(Number(s), |s|) == s
  {
    if s != [] {
      DigitsOfNumber(s[1..]);
      assert s == [s[0]] + s[1..];
    }
  }

  lemma Pow256At8()
    ensures Pow256(8) == 0x1_0000_0000_0000_0000
  {
    assert Pow256(4) == 0x1_0000_0000;
  }

  // Entries

  function EncodeEntry(e: Dirent): (r: seq<byte>)
    ensures |r| == ENTRY_BYTES
  {
    e.name + Digits(e.startBlock, 8) + Digits(e.reservedBlocks, 8) + Digits(e.size, 8) + Digits(e.unused, 8)
  }

  function Word(b: seq<byte>, at: nat): (r: u64)
    requires at + 8 <= |b|
  {
    DigitsOfNumber(b[at..at + 8]);
    Pow256At8();
    Number(b[at..at + 8])
  }

  function DecodeEntry(b: seq<byte>): Dirent
    requires |b| == ENTRY_BYTES
  {
    Dirent(b[..32], Word(b, 32), Word(b, 40), Word(b, 48), Word(b, 56))
  }

  lemma Slices(n: seq<byte>, s: seq<byte>, r: seq<byte>, z: seq<byte>, u: seq<byte>)
    requires |n| == 32 && |s| == |r| == |z| == |u| == 8
    ensures var b := n + s + r + z + u;
            b[..32] == n && b[32..40] == s && b[40..48] == r && b[48..56] == z && b[56..64] == u
  {}

  lemma DecodeOfEncodeEntry(e: Dirent)
    ensures DecodeEntry(EncodeEntry(e)) == e
  {
    Pow256At8();
    NumberOfDigits(e.startBlock, 8);
    NumberOfDigits(e.reservedBlocks, 8);
    NumberOfDigits(e.size, 8);
    NumberOfDigits(e.unused, 8);
    hide Digits, Number;
    Slices(e.name, Digits(e.startBlock, 8), Digits(e.reservedBlocks, 8), Digits(e.size, 8), Digits(e.unused, 8));
  }

  lemma EncodeOfDecodeEntry(b: seq<byte>)
    requires |b| == ENTRY_BYTES
    ensures EncodeEntry(DecodeEntry(b)) == b
  {
    DigitsOfNumber(b[32..40]);
    DigitsOfNumber(b[40..48]);
    DigitsOfNumber(b[48..56]);
    DigitsOfNumber(b[56..64]);
    assert b == b[..32] + b[32..40] + b[40..48] + b[48..56] + b[56..64];
  }

  // The table

  function EncodeEntries(d: seq<Dirent>): (r: seq<byte>)
    ensures |r| == ENTRY_BYTES * |d|
  {
    if d == [] then [] else EncodeEntry(d[0]) + EncodeEntries(d[1..])
  }

  function DecodeEntries(b: seq<byte>, n: nat): (r: seq<Dirent>)
    requires |b| == ENTRY_BYTES * n
    ensures |r| == n
    decreases n
  {
    if n == 0 then [] else [DecodeEntry(b[..ENTRY_BYTES])] + DecodeEntries(b[ENTRY_BYTES..], n - 1)
  }

  function EncodeDir(d: Dir): Sector {
    EncodeEntries(d)
  }

  function DecodeDir(s: Sector): Dir {
    DecodeEntries(s, ENTRIES)
  }

  lemma {:induction false} DecodeOfEncodeEntries(d: seq<Dirent>)
    ensures DecodeEntries(EncodeEntries(d), |d|) == d
  {
    if d != [] {
      var b := EncodeEntries(d);
      DecodeOfEncodeEntry(d[0]);
      DecodeOfEncodeEntries(d[1..]);
      assert b[..ENTRY_BYTES] == EncodeEntry(d[0]) && b[ENTRY_BYTES..] == EncodeEntries(d[1..]);
      assert d == [d[0]] + d[1..];
    }
  }

  lemma {:induction false} EncodeOfDecodeEntries(b: seq<byte>, n: nat)
    requires |b| == ENTRY_BYTES * n
    ensures EncodeEntries(DecodeEntries(b, n)) == b
    decreases n
  {
    if n > 0 {
      EncodeOfDecodeEntry(b[..ENTRY_BYTES]);
      EncodeOfDecodeEntries(b[ENTRY_BYTES..], n - 1);
      var d := DecodeEntries(b, n);
      assert d[1..] == DecodeEntries(b[ENTRY_BYTES..], n - 1);
      assert b == b[..ENTRY_BYTES] + b[ENTRY_BYTES..];
    }
  }

  /** Flushing the directory and loading it again loses nothing. */
  lemma DirRoundTrip(d: Dir)
    ensures DecodeDir(EncodeDir(d)) == d
  {
    DecodeOfEncodeEntries(d);
  }

  /** Loading a directory and flushing it again writes back the same sector. */
  lemma SectorRoundTrip(s: Sector)
    ensures EncodeDir(DecodeDir(s)) == s
  {
    EncodeOfDecodeEntries(s, ENTRIES);
  }

  // Where everything is in the sector

  /** The 8 bytes from `at` on, least significant first. */
  ghost function LittleEndian(s: seq<byte>, at: nat): nat
    requires at + 8 <= |s|
  {
    var x: seq<int> := s[at..at + 8];
    x[0] + 0x100 * x[1] + 0x1_0000 * x[2] + 0x100_0000 * x[3] + 0x1_0000_0000 * x[4]
    + 0x100_0000_0000 * x[5] + 0x1_0000_0000_0000 * x[6] + 0x100_0000_0000_0000 * x[7]
  }

  lemma NumberStep(s: seq<byte>)
    requires s != []
    ensures Number(s) == s[0] + 256 * Number(s[1..])
  {}

  lemma {:induction false} WordIs(b: seq<byte>, at: nat)
    requires at + 8 <= |b|
    ensures Word(b, at) == LittleEndian(b, at)
  {
    hide Number;
    assert b[at + 8..at + 8] == [];
    NumberNone();
    NumberAt(b, at, 7);
    NumberAt(b, at, 6);
    NumberAt(b, at, 5);
    NumberAt(b, at, 4);
    NumberAt(b, at, 3);
    NumberAt(b, at, 2);
    NumberAt(b, at, 1);
    NumberAt(b, at, 0);
  }

  lemma NumberNone()
    ensures Number([]) == 0
  {}

  lemma NumberAt(b: seq<byte>, at: nat, i: nat)
    requires at + 8 <= |b| && i < 8
    ensures Number(b[at + i..at + 8]) == b[at + i] + 256 * Number(b[at + i + 1..at + 8])
  {
    NumberStep(b[at + i..at + 8]);
    assert b[at + i..at + 8][1..] == b[at + i + 1..at + 8];
  }

  lemma {:induction false} DecodeEntriesAt(b: seq<byte>, n: nat, i: nat)
    requires |b| == ENTRY_BYTES * n && i < n
    ensures DecodeEntries(b, n)[i] == DecodeEntry(b[64 * i..64 * i + 64])
    decreases n
  {
    if i > 0 {
      DecodeEntriesAt(b[ENTRY_BYTES..], n - 1, i - 1);
      assert b[ENTRY_BYTES..][64 * (i - 1)..64 * (i - 1) + 64] == b[64 * i..64 * i + 64];
    }
  }

  /** Entry `i` is at byte 64 * i: a name of 32 bytes, then the start block, the reserved blocks and the size. */
  lemma DirLayout(s: Sector, i: nat)
    requires i < ENTRIES
    ensures var e := DecodeDir(s)[i];
            && e.name == s[64 * i..64 * i + 0x20]
            && e.startBlock == LittleEndian(s, 64 * i + 0x20)
            && e.reservedBlocks == LittleEndian(s, 64 * i + 0x28)
            && e.size == LittleEndian(s, 64 * i + 0x30)
            && e.unused == LittleEndian(s, 64 * i + 0x38)
  {
    hide DecodeEntries, Word, LittleEndian;
    DecodeEntriesAt(s, ENTRIES, i);
    var b := s[64 * i..64 * i + 64];
    WordWithin(s, 64 * i, 0x20);
    WordWithin(s, 64 * i, 0x28);
    WordWithin(s, 64 * i, 0x30);
    WordWithin(s, 64 * i, 0x38);
    assert b[..32] == s[64 * i..64 * i + 32];
  }

  lemma WordWithin(s: seq<byte>, from: nat, at: nat)
    requires from + 64 <= |s| && at + 8 <= 64
    ensures Word(s[from..from + 64], at) == LittleEndian(s, from + at)
  {
    hide Word;
    WordIs(s[from..from + 64], at);
    var b, c := s[from..from + 64][at..at + 8], s[from + at..from + at + 8];
    forall j | 0 <= j < 8 ensures b[j] == c[j] {
      assert b[j] == s[from..from + 64][at + j] == s[from + (at + j)];
      assert c[j] == s[(from + at) + j];
    }
    assert b == c;
  }

  // Names

  /** A name field as a C string: up to its first zero, or all of it. */
  function CStr(s: seq<byte>): (r: seq<byte>)
    ensures |r| <= |s|
    ensures 0 !in r
    ensures forall i :: 0 <= i < |r| ==> r[i] == s[i]
    ensures |r| < |s| ==> s[|r|] == 0
  {
    if s == [] || s[0] == 0 then [] else [s[0]] + CStr(s[1..])
  }

  /** strncmp(field, name, 32) == 0, for a C string `name`. */
  predicate SameName(field: NameField, name: seq<byte>) {
    CStr(field) == if |name| > NAME_BYTES then name[..NAME_BYTES] else name
  }

  /** A name copied into a zeroed field. */
  function PadName(name: seq<byte>): (r: NameField)
    requires |name| <= NAME_BYTES
  {
    name + seq(NAME_BYTES - |name|, _ => 0)
  }

  lemma {:induction false} CStrOfPadded(name: seq<byte>, zeros: seq<byte>)
    requires 0 !in name && forall i :: 0 <= i < |zeros| ==> zeros[i] == 0
    ensures CStr(name + zeros) == name
  {
    if name == [] {
      assert name + zeros == zeros;
    } else {
      assert (name + zeros)[1..] == name[1..] + zeros;
      CStrOfPadded(name[1..], zeros);
    }
  }
}
