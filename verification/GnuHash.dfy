/** Symbol lookup through a DT_GNU_HASH table: Bloom filter, buckets and hash chains against a
    plain scan of the symbol table. */
module GnuHash {
  import opened Octets
  import opened Bits

  datatype Option<T> = None | Some(value: T)

  /** A dynamic symbol: its name, and whether its version is hidden (a negative versym entry). */
  datatype Symbol = Symbol(name: seq<byte>, hidden: bool)

  const U32 := 0x1_0000_0000

  ghost function Power(b: nat, e: nat): nat {
    if e == 0 then 1 else b * Power(b, e - 1)
  }

  /** The bytes as digits to the base 33. */
  ghost function Digits(s: seq<byte>): nat {
    if s == [] then 0 else s[0] * Power(33, |s| - 1) + Digits(s[1..])
  }

  /** The hash of the GNU hash table format: a number to the base 33 behind the digit 5381, modulo 2^32. */
  ghost function Hash(s: seq<byte>): (r: nat)
    ensures r < U32
  {
    (5381 * Power(33, |s|) + Digits(s)) % U32
  }

  lemma {:induction false} DigitsSnoc(s: seq<byte>, c: byte)
    ensures Digits(s + [c]) == 33 * Digits(s) + c
  {
    if s == [] {
      assert s + [c] == [c] && [c][1..] == [];
    } else {
      DigitsSnoc(s[1..], c);
      assert (s + [c])[1..] == s[1..] + [c];
      var x, q := s[0] as int, Power(33, |s| - 1);
      assert Power(33, |s|) == 33 * q;
      assert x * (33 * q) == 33 * (x * q);
    }
  }

  lemma ModStep(x: nat, c: nat)
    ensures (33 * (x % U32) + c) % U32 == (33 * x + c) % U32
  {
    var q, r := x / U32, x % U32;
    assert 33 * x + c == 33 * r + c + (33 * q) * U32;
    ModAdd(33 * r + c, 33 * q);
  }

  lemma {:induction false} ModAdd(a: nat, k: nat)
    ensures (a + k * U32) % U32 == a % U32
  {
    if k > 0 {
      ModAdd(a, k - 1);
      assert a + k * U32 == (a + (k - 1) * U32) + U32;
    }
  }

  lemma HashSnoc(s: seq<byte>, c: byte)
    ensures Hash([]) == 5381 && Hash(s + [c]) == (33 * Hash(s) + c) % U32
  {
    DigitsSnoc(s, c);
    var x := 5381 * Power(33, |s|) + Digits(s);
    assert 5381 * Power(33, |s| + 1) == 33 * (5381 * Power(33, |s|));
    ModStep(x, c);
  }

  /** Values that every link editor computes: the hashes of "a" and "exit". */
  lemma KnownHashes()
    ensures Hash([97]) == 177670 && Hash([101, 120, 105, 116]) == 0x7c96_7e3f
  {
    hide Hash;
    var e, ex, exi := [101], [101, 120], [101, 120, 105];
    HashSnoc([], 97);
    HashSnoc([], 101);
    HashSnoc(e, 120);
    HashSnoc(ex, 105);
    HashSnoc(exi, 116);
    assert [] + [97] == [97] && [] + [101] == e && e + [120] == ex && ex + [105] == exi;
    assert exi + [116] == [101, 120, 105, 116];
  }

  /** gnu_hash. */
  method GnuHash(s: seq<byte>) returns (h: nat)
    ensures h == (5381 * Power(33, |s|) + Digits(s)) % U32
  {
    h := 5381;
    var i := 0;
    HashSnoc([], 0);
    hide Hash;
    while i < |s|
      invariant i <= |s| && h == Hash(s[..i])
    {
      HashSnoc(s[..i], s[i]);
      assert s[..i + 1] == s[..i] + [s[i]];
      h := (h + h * 32 + s[i]) % U32;
      i := i + 1;
    }
    assert s[..i] == s;
    HashIs(s);
  }

  lemma HashIs(s: seq<byte>)
    ensures Hash(s) == (5381 * Power(33, |s|) + Digits(s)) % U32
  {}

  // The table, 32-bit words: bucket count, index of the first hashed symbol, Bloom filter size and shift, then
  // the filter in 64-bit words with the low half first, the buckets and the chain of hash values.

  /** The bucket number of symbol `i`. */
  ghost function BucketOf(t: seq<nat>, syms: seq<Symbol>, i: nat): nat
    requires |t| >= 4 && t[0] > 0 && i < |syms|
  {
    Hash(syms[i].name) % t[0]
  }

  ghost predicate Shape(t: seq<nat>, syms: seq<Symbol>) {
    && |t| >= 4 && t[0] > 0 && 0 < t[1] <= |syms| && t[3] < 32
    && (exists k: nat :: t[2] == Pow2(k))
    && |t| == 4 + 2 * t[2] + t[0] + (|syms| - t[1])
    && (forall i :: 0 <= i < |t| ==> t[i] < U32)
  }

  /** What bucket `b` names. */
  ghost function First(t: seq<nat>, b: nat): nat
    requires |t| >= 4 && b < t[0] && 4 + 2 * t[2] + t[0] <= |t|
  {
    t[4 + 2 * t[2] + b]
  }

  /** The hash value stored for symbol `i`. */
  ghost function Stored(t: seq<nat>, syms: seq<Symbol>, i: nat): nat
    requires Shape(t, syms) && t[1] <= i < |syms|
  {
    t[4 + 2 * t[2] + t[0] + (i - t[1])]
  }

  /** Bit `b` of the filter word that belongs to `w`. */
  ghost predicate FilterBit(t: seq<nat>, syms: seq<Symbol>, w: nat, b: nat)
    requires Shape(t, syms) && b < 64
  {
    Bit(t[4 + 2 * (w % t[2]) + b / 32], b % 32)
  }

  ghost predicate NoneIn(t: seq<nat>, syms: seq<Symbol>, b: nat, lo: nat, hi: nat)
    requires |t| >= 4 && t[0] > 0 && hi <= |syms|
  {
    forall i :: lo <= i < hi ==> BucketOf(t, syms, i) != b
  }

  /** Hashed symbols are sorted by bucket, and each bucket names its first symbol or 0. */
  ghost predicate BucketsOk(t: seq<nat>, syms: seq<Symbol>)
    requires Shape(t, syms)
  {
    && (forall i, j :: t[1] <= i <= j < |syms| ==> BucketOf(t, syms, i) <= BucketOf(t, syms, j))
    && (forall b: nat :: b < t[0] ==>
          if First(t, b) == 0 then NoneIn(t, syms, b, t[1], |syms|)
          else
            && t[1] <= First(t, b) < |syms| && BucketOf(t, syms, First(t, b)) == b
            && NoneIn(t, syms, b, t[1], First(t, b)))
  }

  /** A chain entry is the hash with its low bit telling whether the symbol is the last of its bucket. */
  ghost predicate EntryOk(t: seq<nat>, syms: seq<Symbol>, i: nat)
    requires Shape(t, syms) && t[1] <= i < |syms|
  {
    var h := Stored(t, syms, i);
    && h / 2 == Hash(syms[i].name) / 2
    && (h % 2 == 1 <==> i + 1 == |syms| || BucketOf(t, syms, i + 1) != BucketOf(t, syms, i))
  }

  ghost predicate ChainOk(t: seq<nat>, syms: seq<Symbol>)
    requires Shape(t, syms)
  {
    forall i: nat :: t[1] <= i < |syms| ==> EntryOk(t, syms, i)
  }

  /** The filter has both bits of every hashed symbol. */
  ghost predicate BloomOk(t: seq<nat>, syms: seq<Symbol>)
    requires Shape(t, syms)
  {
    forall i :: t[1] <= i < |syms| ==>
      var h := Hash(syms[i].name);
      FilterBit(t, syms, h / 64, h % 64) && FilterBit(t, syms, h / 64, (h / Pow2(t[3])) % 64)
  }

  ghost predicate WellFormed(t: seq<nat>, syms: seq<Symbol>) {
    Shape(t, syms) && BucketsOk(t, syms) && ChainOk(t, syms) && BloomOk(t, syms)
  }

  // The reference

  predicate Matches(sym: Symbol, s: seq<byte>) {
    !sym.hidden && sym.name == s
  }

  /** `r` is the lowest hashed symbol with that name and a visible version, or None when there is none. */
  ghost predicate IsFirst(syms: seq<Symbol>, from: nat, s: seq<byte>, r: Option<nat>) {
    match r
    case None => forall i :: from <= i < |syms| ==> !Matches(syms[i], s)
    case Some(k) => from <= k < |syms| && Matches(syms[k], s) && forall i :: from <= i < k ==> !Matches(syms[i], s)
  }

  function OrOne(h: nat): nat {
    h - h % 2 + 1
  }

  lemma NoneMatches(t: seq<nat>, syms: seq<Symbol>, s: seq<byte>, lo: nat, hi: nat)
    requires |t| >= 4 && t[0] > 0 && hi <= |syms| && NoneIn(t, syms, Hash(s) % t[0], lo, hi)
    ensures forall i :: lo <= i < hi ==> !Matches(syms[i], s)
  {
    forall i | lo <= i < hi ensures !Matches(syms[i], s) {
      assert BucketOf(t, syms, i) != Hash(s) % t[0];
    }
  }

  /** Behind the last symbol of a bucket there is none of that bucket. */
  lemma NoneBehind(t: seq<nat>, syms: seq<Symbol>, i: nat)
    requires WellFormed(t, syms) && t[1] <= i < |syms| && Stored(t, syms, i) % 2 == 1
    ensures NoneIn(t, syms, BucketOf(t, syms, i), i + 1, |syms|)
  {
    assert EntryOk(t, syms, i);
    forall j | i + 1 <= j < |syms| ensures BucketOf(t, syms, j) != BucketOf(t, syms, i) {
      assert BucketOf(t, syms, i) <= BucketOf(t, syms, i + 1) <= BucketOf(t, syms, j);
    }
  }

  lemma ChainFacts(t: seq<nat>, syms: seq<Symbol>, i: nat)
    requires WellFormed(t, syms) && t[1] <= i < |syms|
    ensures var h := Stored(t, syms, i);
            && OrOne(h) == OrOne(Hash(syms[i].name))
            && (h % 2 == 0 ==> i + 1 < |syms| && BucketOf(t, syms, i + 1) == BucketOf(t, syms, i))
  {
    var h, g := Stored(t, syms, i), Hash(syms[i].name);
    assert EntryOk(t, syms, i);
    assert OrOne(h) == 2 * (h / 2) + 1 && OrOne(g) == 2 * (g / 2) + 1;
  }

  lemma StoredAt(t: seq<nat>, syms: seq<Symbol>)
    requires Shape(t, syms)
    ensures forall i :: t[1] <= i < |syms| ==>
              4 + t[2] * 2 + t[0] + (i - t[1]) < |t| && t[4 + t[2] * 2 + t[0] + (i - t[1])] == Stored(t, syms, i)
  {}

  /** gnu_lookup: walk the chain of the bucket of `s`. */
  method Lookup(h1: nat, t: seq<nat>, syms: seq<Symbol>, s: seq<byte>) returns (r: Option<nat>)
    requires WellFormed(t, syms) && h1 == Hash(s)
    ensures IsFirst(syms, t[1], s, r)
  {
    hide Hash;
    var b := h1 % t[0];
    var buckets := 4 + t[2] * 2;
    var i := t[buckets + b];
    assert i == First(t, b);
    if i == 0 {
      NoneMatches(t, syms, s, t[1], |syms|);
      return None;
    }
    NoneMatches(t, syms, s, t[1], i);
    var hashval := buckets + t[0] + (i - t[1]);
    StoredAt(t, syms);
    hide *;
    while true
      invariant t[1] <= i < |syms| && hashval == buckets + t[0] + (i - t[1]) && BucketOf(t, syms, i) == Hash(s) % t[0]
      invariant forall j :: t[1] <= j < i ==> !Matches(syms[j], s)
      decreases |syms| - i
    {
      ChainFacts(t, syms, i);
      var h2 := t[hashval];
      hashval := hashval + 1;
      if OrOne(h1) == OrOne(h2) && Matches(syms[i], s) {
        return Some(i);
      }
      if h2 % 2 == 1 {
        NoneBehind(t, syms, i);
        NoneMatches(t, syms, s, i + 1, |syms|);
        return None;
      }
      i := i + 1;
    }
  }

  lemma NotFiltered(t: seq<nat>, syms: seq<Symbol>, s: seq<byte>, w: nat, b: nat, c: nat)
    requires WellFormed(t, syms) && w == Hash(s) / 64 && b == Hash(s) % 64 && c == Shr(Hash(s), t[3]) % 64
    ensures !FilterBit(t, syms, w, b) || !FilterBit(t, syms, w, c) ==> IsFirst(syms, t[1], s, None)
  {
    hide Hash, Shr;
    ShrDiv(Hash(s), t[3]);
  }

  /** The bits of a 64-bit word made of two 32-bit ones. */
  lemma WordBit(lo: nat, hi: nat, b: nat)
    requires lo < U32 && b < 64
    ensures Bit(lo + U32 * hi, b) <==> if b < 32 then Bit(lo, b) else Bit(hi, b - 32)
  {
    hide Pow2, Bit;
    Pow2At8();
    Pow2Add(8, 8);
    Pow2Add(16, 16);
    BitSplit(lo, hi, 32, b);
  }

  lemma {:induction false} BitSplit(lo: nat, hi: nat, k: nat, b: nat)
    requires lo < Pow2(k)
    ensures Bit(lo + Pow2(k) * hi, b) <==> if b < k then Bit(lo, b) else Bit(hi, b - k)
    decreases k
  {
    if k > 0 {
      var p := Pow2(k - 1);
      assert Pow2(k) * hi == 2 * (p * hi);
      assert (lo + 2 * (p * hi)) / 2 == lo / 2 + p * hi && (lo + 2 * (p * hi)) % 2 == lo % 2;
      if b > 0 { BitSplit(lo / 2, hi, k - 1, b - 1); }
    }
  }

  lemma HalfDiv(x: nat, p: nat)
    requires p > 0
    ensures (x / 2) / p == x / (2 * p)
  {
    var q, r := (x / 2) / p, (x / 2) % p;
    assert x / 2 == q * p + r;
    assert q * (2 * p) == 2 * (q * p);
    DivModUnique(x, 2 * p, q, 2 * r + x % 2);
  }

  lemma {:induction false} ShrDiv(x: nat, k: nat)
    ensures Shr(x, k) == x / Pow2(k)
    decreases k
  {
    if k > 0 {
      ShrDiv(x / 2, k - 1);
      HalfDiv(x, Pow2(k - 1));
    }
  }

  /** Bit `b` of a word that is stored with its low half first. */
  predicate HalfBit(lo: nat, hi: nat, b: nat) {
    if b < 32 then Bit(lo, b) else Bit(hi, b - 32)
  }

  lemma HalfTests(lo: nat, hi: nat, b: nat, c: nat)
    requires lo < U32 && b < 64 && c < 64
    ensures And(lo + U32 * hi, Pow2(b)) != 0 <==> HalfBit(lo, hi, b)
    ensures Shr(lo + U32 * hi, c) % 2 == 1 <==> HalfBit(lo, hi, c)
  {
    hide Pow2, And, Bit, Shr;
    AndBit(lo + U32 * hi, b);
    ShrBit(lo + U32 * hi, c);
    WordBit(lo, hi, b);
    WordBit(lo, hi, c);
  }

  lemma FilterHalves(t: seq<nat>, syms: seq<Symbol>, w: nat, b: nat)
    requires Shape(t, syms) && b < 64
    ensures t[2] > 0
    ensures var i := And(w, t[2] - 1);
            && 4 + 2 * i + 1 < |t| && t[4 + 2 * i] < U32
            && (FilterBit(t, syms, w, b) <==> HalfBit(t[4 + 2 * i], t[4 + 2 * i + 1], b))
  {
    var k: nat :| t[2] == Pow2(k);
    hide Bit, Pow2, And;
    AndMask(w, k);
  }

  lemma HasShape(t: seq<nat>, syms: seq<Symbol>)
    requires WellFormed(t, syms)
    ensures Shape(t, syms) && |t| >= 4
  {}

  /** The two tests of gnu_lookup_filtered are those of the format, so one that fails tells that there is no symbol. */
  lemma FilterTests(t: seq<nat>, syms: seq<Symbol>, s: seq<byte>, w: nat, b: nat, c: nat)
    requires WellFormed(t, syms) && w == Hash(s) / 64 && b == Hash(s) % 64 && c == Shr(Hash(s), t[3]) % 64
    ensures t[2] > 0 && 4 + 2 * And(w, t[2] - 1) + 1 < |t|
    ensures var i := And(w, t[2] - 1);
            var f := t[4 + 2 * i] + U32 * t[4 + 2 * i + 1];
            And(f, Pow2(b)) == 0 || Shr(f, c) % 2 == 0 ==> IsFirst(syms, t[1], s, None)
  {
    hide *;
    HasShape(t, syms);
    NotFiltered(t, syms, s, w, b, c);
    FilterHalves(t, syms, w, b);
    FilterHalves(t, syms, w, c);
    var i := And(w, t[2] - 1);
    HalfTests(t[4 + 2 * i], t[4 + 2 * i + 1], b, c);
  }

  /** gnu_lookup_filtered: the Bloom filter never hides a symbol that is there. */
  method LookupFiltered(h1: nat, t: seq<nat>, syms: seq<Symbol>, s: seq<byte>, fofs: nat, fmask: nat)
      returns (r: Option<nat>)
    requires WellFormed(t, syms) && h1 == Hash(s)
    requires fofs == h1 / 64 && fmask == Pow2(h1 % 64)
    ensures IsFirst(syms, t[1], s, r)
  {
    hide *;
    HasShape(t, syms);
    FilterTests(t, syms, s, fofs, h1 % 64, Shr(h1, t[3]) % 64);
    var i := And(fofs, t[2] - 1);
    var f := t[4 + 2 * i] + U32 * t[4 + 2 * i + 1];
    if And(f, fmask) == 0 {
      return None;
    }
    f := Shr(f, Shr(h1, t[3]) % 64);
    if f % 2 == 0 {
      return None;
    }
    r := Lookup(h1, t, syms, s);
  }
}
