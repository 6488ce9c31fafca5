/** The Internet checksum of section 1 of RFC 1071, and the arithmetic that lets it be
    computed in another byte order, in wider words and piece by piece. */
module OnesComplement {
  import opened Octets

  /** 16-bit addition with end-around carry. */
  function OnesAdd(a: nat, b: nat): nat {
    if a + b > 0xffff then a + b - 0xffff else a + b
  }

  /** The ones' complement sum of the octets paired to big-endian words, an odd last octet padded with zero. */
  function RfcSum(data: seq<byte>): (r: nat)
    ensures r <= 0xffff
  {
    if |data| == 0 then 0
    else if |data| == 1 then 256 * data[0] as int
    else OnesAdd(256 * data[0] as int + data[1] as int, RfcSum(data[2..]))
  }

  function RfcChecksum(data: seq<byte>): (r: nat)
    ensures r <= 0xffff
  {
    0xffff - RfcSum(data)
  }

  /** SWAP_BYTES_IN_WORD, and lwip_htons on a little-endian host. */
  function Swap(w: nat): (r: nat)
    ensures r <= 0xffff
  {
    (w % 256) * 256 + (w / 256) % 256
  }

  /** FOLD_U32T. */
  function Fold(u: nat): nat {
    u / 0x10000 + u % 0x10000
  }

  /** The 16-bit representative of a sum: 0 only for 0, otherwise in 1..0xffff and equal modulo 0xffff. */
  function Rep(n: nat): (r: nat)
    ensures r <= 0xffff
  {
    if n == 0 then 0 else (n - 1) % 0xffff + 1
  }

  /** The integer sum of the octets with weights 1 and 256 in turn; `odd` starts with 256. */
  function Weigh(data: seq<byte>, odd: bool): nat {
    if data == [] then 0
    else data[0] * (if odd then 256 else 1) + Weigh(data[1..], !odd)
  }

  // Representatives

  lemma RepUnique(n: nat, r: nat, k: int)
    requires 0 < n && 0 < r <= 0xffff && n == r + 0xffff * k
    ensures k >= 0 && Rep(n) == r
  {
    assert (n - 1) == (r - 1) + 0xffff * k;
    assert (n - 1) / 0xffff == k;
  }

  lemma RepShift(n: nat, k: nat)
    requires n > 0
    ensures Rep(n + 0xffff * k) == Rep(n)
  {
    var q := (n - 1) / 0xffff;
    assert n == Rep(n) + 0xffff * q;
    RepUnique(n + 0xffff * k, Rep(n), q + k);
  }

  lemma RepSplit(n: nat) returns (k: nat)
    ensures n == Rep(n) + 0xffff * k
  {
    k := if n == 0 then 0 else (n - 1) / 0xffff;
  }

  lemma RepSmall(n: nat)
    requires n <= 0xffff
    ensures Rep(n) == n
  {}

  lemma RepAdd(a: nat, b: nat)
    ensures Rep(Rep(a) + b) == Rep(a + b)
  {
    var k := RepSplit(a);
    if Rep(a) + b > 0 {
      RepShift(Rep(a) + b, k);
    }
  }

  lemma RepScale(a: nat)
    ensures Rep(256 * Rep(a)) == Rep(256 * a)
  {
    var k := RepSplit(a);
    if a > 0 {
      RepShift(256 * Rep(a), 256 * k);
    }
  }

  lemma RepFold(u: nat)
    ensures Rep(Fold(u)) == Rep(u)
  {
    if u > 0 {
      RepShift(Fold(u), u / 0x10000);
    }
  }

  lemma SwapIsScale(r: nat)
    requires r <= 0xffff
    ensures Swap(r) == Rep(256 * r)
  {
    var h, l := r / 256, r % 256;
    assert 256 * r == 256 * (256 * h + l) == (h + 256 * l) + 0xffff * h;
    if r > 0 {
      RepUnique(256 * r, h + 256 * l, h);
    }
  }

  lemma SwapTwice(r: nat)
    requires r <= 0xffff
    ensures Swap(Swap(r)) == r
  {}

  // Byte order

  lemma {:induction false} WeighZero(data: seq<byte>, odd: bool)
    ensures Weigh(data, odd) == 0 <==> Weigh(data, !odd) == 0
  {
    if data != [] { WeighZero(data[1..], !odd); }
  }

  /** Moving every octet to the other half of its word scales the sum by 256. */
  lemma {:induction false} WeighOther(data: seq<byte>, odd: bool) returns (k: int)
    ensures 256 * Weigh(data, odd) == Weigh(data, !odd) + 0xffff * k
  {
    if data == [] {
      k := 0;
    } else {
      var j := WeighOther(data[1..], !odd);
      k := j + if odd then data[0] else 0;
    }
  }

  lemma RepOther(data: seq<byte>, odd: bool, extra: nat)
    ensures Rep(256 * (Weigh(data, odd) + extra)) == Rep(Weigh(data, !odd) + 256 * extra)
  {
    var k := WeighOther(data, odd);
    WeighZero(data, odd);
    var a, b := 256 * (Weigh(data, odd) + extra), Weigh(data, !odd) + 256 * extra;
    assert a == b + 0xffff * k;
    if a > 0 {
      if k >= 0 { RepShift(b, k); } else { RepShift(a, -k); }
    }
  }

  lemma {:induction false} WeighConcat(a: seq<byte>, b: seq<byte>, odd: bool)
    ensures Weigh(a + b, odd) == Weigh(a, odd) + Weigh(b, if |a| % 2 == 0 then odd else !odd)
  {
    if a == [] {
      assert a + b == b;
    } else {
      assert (a + b)[1..] == a[1..] + b;
      WeighConcat(a[1..], b, !odd);
    }
  }

  /** The section 1 sum is the representative of the big-endian integer sum. */
  lemma {:induction false} RfcSumIsRep(data: seq<byte>)
    ensures RfcSum(data) == Rep(Weigh(data, true))
  {
    if |data| == 0 {
    } else if |data| == 1 {
      assert data[1..] == [];
      RepSmall(256 * data[0] as int);
    } else {
      var w, rest := 256 * data[0] as int + data[1] as int, data[2..];
      assert data[1..][1..] == rest;
      assert Weigh(data, true) == w + Weigh(rest, true);
      RfcSumIsRep(rest);
      RepAdd(Weigh(rest, true), w);
      var s := Rep(Weigh(rest, true)) + w;
      if s > 0xffff { RepUnique(s, s - 0xffff, 1); } else { RepSmall(s); }
    }
  }

  /** On a little-endian host the sum of the words as loaded is the byte-swapped section 1 sum. */
  lemma LittleEndianSum(data: seq<byte>)
    ensures Rep(Weigh(data, false)) == Swap(RfcSum(data))
  {
    RfcSumIsRep(data);
    SwapIsScale(RfcSum(data));
    RepScale(Weigh(data, true));
    RepOther(data, true, 0);
  }
}
