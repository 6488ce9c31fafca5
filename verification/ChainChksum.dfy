/** lwIP's checksums over a chain of pbufs, with and without the pseudo header. */
module ChainChksum {
  import opened Octets
  import opened OnesComplement
  import opened StandardChksum

  /** One buffer of a chain: its bytes and the address they start at. */
  datatype Pbuf = Pbuf(payload: seq<byte>, addr: nat)

  predicate ValidChain(chain: seq<Pbuf>) {
    forall q :: q in chain ==> |q.payload| <= 0xffff
  }

  ghost function Concat(chain: seq<Pbuf>): seq<byte> {
    if chain == [] then [] else chain[0].payload + Concat(chain[1..])
  }

  lemma {:induction false} ConcatSnoc(chain: seq<Pbuf>, i: nat)
    requires i < |chain|
    ensures Concat(chain[..i + 1]) == Concat(chain[..i]) + chain[i].payload
  {
    if i == 0 {
      assert chain[..1] == [chain[0]];
    } else {
      ConcatSnoc(chain[1..], i - 1);
      assert chain[..i + 1][1..] == chain[1..][..i] && chain[..i][1..] == chain[1..][..i - 1];
    }
  }

  /** `acc` stands for `base` plus the octets of `data`, in swapped words when `swapped`. */
  ghost predicate Stands(acc: nat, swapped: bool, base: nat, data: seq<byte>) {
    acc == Rep(Weigh(data, swapped) + if swapped then 256 * base else base)
  }

  lemma SwapStands(acc: nat, swapped: bool, base: nat, data: seq<byte>)
    requires Stands(acc, swapped, base, data)
    ensures Stands(Swap(acc), !swapped, base, data)
  {
    SwapIsScale(acc);
    var extra := if swapped then 256 * base else base;
    RepScale(Weigh(data, swapped) + extra);
    RepOther(data, swapped, extra);
    if swapped {
      assert 256 * extra == base + 0xffff * base;
      if base > 0 { RepShift(Weigh(data, !swapped) + base, base); }
    }
  }

  /** The next buffer is added as it is, because `acc` was swapped after every odd one before. */
  lemma AddStands(acc: nat, swapped: bool, base: nat, data: seq<byte>, more: seq<byte>, c: nat)
    requires Stands(acc, swapped, base, data) && swapped == (|data| % 2 == 1) && IsSum(c, more)
    ensures acc + c <= 0x1fffe && Stands(Fold(acc + c), swapped, base, data + more)
  {
    hide Rep, Weigh, RfcSum, Swap;
    LittleEndianSum(more);
    WeighConcat(data, more, swapped);
    var extra := if swapped then 256 * base else base;
    assert |data| % 2 == 0 <==> !swapped;
    RepAdd(Weigh(more, false), acc);
    RepAdd(Weigh(data, swapped) + extra, Weigh(more, false));
    RepFold(acc + c);
    RepSmall(Fold(acc + c));
  }

  /** One turn of the loops: add `used` octets of a buffer, fold, and swap after a buffer of odd length. */
  method AddPbuf(acc0: nat, swapped0: bool, q: Pbuf, used: nat, ghost base: nat, ghost data: seq<byte>)
    returns (acc: nat, swapped: bool)
    requires used <= |q.payload| <= 0xffff
    requires Stands(acc0, swapped0, base, data) && swapped0 == (|data| % 2 == 1)
    ensures Stands(acc, swapped, base, data + q.payload[..used])
    ensures swapped == (swapped0 != (|q.payload| % 2 == 1))
  {
    hide Stands, IsSum, Swap, Fold;
    var c := Chksum2(q.payload[..used], q.addr);
    AddStands(acc0, swapped0, base, data, q.payload[..used], c);
    acc := U32(acc0 + c);
    acc := Fold(acc);
    swapped := swapped0;
    if |q.payload| % 2 != 0 {
      SwapStands(acc, swapped, base, data + q.payload[..used]);
      swapped := !swapped;
      acc := Swap(acc);
    }
  }

  /** The loop shared by inet_chksum_pbuf and inet_cksum_pseudo_base, with the final swap. */
  method SumChain(chain: seq<Pbuf>, acc0: nat) returns (acc: nat)
    requires ValidChain(chain) && acc0 <= 0xffff
    ensures acc == Rep(Weigh(Concat(chain), false) + acc0)
  {
    hide Stands, Rep, Weigh, Swap;
    acc := acc0;
    var swapped := false;
    var i := 0;
    StartStands(acc0);
    while i < |chain|
      invariant i <= |chain|
      invariant Stands(acc, swapped, acc0, Concat(chain[..i]))
      invariant swapped == (|Concat(chain[..i])| % 2 == 1)
    {
      assert chain[i] in chain;
      ConcatSnoc(chain, i);
      assert chain[i].payload[..|chain[i].payload|] == chain[i].payload;
      acc, swapped := AddPbuf(acc, swapped, chain[i], |chain[i].payload|, acc0, Concat(chain[..i]));
      i := i + 1;
    }
    assert chain[..i] == chain;
    if swapped {
      SwapStands(acc, swapped, acc0, Concat(chain));
      acc := Swap(acc);
    }
    FinalStands(acc, acc0, Concat(chain));
  }

  lemma StartStands(base: nat)
    requires base <= 0xffff
    ensures Stands(base, false, base, [])
  {
    RepSmall(base);
  }

  lemma FinalStands(acc: nat, base: nat, data: seq<byte>)
    requires Stands(acc, false, base, data)
    ensures acc == Rep(Weigh(data, false) + base)
  {}

  /** What is stored in a header: the complement of the section 1 sum, in memory order. */
  ghost predicate IsChecksum(r: nat, data: seq<byte>) {
    r == Swap(RfcChecksum(data))
  }

  lemma SwapComplement(x: nat)
    requires x <= 0xffff
    ensures Swap(0xffff - x) == 0xffff - Swap(x)
  {
    var h, l := x / 256, x % 256;
    assert 0xffff - x == 256 * (255 - h) + (255 - l);
    assert (0xffff - x) / 256 == 255 - h && (0xffff - x) % 256 == 255 - l;
  }

  lemma ComplementIsChecksum(sum: nat, data: seq<byte>)
    requires sum == Rep(Weigh(data, false))
    ensures sum <= 0xffff && IsChecksum(0xffff - sum, data)
  {
    hide Rep, Weigh, RfcSum, Swap;
    LittleEndianSum(data);
    SwapComplement(RfcSum(data));
  }

  method InetChksum(data: seq<byte>, addr: nat) returns (r: nat)
    requires |data| <= 0xffff
    ensures IsChecksum(r, data)
  {
    LittleEndianSum(data);
    var c := Chksum2(data, addr);
    ComplementIsChecksum(c, data);
    r := 0xffff - c;
  }

  method InetChksumPbuf(chain: seq<Pbuf>) returns (r: nat)
    requires ValidChain(chain)
    ensures IsChecksum(r, Concat(chain))
  {
    var acc := SumChain(chain, 0);
    ComplementIsChecksum(acc, Concat(chain));
    r := 0xffff - acc;
  }

  /** The pseudo header of section 3.1 of RFC 9293. */
  function PseudoHeader(src: seq<byte>, dest: seq<byte>, proto: byte, protoLen: nat): (h: seq<byte>)
    requires |src| == 4 && |dest| == 4 && protoLen <= 0xffff
    ensures |h| == 12
  {
    src + dest + [0, proto, protoLen / 256, protoLen % 256]
  }

  /** The two 16-bit halves of an address held in network order. */
  function AddrSum(addr: seq<byte>): (r: nat)
    requires |addr| == 4
    ensures r <= 0x1fffe
  {
    (addr[0] as int + 256 * addr[1] as int) + (addr[2] as int + 256 * addr[3] as int)
  }

  lemma WeighHeader(src: seq<byte>, dest: seq<byte>, proto: byte, protoLen: nat)
    requires |src| == 4 && |dest| == 4 && protoLen <= 0xffff
    ensures Weigh(PseudoHeader(src, dest, proto, protoLen), false) ==
            AddrSum(src) + AddrSum(dest) + Swap(proto) + Swap(protoLen)
  {
    var tail: seq<byte> := [0, proto, protoLen / 256, protoLen % 256];
    WeighConcat(src + dest, tail, false);
    WeighConcat(src, dest, false);
    WeighFour(src);
    WeighFour(dest);
    WeighFour(tail);
  }

  lemma WeighFour(d: seq<byte>)
    requires |d| == 4
    ensures Weigh(d, false) == AddrSum(d)
  {
    WeighPair(d, 0, false);
    WeighPair(d, 2, false);
    assert d[0..] == d && d[4..] == [];
  }

  /** The address part of the pseudo header, folded twice. */
  method SumAddresses(src: seq<byte>, dest: seq<byte>) returns (acc: nat)
    requires |src| == 4 && |dest| == 4
    ensures acc == Rep(AddrSum(src) + AddrSum(dest))
  {
    acc := AddrSum(src) + AddrSum(dest);
    TwoFolds(acc);
    acc := Fold(acc);
    acc := Fold(acc);
  }

  /** Protocol and length complete the pseudo header; the result is the complement. */
  method FinishPseudo(acc0: nat, src: seq<byte>, dest: seq<byte>, proto: byte, protoLen: nat, ghost data: seq<byte>)
      returns (r: nat)
    requires |src| == 4 && |dest| == 4 && protoLen <= 0xffff
    requires acc0 == Rep(Weigh(data, false) + Rep(AddrSum(src) + AddrSum(dest)))
    ensures IsChecksum(r, PseudoHeader(src, dest, proto, protoLen) + data)
  {
    hide Rep, Weigh;
    ghost var a, b := AddrSum(src) + AddrSum(dest), Swap(proto) + Swap(protoLen);
    var acc := acc0 + Swap(proto);
    acc := acc + Swap(protoLen);
    RepAdd(a, Weigh(data, false));
    RepAdd(a + Weigh(data, false), b);
    WeighHeader(src, dest, proto, protoLen);
    WeighConcat(PseudoHeader(src, dest, proto, protoLen), data, false);
    TwoFolds(acc);
    acc := Fold(acc);
    acc := Fold(acc);
    ComplementIsChecksum(acc, PseudoHeader(src, dest, proto, protoLen) + data);
    r := 0xffff - acc;
  }

  /** inet_chksum_pseudo with inet_cksum_pseudo_base. */
  method InetChksumPseudo(chain: seq<Pbuf>, proto: byte, protoLen: nat, src: seq<byte>, dest: seq<byte>)
      returns (r: nat)
    requires ValidChain(chain) && |src| == 4 && |dest| == 4 && protoLen <= 0xffff
    ensures IsChecksum(r, PseudoHeader(src, dest, proto, protoLen) + Concat(chain))
  {
    var acc := SumAddresses(src, dest);
    acc := SumChain(chain, acc);
    r := FinishPseudo(acc, src, dest, proto, protoLen, Concat(chain));
  }

  // The partial form

  /** At most the first `n` octets. */
  ghost function Prefix(data: seq<byte>, n: nat): seq<byte> {
    if n <= |data| then data[..n] else data
  }

  /** The loop of inet_cksum_pseudo_partial_base. It swaps on the length of the buffer, not on the
      number of octets used of it; the two differ only in the last buffer used, where the
      final swap undoes it. `assertOk` is the loop's assertion. */
  method SumPartial(chain: seq<Pbuf>, chksumLen: nat, acc0: nat) returns (acc: nat, assertOk: bool)
    requires ValidChain(chain) && acc0 <= 0xffff && chksumLen <= 0xffff
    ensures acc == Rep(Weigh(Prefix(Concat(chain), chksumLen), false) + acc0)
    ensures assertOk <==> chain == [] || chksumLen == 0 || chksumLen < |chain[0].payload| + 0x7fff
  {
    hide Stands, Rep, Weigh, Swap;
    acc, assertOk := acc0, true;
    var swapped := false;
    var i: nat, left: nat := 0, chksumLen;
    ghost var data: seq<byte> := [];
    StartStands(acc0);
    while i < |chain| && left > 0
      invariant i <= |chain| && left <= chksumLen
      invariant Stands(acc, swapped, acc0, data)
      invariant UsedSoFar(chain, i, data, chksumLen, left)
      invariant left > 0 ==> swapped == (|data| % 2 == 1)
      invariant assertOk <==> i == 0 || chksumLen < |chain[0].payload| + 0x7fff
      invariant if i == 0 then left == chksumLen
                else chksumLen > 0 && (left == 0 || left <= chksumLen - |chain[0].payload|)
    {
      assert chain[i] in chain;
      var chklen := |chain[i].payload|;
      if chklen > left { chklen := left; }
      UseMore(chain, i, data, chksumLen, left, chklen);
      acc, swapped := AddPbuf(acc, swapped, chain[i], chklen, acc0, data);
      data := data + chain[i].payload[..chklen];
      left := left - chklen;
      if left >= 0x7fff { assertOk := false; }
      i := i + 1;
    }
    if left > 0 { assert chain[..i] == chain; }
    assert data == Prefix(Concat(chain), chksumLen);
    if swapped {
      SwapStands(acc, swapped, acc0, data);
      acc := Swap(acc);
    }
    FinalStands(acc, acc0, data);
  }

  /** `data` is what has been summed: whole buffers while some of `chksumLen` is left, in the end the prefix. */
  ghost predicate UsedSoFar(chain: seq<Pbuf>, i: nat, data: seq<byte>, chksumLen: nat, left: nat)
    requires i <= |chain|
  {
    && |data| + left == chksumLen
    && (left > 0 ==> data == Concat(chain[..i]))
    && (left == 0 ==> data == Prefix(Concat(chain), chksumLen))
  }

  lemma UseMore(chain: seq<Pbuf>, i: nat, data: seq<byte>, chksumLen: nat, left: nat, used: nat)
    requires i < |chain| && left > 0 && UsedSoFar(chain, i, data, chksumLen, left)
    requires used == if |chain[i].payload| > left then left else |chain[i].payload|
    ensures UsedSoFar(chain, i + 1, data + chain[i].payload[..used], chksumLen, left - used)
  {
    ConcatSnoc(chain, i);
    ConcatPrefix(chain, i + 1);
    var more := data + chain[i].payload[..used];
    assert more <= Concat(chain[..i + 1]) <= Concat(chain);
  }

  lemma {:induction false} ConcatPrefix(chain: seq<Pbuf>, i: nat)
    requires i <= |chain|
    ensures Concat(chain[..i]) <= Concat(chain)
  {
    if i > 0 {
      ConcatPrefix(chain[1..], i - 1);
      assert chain[..i][1..] == chain[1..][..i - 1];
    }
  }

  /** inet_chksum_pseudo_partial with inet_cksum_pseudo_partial_base. */
  method InetChksumPseudoPartial(chain: seq<Pbuf>, proto: byte, protoLen: nat, chksumLen: nat, src: seq<byte>,
    dest: seq<byte>)
    returns (r: nat, assertOk: bool)
    requires ValidChain(chain) && |src| == 4 && |dest| == 4 && protoLen <= 0xffff && chksumLen <= 0xffff
    ensures IsChecksum(r, PseudoHeader(src, dest, proto, protoLen) + Prefix(Concat(chain), chksumLen))
    ensures assertOk <==> chain == [] || chksumLen == 0 || chksumLen < |chain[0].payload| + 0x7fff
  {
    var acc := SumAddresses(src, dest);
    acc, assertOk := SumPartial(chain, chksumLen, acc);
    r := FinishPseudo(acc, src, dest, proto, protoLen, Prefix(Concat(chain), chksumLen));
  }

  /** One byte in a first pbuf and 0x7fff in a second are enough for the length assertion to fail. */
  method PartialAssertionFails() returns (assertOk: bool)
    ensures !assertOk
  {
    var chain := [Pbuf(seq(1, _ => 0), 0), Pbuf(seq(0x7fff, _ => 0), 0)];
    var acc;
    acc, assertOk := SumPartial(chain, 0x8000, 0);
  }

  lemma WeighField(before: seq<byte>, field: seq<byte>, after: seq<byte>)
    requires |before| % 2 == 0 && |field| == 2
    ensures Weigh(before + field + after, true)
            == Weigh(before, true) + (256 * field[0] as int + field[1] as int) + Weigh(after, true)
  {
    WeighConcat(before + field, after, true);
    WeighConcat(before, field, true);
    WeighPair(field, 0, true);
    assert field[0..] == field && field[2..] == [];
  }

  lemma SwapOctets(r: nat)
    requires r <= 0xffff
    ensures 256 * (r % 256) + r / 256 == Swap(r)
  {}

  /** The receiver's test: a header field filled in with the checksum of the message with that field
      zero makes the section 1 sum of the whole message all ones. */
  lemma ReceiverAccepts(before: seq<byte>, after: seq<byte>, r: nat)
    requires |before| % 2 == 0 && r <= 0xffff && IsChecksum(r, before + [0, 0] + after)
    ensures RfcSum(before + [r % 256, r / 256] + after) == 0xffff
  {
    hide Rep, Weigh, RfcSum, Swap;
    assert 256 * (r % 256) + r / 256 == Swap(r) by { SwapOctets(r); }
    var zero, filled := before + [0, 0] + after, before + [r % 256, r / 256] + after;
    WeighField(before, [0, 0], after);
    WeighField(before, [r % 256, r / 256], after);
    RfcSumIsRep(zero);
    RfcSumIsRep(filled);
    SwapTwice(RfcChecksum(zero));
    RepAdd(Weigh(zero, true), Swap(r));
    RepSmall(0xffff);
  }
}
