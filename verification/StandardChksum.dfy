/** The three interchangeable versions of lwip_standard_chksum on a little-endian host. */
module StandardChksum {
  import opened Octets
  import opened OnesComplement

  /** Truncation to u32_t. */
  function U32(x: nat): (r: nat)
    ensures r < 0x1_0000_0000
    ensures x < 0x1_0000_0000 ==> r == x
  {
    x % 0x1_0000_0000
  }

  lemma WeighByte(data: seq<byte>, i: nat, odd: bool)
    requires i < |data|
    ensures Weigh(data[i..], odd) == data[i] as int * (if odd then 256 else 1) + Weigh(data[i + 1..], !odd)
  {
    assert data[i..][1..] == data[i + 1..];
  }

  lemma WeighPair(data: seq<byte>, i: nat, odd: bool)
    requires i + 2 <= |data|
    ensures Weigh(data[i..], odd) ==
            data[i] as int * (if odd then 256 else 1) + data[i + 1] as int * (if odd then 1
              else 256) + Weigh(data[i + 2..], odd)
  {
    WeighByte(data, i, odd);
    WeighByte(data, i + 1, !odd);
  }

  /** Two folds bring any 32-bit sum down to its 16-bit representative. */
  lemma TwoFolds(u: nat)
    requires u < 0x1_0000_0000
    ensures Fold(Fold(u)) <= 0xffff && Fold(Fold(u)) == Rep(u)
    ensures Fold(u) <= 0xffff ==> Fold(u) == Rep(u)
  {
    RepFold(u);
    RepFold(Fold(u));
    RepSmall(Fold(Fold(u)));
    if Fold(u) <= 0xffff { RepSmall(Fold(u)); }
  }

  /** The value every version returns: the section 1 sum as a little-endian host stores it. */
  ghost predicate IsSum(r: nat, data: seq<byte>) {
    r == Swap(RfcSum(data))
  }

  /** Version 1: octet pairs in network order. */
  method Chksum1(data: seq<byte>) returns (r: nat)
    requires |data| <= 0x20000
    ensures IsSum(r, data)
  {
    var acc: nat, i: nat := 0, 0;
    while i + 1 < |data|
      invariant i <= |data| && i % 2 == 0
      invariant acc + Weigh(data[i..], true) == Weigh(data, true)
      invariant 2 * acc <= 0xffff * i
    {
      WeighPair(data, i, true);
      var src := 256 * data[i] as int + data[i + 1] as int;
      acc := U32(acc + src);
      i := i + 2;
    }
    if i < |data| {
      WeighByte(data, i, true);
      acc := U32(acc + 256 * data[i] as int);
      i := i + 1;
    }
    assert data[i..] == [];
    TwoFolds(acc);
    acc := Fold(acc);
    if acc / 0x10000 != 0 {
      acc := Fold(acc);
    }
    RfcSumIsRep(data);
    r := Swap(acc);
  }

  /** Undo the swap caused by an odd start address. */
  lemma SwapOdd(data: seq<byte>, sum: nat)
    requires sum == Rep(Weigh(data, true))
    ensures Swap(sum) == Rep(Weigh(data, false))
  {
    SwapIsScale(sum);
    RepScale(Weigh(data, true));
    RepOther(data, true, 0);
  }

  /** The loop over 16-bit loads; `left` bytes of headroom keep the 32-bit sum from overflowing. */
  method AddWords(data: seq<byte>, start: nat, sum0: nat) returns (sum: nat, i: nat)
    requires start <= |data| && 2 * sum0 + 0xffff * (|data| - start) < 0x2_0000_0000
    ensures start <= i <= |data| <= i + 1
    ensures sum + Weigh(data[i..], false) == sum0 + Weigh(data[start..], false)
    ensures 2 * sum <= 2 * sum0 + 0xffff * (i - start)
  {
    sum, i := sum0, start;
    while i + 1 < |data|
      invariant start <= i <= |data|
      invariant sum + Weigh(data[i..], false) == sum0 + Weigh(data[start..], false)
      invariant 2 * sum <= 2 * sum0 + 0xffff * (i - start)
    {
      WeighPair(data, i, false);
      sum := U32(sum + (data[i] as int + 256 * data[i + 1] as int));
      i := i + 2;
    }
  }

  /** The common end of versions 2 and 3: fold to 16 bits and swap back after an odd start. */
  method FoldAndSwap(data: seq<byte>, odd: bool, sum0: nat) returns (r: nat)
    requires sum0 < 0x1_0000_0000 && Rep(sum0) == Rep(Weigh(data, odd))
    ensures IsSum(r, data)
  {
    TwoFolds(sum0);
    LittleEndianSum(data);
    var sum := Fold(sum0);
    sum := Fold(sum);
    if odd {
      SwapOdd(data, sum);
      sum := Swap(sum);
    }
    r := sum;
  }

  /** Version 2: 16-bit loads from the first even address, the odd ends kept apart in `t0` and `t1`. */
  method Chksum2(data: seq<byte>, addr: nat) returns (r: nat)
    requires |data| <= 0x20000
    ensures IsSum(r, data)
  {
    var sum: nat, i: nat, t0: byte, t1: byte := 0, 0, 0, 0;
    var odd := addr % 2 == 1;
    assert data[0..] == data;
    if odd && |data| > 0 {
      WeighByte(data, 0, true);
      t1 := data[0];
      i := 1;
    }
    sum, i := AddWords(data, i, 0);
    if i < |data| {
      WeighByte(data, i, false);
      t0 := data[i];
      i := i + 1;
    }
    assert data[i..] == [];
    sum := U32(sum + (t0 as int + 256 * t1 as int));
    r := FoldAndSwap(data, odd, sum);
  }

  /** 32-bit addition with the carry added back in. */
  function AddCarry(sum: nat, w: nat): (r: nat)
    requires sum < 0x1_0000_0000 && w < 0x1_0000_0000
    ensures r < 0x1_0000_0000
  {
    var tmp := U32(sum + w);
    if tmp < sum then tmp + 1 else tmp
  }

  /** 0xffffffff is a multiple of 0xffff, so the 32-bit ring keeps the 16-bit representative. */
  lemma AddCarryRep(sum: nat, w: nat)
    requires sum < 0x1_0000_0000 && w < 0x1_0000_0000
    ensures Rep(AddCarry(sum, w)) == Rep(sum + w)
  {
    if sum + w >= 0x1_0000_0000 {
      assert sum + w == AddCarry(sum, w) + 0xffff * 0x10001;
      RepShift(AddCarry(sum, w), 0x10001);
    }
  }

  /** The 32-bit little-endian load at `i`. */
  function Load32(data: seq<byte>, i: nat): (w: nat)
    requires i + 4 <= |data|
    ensures w < 0x1_0000_0000
  {
    data[i] as int + 0x100 * data[i + 1] as int + 0x10000 * data[i + 2] as int + 0x1000000 * data[i + 3] as int
  }

  lemma AddLoad(data: seq<byte>, i: nat, sum: nat, total: nat)
    requires i + 4 <= |data| && sum < 0x1_0000_0000
    requires Rep(sum + Weigh(data[i..], false)) == Rep(total)
    ensures Rep(AddCarry(sum, Load32(data, i)) + Weigh(data[i + 4..], false)) == Rep(total)
  {
    var w, rest := Load32(data, i), Weigh(data[i + 4..], false);
    WeighPair(data, i, false);
    WeighPair(data, i + 2, false);
    var hi := data[i + 2] as int + 256 * data[i + 3] as int;
    assert w + rest == Weigh(data[i..], false) + 0xffff * hi;
    if hi > 0 { RepShift(sum + Weigh(data[i..], false), hi); }
    AddCarryRep(sum, w);
    RepAdd(AddCarry(sum, w), rest);
    RepAdd(sum + w, rest);
  }

  /** The unrolled loop of version 3, eight bytes at a time. */
  method AddLoads(data: seq<byte>, start: nat, sum0: nat, ghost total: nat) returns (sum: nat, i: nat)
    requires start <= |data| && sum0 < 0x1_0000_0000
    requires Rep(sum0 + Weigh(data[start..], false)) == Rep(total)
    ensures i <= |data| < i + 8 && sum < 0x1_0000_0000
    ensures Rep(sum + Weigh(data[i..], false)) == Rep(total)
  {
    sum, i := sum0, start;
    while i + 7 < |data|
      invariant i <= |data| && sum < 0x1_0000_0000
      invariant Rep(sum + Weigh(data[i..], false)) == Rep(total)
    {
      AddLoad(data, i, sum, total);
      var tmp := AddCarry(sum, Load32(data, i));
      AddLoad(data, i + 4, tmp, total);
      sum := AddCarry(tmp, Load32(data, i + 4));
      i := i + 8;
    }
  }

  /** Folding early makes room in the upper bits for the words still to come. */
  lemma FoldEarly(sum: nat, rest: nat)
    requires sum < 0x1_0000_0000
    ensures Fold(sum) <= 0x1fffe && Rep(Fold(sum) + rest) == Rep(sum + rest)
  {
    RepFold(sum);
    RepAdd(sum, rest);
    RepAdd(Fold(sum), rest);
  }

  /** The even-aligned middle of version 3. */
  method AddMiddle(data: seq<byte>, start: nat, addr: nat) returns (sum: nat, i: nat)
    requires start <= |data|
    ensures i <= |data| <= i + 1 && sum < 0x100000
    ensures Rep(sum + Weigh(data[i..], false)) == Rep(Weigh(data[start..], false))
  {
    hide Rep, Weigh, Fold;
    sum, i := 0, start;
    ghost var total := Weigh(data[start..], false);
    if addr % 4 != 0 && |data| - i > 1 {
      WeighPair(data, i, false);
      sum := sum + (data[i] as int + 256 * data[i + 1] as int);
      i := i + 2;
    }
    sum, i := AddLoads(data, i, sum, total);
    FoldEarly(sum, Weigh(data[i..], false));
    sum := Fold(sum);
    sum, i := AddWords(data, i, sum);
  }

  /** Version 3: 32-bit loads with the carries added back; no limit on the length. */
  method Chksum3(data: seq<byte>, addr: nat) returns (r: nat)
    ensures IsSum(r, data)
  {
    hide Rep;
    var sum: nat, i: nat, t0: byte, t1: byte := 0, 0, 0, 0;
    var odd := addr % 2 == 1;
    assert data[0..] == data;
    if odd && |data| > 0 {
      WeighByte(data, 0, true);
      t1 := data[0];
      i := 1;
    }
    ghost var total := Weigh(data[i..], false);
    sum, i := AddMiddle(data, i, addr + i);
    if i < |data| {
      WeighByte(data, i, false);
      t0 := data[i];
      i := i + 1;
    }
    assert data[i..] == [];
    RepAdd(total, 256 * t1 as int);
    RepAdd(sum + t0 as int, 256 * t1 as int);
    sum := U32(sum + (t0 as int + 256 * t1 as int));
    r := FoldAndSwap(data, odd, sum);
  }
}
