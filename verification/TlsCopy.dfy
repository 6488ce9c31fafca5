/** The size of a thread's TLS area and what __copy_tls puts where in it. */
module TlsCopy {
  import opened Bits
  import opened TlsLayout

  const WORD := 8

  lemma AndTwice(x: nat, y: nat)
    ensures And(x, 2 * y) == 2 * And(x / 2, y)
  {
    assert (2 * y) / 2 == y && (2 * y) % 2 == 0;
  }

  /** A mask of high ones rounds down. */
  lemma {:induction false} AndHigh(x: nat, n: nat, i: nat)
    requires i <= n && x < Pow2(n)
    ensures And(x, HighMask(n, i)) == x - x % Pow2(i)
    decreases n
  {
    hide And;
    if i == 0 {
      AndOnes(x, n);
    } else {
      AndHigh(x / 2, n - 1, i - 1);
      AndTwice(x, HighMask(n - 1, i - 1));
      ModHalf(x, Pow2(i - 1));
    }
  }

  /** ALIGN: up to the next multiple. */
  function AlignUp(x: nat, align: nat): nat
    requires align < W
  {
    And((x + align - 1) % W, Neg(align))
  }

  lemma AlignUpIs(x: nat, align: nat)
    requires IsPow2Below64(align) && x + align - 1 < W
    ensures 0 < align < W && AlignUp(x, align) == x + align - 1 - (x + align - 1) % align
  {
    var k: nat :| k < 64 && align == Pow2(k);
    Pow2At64();
    Pow2Mono(k, 63);
    var y := x + align - 1;
    hide And, Pow2;
    DivModUnique(y, W, 0, y);
    AndHigh(y, 64, k);
  }

  lemma AlignUpOk(x: nat, align: nat)
    requires IsPow2Below64(align) && x + align - 1 < W
    ensures align < W && x <= AlignUp(x, align) < x + align && AlignUp(x, align) % align == 0
  {
    hide AlignUp, Pow2, IsPow2Below64;
    AlignUpIs(x, align);
    var y := x + align - 1;
    var rest := y % align;
    RemainderBound(y, align);
    BelowArith(y, align);
  }

  /** What update_tls_size makes of the linker's globals; `pthread` is the size of the thread structure. */
  function TlsSize(cnt: nat, offset: nat, align: nat, pthread: nat): nat
    requires align < W
  {
    AlignUp((1 + cnt) * WORD + offset + pthread + align * 2, align)
  }

  /** The thread pointer of a copy at `mem`, by the mask of each layout. */
  function ThreadPointer(above: bool, mem: nat, size: nat, align: nat, pthread: nat): int
    requires align > 0 && pthread <= size
  {
    if above then mem + And(Neg((mem + pthread) % W) % W, align - 1) + pthread
    else var top := mem + size - pthread; top - And(top % W, align - 1)
  }

  lemma PointerAbove(mem: nat, align: nat, pthread: nat)
    requires IsPow2Below64(align)
    ensures var shift := And(Neg((mem + pthread) % W) % W, align - 1);
            0 <= shift < align && (mem + shift + pthread) % align == 0
  {
    hide And;
    var s := mem + pthread;
    var x := Neg(s % W);
    MaskIsMod(x, align);
    RemainderBound(x, align);
    WrapMod(s, x, 0, s / W + if s % W == 0 then 0 else 1, align);
    ZeroMod(align);
  }

  lemma PointerBelow(top: nat, align: nat)
    requires IsPow2Below64(align)
    ensures 0 <= And(top % W, align - 1) < align && (top - And(top % W, align - 1)) % align == 0
  {
    hide And;
    MaskIsMod(top, align);
    RemainderBound(top, align);
    BelowArith(top, align);
  }

  /** The thread structure, the blocks and the vector lie in the area one after the other. */
  ghost predicate Laid(above: bool, mem: nat, size: nat, cnt: nat, offset: nat, pthread: nat, tp: int) {
    if above then mem <= tp - pthread && tp + offset <= mem + size - (1 + cnt) * WORD
    else mem + (1 + cnt) * WORD <= tp - offset && tp + pthread <= mem + size
  }

  lemma PointerOk(above: bool, mem: nat, cnt: nat, offset: nat, align: nat, pthread: nat)
    requires IsPow2Below64(align) && (1 + cnt) * WORD + offset + pthread + align * 2 + align - 1 < W
    ensures align < W && pthread <= TlsSize(cnt, offset, align, pthread)
    ensures var size := TlsSize(cnt, offset, align, pthread);
            var tp := ThreadPointer(above, mem, size, align, pthread);
            tp % align == 0 && Laid(above, mem, size, cnt, offset, pthread, tp)
  {
    hide And, AlignUp;
    AlignUpOk((1 + cnt) * WORD + offset + pthread + align * 2, align);
    var size := TlsSize(cnt, offset, align, pthread);
    if above {
      PointerAbove(mem, align, pthread);
    } else {
      PointerBelow(mem + size - pthread, align);
    }
  }

  /** A block at `at` is placed like its image and within `offset` bytes of the thread pointer, on its side. */
  ghost predicate BlockOk(above: bool, m: Module, at: int, tp: int, offset: nat) {
    && m.align > 0 && at % m.align == m.image % m.align
    && if above then tp <= at && at + m.size <= tp + offset else tp - offset <= at && at + m.size <= tp
  }

  lemma BlockPlaced(above: bool, ms: seq<Module>, offset: nat, align: nat, i: nat, tp: int)
    requires Stacked(above, ms, offset) && AlignsAll(ms, align) && i < |ms| && tp % align == 0
    ensures BlockOk(above, ms[i], tp + Start(above, ms[i]), tp, offset)
  {
    CopyAligned(above, ms, offset, align, i, tp);
    assert Aligned(above, ms[i]);
    hide Aligned;
  }

  /**
   * __copy_tls: the vector of the blocks' addresses. Each block is placed like its image, inside the area,
   * and apart from the thread structure and the vector.
   */
  method CopyTls(s: TlsState, mem: nat, pthread: nat) returns (tp: int, dtv: seq<int>)
    requires s.Valid()
    requires (1 + s.tlsCnt) * WORD + s.tlsOffset + pthread + s.tlsAlign * 3 <= W
    ensures |dtv| == s.tlsCnt + 1 && dtv[0] == s.tlsCnt == |s.modules| && s.tlsAlign < W
    ensures Laid(s.above, mem, TlsSize(s.tlsCnt, s.tlsOffset, s.tlsAlign, pthread), s.tlsCnt, s.tlsOffset, pthread, tp)
    ensures forall i :: 0 <= i < s.tlsCnt ==> BlockOk(s.above, s.modules[i], dtv[i + 1], tp, s.tlsOffset)
  {
    hide BlockOk, TlsSize, ThreadPointer, Laid, Stacked;
    PointerOk(s.above, mem, s.tlsCnt, s.tlsOffset, s.tlsAlign, pthread);
    var size := TlsSize(s.tlsCnt, s.tlsOffset, s.tlsAlign, pthread);
    tp := ThreadPointer(s.above, mem, size, s.tlsAlign, pthread);
    dtv := [s.tlsCnt];
    var i := 0;
    while i < |s.modules|
      invariant 0 <= i <= |s.modules| && |dtv| == i + 1 && dtv[0] == s.tlsCnt
      invariant forall j :: 0 <= j < i ==> BlockOk(s.above, s.modules[j], dtv[j + 1], tp, s.tlsOffset)
    {
      BlockPlaced(s.above, s.modules, s.tlsOffset, s.tlsAlign, i, tp);
      dtv := dtv + [tp + Start(s.above, s.modules[i])];
      i := i + 1;
    }
  }
}
