/** Placement of thread-local storage blocks by the dynamic linker, with 64-bit unsigned
    arithmetic written out, for both layouts: blocks above and below the thread pointer. */
module TlsLayout {
  import opened Bits

  const W := TWO_64

  /** Unsigned negation. */
  function Neg(x: nat): (r: nat)
    requires x < W
    ensures r < W
  {
    if x == 0 then 0 else W - x
  }

  /** The larger of two powers of two, as the linker's MAXP2 computes it. */
  function MaxP2(a: nat, b: nat): nat
    requires a < W && b < W && And(Neg(a), Neg(b)) < W
  {
    Neg(And(Neg(a), Neg(b)))
  }

  predicate IsPow2Below64(a: nat) {
    exists k :: 0 <= k < 64 && a == Pow2(k)
  }

  // Arithmetic

  lemma ModShift(x: int, t: int, a: int)
    requires a > 0
    ensures (x + t * a) % a == x % a
  {
    DivModUnique(x + t * a, a, x / a + t, x % a);
  }

  lemma ModMod(x: int, a: int, b: int)
    requires a > 0 && b > 0
    ensures b * a > 0 && (x % (b * a)) % a == x % a
  {
    MulAtLeast(b, a);
    var w := b * a;
    var t := x / w;
    assert x == t * w + x % w;
    assert t * w == (t * b) * a;
    ModShift(x % w, t * b, a);
  }

  /** Reducing modulo 2^64 first does not change the remainder modulo a smaller power of two. */
  lemma ModW(x: int, k: nat)
    requires k < 64
    ensures (x % W) % Pow2(k) == x % Pow2(k)
  {
    Pow2At64();
    Pow2Add(64 - k, k);
    ModMod(x, Pow2(k), Pow2(64 - k));
  }

  lemma {:induction false} AndComm(x: nat, y: nat)
    ensures And(x, y) == And(y, x)
  {
    if x != 0 && y != 0 { AndComm(x / 2, y / 2); }
  }

  lemma AndEven(x: nat, y: nat)
    ensures And(2 * x, 2 * y) == 2 * And(x, y)
  {}

  lemma AndOnes(x: nat, n: nat)
    requires x < Pow2(n)
    ensures And(x, Pow2(n) - 1) == x && And(Pow2(n) - 1, x) == x
  {
    AndMask(x, n);
    DivModUnique(x, Pow2(n), 0, x);
    AndComm(x, Pow2(n) - 1);
  }

  /** Ones in the bits from `i` up to below `n`. */
  function HighMask(n: nat, i: nat): nat
    requires i <= n
  {
    Pow2Mono(i, n);
    Pow2(n) - Pow2(i)
  }

  lemma {:induction false} AndHighMasks(n: nat, i: nat, j: nat)
    requires i <= n && j <= n
    ensures And(HighMask(n, i), HighMask(n, j)) == HighMask(n, if i >= j then i else j)
    decreases n
  {
    hide And;
    if i == 0 {
      AndOnes(HighMask(n, j), n);
    } else if j == 0 {
      AndOnes(HighMask(n, i), n);
    } else {
      AndHighMasks(n - 1, i - 1, j - 1);
      AndEven(HighMask(n - 1, i - 1), HighMask(n - 1, j - 1));
    }
  }

  lemma MaxP2IsMax(i: nat, j: nat)
    requires i < 64 && j < 64
    ensures Pow2(i) < W && Pow2(j) < W && And(Neg(Pow2(i)), Neg(Pow2(j))) < W
    ensures MaxP2(Pow2(i), Pow2(j)) == Pow2(if i >= j then i else j)
  {
    Pow2At64();
    Pow2Mono(i, 63);
    Pow2Mono(j, 63);
    AndHighMasks(64, i, j);
  }

  lemma Pow2Divides(i: nat, j: nat)
    requires i <= j
    ensures Pow2(j) % Pow2(i) == 0
  {
    Pow2Add(j - i, i);
    ModShift(0, Pow2(j - i), Pow2(i));
  }

  // Placement

  /** `align`, and with it every mask, is a power of two. */
  lemma MaskIsMod(x: int, align: nat)
    requires IsPow2Below64(align)
    ensures And(x % W, align - 1) == x % align
  {
    var k :| 0 <= k < 64 && align == Pow2(k);
    AndMask(x % W, k);
    ModW(x, k);
  }

  /** Block offset above the thread pointer: from `start` up to the image's position modulo `align`. */
  function OffsetAbove(start: nat, image: nat, align: nat): nat
    requires start < W && align > 0
  {
    start + And((Neg(start) + image) % W, align - 1)
  }

  /** Block offset below the thread pointer: room for `size` bytes, then down to alignment. */
  function OffsetBelow(start: nat, image: nat, size: nat, align: nat): int
    requires align > 0
  {
    var o := start + size + align - 1;
    o - And((o + image) % W, align - 1)
  }

  /** The main program's offset below the thread pointer. */
  function AppOffsetBelow(image: nat, size: nat, align: nat): nat
    requires align > 0
  {
    size + And(Neg((image + size) % W) % W, align - 1)
  }

  lemma WMultiple(align: nat) returns (w: nat)
    requires IsPow2Below64(align)
    ensures align > 0 && W == w * align
  {
    var k :| 0 <= k < 64 && align == Pow2(k);
    Pow2At64();
    Pow2Add(64 - k, k);
    w := Pow2(64 - k);
  }

  /** A sum that comes to `target` up to multiples of 2^64 still does modulo `align` when its last
      term is replaced by its remainder. */
  lemma WrapMod(a: int, x: int, target: int, c: int, align: nat)
    requires IsPow2Below64(align) && a + x == target + c * W
    ensures align > 0 && (a + x % align) % align == target % align
  {
    var w := WMultiple(align);
    WrapArith(a, x, target, c, align, w);
  }

  lemma WrapArith(a: int, x: int, target: int, c: int, d: int, w: int)
    requires d > 0 && a + x == target + c * (w * d)
    ensures (a + x % d) % d == target % d
  {
    var q := x / d;
    assert x == q * d + x % d;
    assert c * (w * d) == (c * w) * d;
    assert (c * w - q) * d == (c * w) * d - q * d;
    ModShift(target, c * w - q, d);
  }

  lemma RemainderBound(x: int, d: int)
    requires d > 0
    ensures 0 <= x % d < d
  {}

  lemma AboveOk(start: nat, image: nat, align: nat)
    requires start < W && IsPow2Below64(align)
    ensures start <= OffsetAbove(start, image, align) < start + align
    ensures OffsetAbove(start, image, align) % align == image % align
  {
    hide And;
    var x := Neg(start) + image;
    MaskIsMod(x, align);
    WrapMod(start, x, image, if start == 0 then 0 else 1, align);
    RemainderBound(x, align);
  }

  lemma BelowOk(start: nat, image: nat, size: nat, align: nat)
    requires IsPow2Below64(align)
    ensures start + size <= OffsetBelow(start, image, size, align) < start + size + align
    ensures (OffsetBelow(start, image, size, align) + image) % align == 0
  {
    hide And;
    var x := start + size + align - 1 + image;
    MaskIsMod(x, align);
    RemainderBound(x, align);
    BelowArith(x, align);
  }

  lemma BelowArith(x: int, d: int)
    requires d > 0
    ensures (x - x % d) % d == 0
  {
    assert x - x % d == 0 + (x / d) * d;
    ModShift(0, x / d, d);
  }

  lemma AppBelowOk(image: nat, size: nat, align: nat)
    requires IsPow2Below64(align)
    ensures size <= AppOffsetBelow(image, size, align) < size + align
    ensures (AppOffsetBelow(image, size, align) + image) % align == 0
  {
    hide And;
    var s := image + size;
    var x := Neg(s % W);
    MaskIsMod(x, align);
    RemainderBound(x, align);
    WrapMod(s, x, 0, s / W + if s % W == 0 then 0 else 1, align);
    ZeroMod(align);
  }

  lemma ZeroMod(d: int)
    requires d > 0
    ensures 0 % d == 0
  {}

  // The modules placed so far

  datatype Module = Module(id: nat, image: nat, size: nat, align: nat, offset: nat)

  /** Where the block starts, relative to the thread pointer. */
  function Start(above: bool, m: Module): int {
    if above then m.offset else -(m.offset as int)
  }

  ghost predicate Disjoint(above: bool, m: Module, n: Module) {
    Start(above, m) + m.size <= Start(above, n) || Start(above, n) + n.size <= Start(above, m)
  }

  /** The offset is congruent to the image address modulo the alignment, negated below the thread pointer. */
  ghost predicate Aligned(above: bool, m: Module) {
    && IsPow2Below64(m.align) && m.align > 0
    && if above then m.offset % m.align == m.image % m.align else (m.offset + m.image) % m.align == 0
  }

  /** Blocks are stacked away from the thread pointer, and `end` is behind the last one. */
  ghost predicate Stacked(above: bool, ms: seq<Module>, end: nat) {
    && (forall i :: 0 <= i < |ms| ==> Aligned(above, ms[i]) && ms[i].offset + (if above then ms[i].size else 0) <= end)
    && (forall i :: 0 <= i < |ms| && !above ==> ms[i].size <= ms[i].offset)
    && (forall i, j :: 0 <= i < j < |ms| ==>
          if above then ms[i].offset + ms[i].size <= ms[j].offset else ms[i].offset + ms[j].size <= ms[j].offset)
  }

  ghost predicate AlignsAll(ms: seq<Module>, align: nat) {
    && IsPow2Below64(align) && align > 0
    && forall i :: 0 <= i < |ms| ==> ms[i].align > 0 && align % ms[i].align == 0
  }

  /** Stacked blocks are disjoint. */
  lemma StackedDisjoint(above: bool, ms: seq<Module>, end: nat, i: nat, j: nat)
    requires Stacked(above, ms, end) && i < j < |ms|
    ensures Disjoint(above, ms[i], ms[j])
  {}

  lemma StackMore(above: bool, ms: seq<Module>, end: nat, m: Module, end': nat)
    requires Stacked(above, ms, end) && Aligned(above, m)
    requires if above then end <= m.offset && m.offset + m.size <= end' else end + m.size <= m.offset <= end'
    ensures Stacked(above, ms + [m], end')
  {
    var all := ms + [m];
    forall i, j | 0 <= i < j < |all|
      ensures if above then all[i].offset + all[i].size <= all[j].offset
              else all[i].offset + all[j].size <= all[j].offset
    {}
  }

  /** Growing the common alignment keeps it a multiple of every alignment. */
  lemma AlignMore(ms: seq<Module>, align: nat, m: Module)
    requires AlignsAll(ms, align) && IsPow2Below64(m.align)
    ensures m.align < W && align < W && And(Neg(align), Neg(m.align)) < W && AlignsAll(ms + [m], MaxP2(align, m.align))
  {
    hide And;
    var i :| 0 <= i < 64 && align == Pow2(i);
    var j :| 0 <= j < 64 && m.align == Pow2(j);
    MaxP2IsMax(i, j);
    var big := MaxP2(align, m.align);
    Pow2Divides(j, if i >= j then i else j);
    forall n | 0 <= n < |ms| + 1 ensures (ms + [m])[n].align > 0 && big % (ms + [m])[n].align == 0 {
      if n < |ms| && big != align {
        Pow2Divides(i, j);
        DividesTrans(big, align, ms[n].align);
      }
    }
  }

  lemma DividesTrans(a: int, b: int, c: int)
    requires b > 0 && c > 0 && a % b == 0 && b % c == 0
    ensures a % c == 0
  {
    var p, q := a / b, b / c;
    assert a == p * b && b == q * c;
    assert a == 0 + (p * q) * c;
    ModShift(0, p * q, c);
    ZeroMod(c);
  }

  /** In a thread whose thread pointer is aligned to the common alignment, the copy of every block is
      placed like its image modulo the block's alignment. */
  lemma CopyAligned(above: bool, ms: seq<Module>, end: nat, align: nat, i: nat, tp: int)
    requires Stacked(above, ms, end) && AlignsAll(ms, align) && i < |ms| && tp % align == 0
    ensures (tp + Start(above, ms[i])) % ms[i].align == ms[i].image % ms[i].align
  {
    var m := ms[i];
    DividesTrans(tp, align, m.align);
    var a, t := m.align, tp / m.align;
    assert tp == t * a;
    if above {
      ModShift(m.offset, t, a);
    } else {
      var u := (m.offset + m.image) / a;
      assert m.offset + m.image == u * a;
      assert (t - u) * a == t * a - u * a;
      ModShift(m.image, t - u, a);
    }
  }

  function Max(a: nat, b: nat): nat {
    if a >= b then a else b
  }

  lemma BiggerAlign(a: nat, b: nat)
    requires IsPow2Below64(a) && IsPow2Below64(b)
    ensures a < W && b < W && And(Neg(a), Neg(b)) < W && MaxP2(a, b) == Max(a, b)
  {
    var i: nat :| i < 64 && a == Pow2(i);
    var j: nat :| j < 64 && b == Pow2(j);
    MaxP2IsMax(i, j);
    if i <= j { Pow2Mono(i, j); } else { Pow2Mono(j, i); }
  }

  /** The linker's TLS globals and its list of TLS modules. */
  class TlsState {
    const above: bool
    const gap: nat      // GAP_ABOVE_TP
    var tlsCnt: nat
    var tlsOffset: nat
    var tlsAlign: nat
    var modules: seq<Module>

    ghost predicate Valid()
      reads this
    {
      && tlsCnt == |modules| && tlsOffset < W && gap < W
      && (forall i :: 0 <= i < |modules| ==> modules[i].id == i + 1)
      && Stacked(above, modules, tlsOffset)
      && AlignsAll(modules, tlsAlign)
    }

    constructor (above: bool, gap: nat, minAlign: nat)
      requires gap < W && IsPow2Below64(minAlign)
      ensures Valid() && modules == [] && tlsOffset == 0 && tlsAlign == minAlign
      ensures this.above == above && this.gap == gap
    {
      this.above, this.gap := above, gap;
      tlsCnt, tlsOffset, tlsAlign, modules := 0, 0, minAlign, [];
    }

    /** Record a block that has been given its place. */
    method Add(m: Module, end: nat)
      requires Valid() && m.id == |modules| + 1 && end < W && Aligned(above, m)
      requires if above then tlsOffset <= m.offset && m.offset + m.size <= end
               else tlsOffset + m.size <= m.offset <= end
      modifies this
      ensures Valid() && modules == old(modules) + [m] && tlsOffset == end && tlsAlign == Max(old(tlsAlign), m.align)
    {
      StackMore(above, modules, tlsOffset, m, end);
      AlignMore(modules, tlsAlign, m);
      BiggerAlign(tlsAlign, m.align);
      tlsCnt := tlsCnt + 1;
      tlsAlign := MaxP2(tlsAlign, m.align);
      tlsOffset := end;
      modules := modules + [m];
    }

    /** The TLS part of load_library. */
    method PlaceLibrary(image: nat, size: nat, align: nat)
      requires Valid() && IsPow2Below64(align) && image < W
      requires tlsOffset + size + align < W
      modifies this
      ensures Valid()
      ensures image == 0 ==> modules == old(modules) && tlsOffset == old(tlsOffset) && tlsAlign == old(tlsAlign)
      ensures image != 0 ==>
                && |modules| == |old(modules)| + 1 && modules[..|old(modules)|] == old(modules)
                && var m := modules[|old(modules)|]; m.image == image && m.size == size && m.align == align
      ensures tlsAlign == if image == 0 then old(tlsAlign) else Max(old(tlsAlign), align)
      ensures tlsOffset <= old(tlsOffset) + size + align
    {
      if image == 0 { return; }
      var offset, end;
      if above {
        AboveOk(tlsOffset, image, align);
        offset := OffsetAbove(tlsOffset, image, align);
        end := offset + size;
      } else {
        BelowOk(tlsOffset, image, size, align);
        offset := OffsetBelow(tlsOffset, image, size, align);
        end := offset;
      }
      Add(Module(tlsCnt + 1, image, size, align, offset), end);
    }

    /** The TLS part of __dls3, which places the main program first. */
    method PlaceApp(image: nat, size: nat, align: nat)
      requires Valid() && modules == [] && tlsOffset == 0 && IsPow2Below64(align) && image < W
      requires gap + size + align < W
      modifies this
      ensures Valid()
      ensures size == 0 ==> modules == [] && tlsOffset == 0
      ensures size != 0 ==>
                |modules| == 1 && modules[0].image == image && modules[0].size == size && modules[0].align == align
      ensures size != 0 && above ==> gap <= modules[0].offset
    {
      if size == 0 { return; }
      var offset, end;
      if above {
        AboveOk(gap, image, align);
        offset := OffsetAbove(gap, image, align);
        end := offset + size;
      } else {
        AppBelowOk(image, size, align);
        offset := AppOffsetBelow(image, size, align);
        end := offset;
      }
      Add(Module(1, image, size, align, offset), end);
    }

    /** Any sequence of loads adds the blocks of those libraries that have one, in order, and keeps all blocks
        disjoint and congruent to their images, and the common alignment a multiple of all. */
    method PlaceAll(libs: seq<(nat, nat, nat)>)
      requires Valid() && forall l :: l in libs ==> l.0 < W && IsPow2Below64(l.2)
      requires tlsOffset + Room(libs) < W
      modifies this
      ensures Valid() && old(modules) <= modules && Blocks(modules[|old(modules)|..]) == WithTls(libs)
      ensures forall i, j :: 0 <= i < j < |modules| ==> Disjoint(above, modules[i], modules[j])
      ensures forall i :: 0 <= i < |modules| ==> Aligned(above, modules[i]) && tlsAlign % modules[i].align == 0
      ensures tlsAlign == MaxAlign(old(tlsAlign), libs)
    {
      hide Stacked, AlignsAll, Aligned, Disjoint, Blocks, WithTls, IsPow2Below64, Max;
      var n := 0;
      ghost var k := |modules|;
      NoneAdded(modules, libs);
      assert libs[0..] == libs;
      while n < |libs|
        invariant n <= |libs| && Valid() && tlsOffset + Room(libs[n..]) < W
        invariant MaxAlign(tlsAlign, libs[n..]) == MaxAlign(old(tlsAlign), libs)
        invariant old(modules) <= modules && Blocks(modules[k..]) + WithTls(libs[n..]) == WithTls(libs)
      {
        assert libs[n] in libs && libs[n..][1..] == libs[n + 1..];
        ghost var before := modules;
        PlaceLibrary(libs[n].0, libs[n].1, libs[n].2);
        OneAdded(before, modules, k, libs[n..]);
        n := n + 1;
      }
      NoneLeft(Blocks(modules[k..]), libs[n..]);
      AllPlaced(above, modules, tlsOffset, tlsAlign);
    }
  }

  lemma AllPlaced(above: bool, ms: seq<Module>, end: nat, align: nat)
    requires Stacked(above, ms, end) && AlignsAll(ms, align)
    ensures forall i, j :: 0 <= i < j < |ms| ==> Disjoint(above, ms[i], ms[j])
    ensures forall i :: 0 <= i < |ms| ==> Aligned(above, ms[i]) && align % ms[i].align == 0
  {
    forall i, j | 0 <= i < j < |ms| ensures Disjoint(above, ms[i], ms[j]) {
      StackedDisjoint(above, ms, end, i, j);
    }
  }

  lemma NoneAdded(ms: seq<Module>, libs: seq<(nat, nat, nat)>)
    ensures Blocks(ms[|ms|..]) + WithTls(libs) == WithTls(libs)
  {}

  lemma NoneLeft(blocks: seq<(nat, nat, nat)>, libs: seq<(nat, nat, nat)>)
    requires libs == []
    ensures blocks + WithTls(libs) == blocks
  {}

  lemma OneAdded(before: seq<Module>, ms: seq<Module>, k: nat, libs: seq<(nat, nat, nat)>)
    requires k <= |before| && libs != []
    requires libs[0].0 == 0 ==> ms == before
    requires libs[0].0 != 0 ==>
               && |ms| == |before| + 1 && ms[..|before|] == before
               && var m := ms[|before|]; (m.image, m.size, m.align) == libs[0]
    ensures Blocks(ms[k..]) + WithTls(libs[1..]) == Blocks(before[k..]) + WithTls(libs)
  {
    if libs[0].0 != 0 {
      var m := ms[|before|];
      assert ms[k..] == before[k..] + [m];
      BlocksSnoc(before[k..], m);
    }
  }

  /** The image, size and alignment of each block. */
  ghost function Blocks(ms: seq<Module>): (r: seq<(nat, nat, nat)>)
    ensures |r| == |ms|
  {
    if ms == [] then [] else [(ms[0].image, ms[0].size, ms[0].align)] + Blocks(ms[1..])
  }

  lemma {:induction false} BlocksSnoc(ms: seq<Module>, m: Module)
    ensures Blocks(ms + [m]) == Blocks(ms) + [(m.image, m.size, m.align)]
  {
    if ms == [] {
      assert ms + [m] == [m];
    } else {
      BlocksSnoc(ms[1..], m);
      assert (ms + [m])[1..] == ms[1..] + [m];
    }
  }

  /** The libraries with a TLS image. */
  ghost function WithTls(libs: seq<(nat, nat, nat)>): seq<(nat, nat, nat)> {
    if libs == [] then [] else (if libs[0].0 != 0 then [libs[0]] else []) + WithTls(libs[1..])
  }

  /** The largest alignment of these libraries' blocks, and at least `align`. */
  ghost function MaxAlign(align: nat, libs: seq<(nat, nat, nat)>): nat
    decreases |libs|
  {
    if libs == [] then align
    else MaxAlign(if libs[0].0 == 0 then align else Max(align, libs[0].2), libs[1..])
  }

  /** An upper bound of the room that libraries with (image, size, alignment) take. */
  ghost function Room(libs: seq<(nat, nat, nat)>): nat {
    if libs == [] then 0 else libs[0].1 + libs[0].2 + Room(libs[1..])
  }
}
