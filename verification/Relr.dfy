/** RELR relative relocations: the stage-1 loop that relocates the dynamic linker itself and
    do_relr_relocs for every other object, against the list of locations a table names. */
module Relr {
  import opened Bits

  const W := TWO_64

  // The reference. Memory is an array of 64-bit words; locations are word numbers.

  /** The word an address entry names in an object loaded at `base`. */
  function WordOf(base: nat, entry: nat): nat {
    ((base + entry) % W) / 8
  }

  /** The words a bitmap entry names from bit `k` up: bit 1 stands for the word `at`. */
  ghost function BitWords(bitmap: nat, at: nat, k: nat): seq<nat>
    requires 1 <= k <= 64
    decreases 64 - k
  {
    if k == 64 then []
    else (if Bit(bitmap, k) then [at + k - 1] else []) + BitWords(bitmap, at, k + 1)
  }

  /** All words a table names, in order. `at` is the word behind the last one covered. */
  ghost function Locations(base: nat, table: seq<nat>, at: nat): seq<nat> {
    if table == [] then []
    else if table[0] % 2 == 0 then [WordOf(base, table[0])] + Locations(base, table[1..], WordOf(base, table[0]) + 1)
    else BitWords(table[0], at, 1) + Locations(base, table[1..], at + 63)
  }

  ghost predicate InRange(locs: seq<nat>, n: nat) {
    forall i :: 0 <= i < |locs| ==> locs[i] < n
  }

  /** Memory after adding `base` to each listed word in turn. */
  ghost function Relocated(mem: seq<nat>, base: nat, locs: seq<nat>): (r: seq<nat>)
    requires InRange(locs, |mem|)
    ensures |r| == |mem|
    decreases |locs|
  {
    if locs == [] then mem
    else Relocated(mem[locs[0] := (mem[locs[0]] + base) % W], base, locs[1..])
  }

  /** A table begins with an address entry and entries are 64-bit; what it names is in memory and aligned. */
  ghost predicate WellFormed(base: nat, table: seq<nat>, n: nat) {
    && (table != [] ==> table[0] % 2 == 0)
    && (forall i :: 0 <= i < |table| ==> table[i] < W)
    && (forall i :: 0 <= i < |table| && table[i] % 2 == 0 ==> ((base + table[i]) % W) % 8 == 0)
    && InRange(Locations(base, table, 0), n)
  }

  // What the reference means

  ghost function Count(locs: seq<nat>, w: nat): nat {
    if locs == [] then 0 else (if locs[0] == w then 1 else 0) + Count(locs[1..], w)
  }

  /** Each word gains `base` once per time it is named, and a word never named is unchanged. */
  lemma {:induction false} RelocatedAt(mem: seq<nat>, base: nat, locs: seq<nat>, w: nat)
    requires InRange(locs, |mem|) && w < |mem|
    ensures Count(locs, w) == 0 ==> Relocated(mem, base, locs)[w] == mem[w]
    ensures Count(locs, w) > 0 ==> Relocated(mem, base, locs)[w] == (mem[w] + base * Count(locs, w)) % W
    decreases |locs|
  {
    if locs != [] {
      var mem' := mem[locs[0] := (mem[locs[0]] + base) % W];
      RelocatedAt(mem', base, locs[1..], w);
      if locs[0] == w {
        AddOnce(mem[w], base, Count(locs[1..], w));
      }
    }
  }

  lemma AddOnce(v: nat, base: nat, n: nat)
    ensures ((v + base) % W + base * n) % W == (v + base * (n + 1)) % W
    ensures n == 0 ==> (v + base) % W == (v + base * (n + 1)) % W
  {
    var t := (v + base) / W;
    assert base * (n + 1) == base + base * n;
    assert v + base * (n + 1) == ((v + base) % W + base * n) + t * W;
    WrapShift((v + base) % W + base * n, t);
  }

  lemma WrapShift(a: nat, t: nat)
    ensures (a + t * W) % W == a % W
  {}

  /** A table that names no word twice adds `base` exactly once to every word it names. */
  lemma NamedOnce(mem: seq<nat>, base: nat, locs: seq<nat>, i: nat)
    requires InRange(locs, |mem|) && i < |locs|
    requires forall j, k :: 0 <= j < k < |locs| ==> locs[j] != locs[k]
    ensures Relocated(mem, base, locs)[locs[i]] == (mem[locs[i]] + base) % W
  {
    CountOnce(locs, i);
    RelocatedAt(mem, base, locs, locs[i]);
  }

  lemma {:induction false} CountOnce(locs: seq<nat>, i: nat)
    requires i < |locs| && forall j, k :: 0 <= j < k < |locs| ==> locs[j] != locs[k]
    ensures Count(locs, locs[i]) == 1
  {
    if i > 0 {
      CountOnce(locs[1..], i - 1);
    } else {
      CountNone(locs[1..], locs[0]);
    }
  }

  lemma {:induction false} CountNone(locs: seq<nat>, w: nat)
    requires w !in locs
    ensures Count(locs, w) == 0
  {
    if locs != [] { CountNone(locs[1..], w); }
  }

  // Which words a table names, entry by entry

  /** Only bitmap entries lie behind the address entry `i` up to the entry `n`. */
  ghost predicate Follows(table: seq<nat>, i: nat, n: nat) {
    i < n < |table| && table[i] % 2 == 0 && forall j :: i < j <= n ==> table[j] % 2 == 1
  }

  /** Bit `k` of the bitmap entry `n` stands for `w`: each bitmap since the address entry `i` covers 63 words. */
  ghost predicate BitNames(base: nat, table: seq<nat>, i: nat, n: nat, k: nat, w: nat) {
    Follows(table, i, n) && 1 <= k <= 63 && Bit(table[n], k) && w == WordOf(base, table[i]) + 63 * (n - i - 1) + k
  }

  ghost predicate AddressNames(base: nat, table: seq<nat>, i: nat, w: nat) {
    i < |table| && table[i] % 2 == 0 && w == WordOf(base, table[i])
  }

  ghost predicate Names(base: nat, table: seq<nat>, w: nat) {
    (exists i: nat :: AddressNames(base, table, i, w))
    || exists i: nat, n: nat, k: nat :: BitNames(base, table, i, n, k, w)
  }

  /** The same for the bitmaps in front of the first address entry, which cover the words from `at` on. */
  ghost predicate FrontNames(table: seq<nat>, at: nat, n: nat, k: nat, w: nat) {
    && n < |table| && (forall j :: 0 <= j <= n ==> table[j] % 2 == 1)
    && 1 <= k <= 63 && Bit(table[n], k) && w + 1 == at + 63 * n + k
  }

  ghost predicate BitStands(bitmap: nat, at: nat, from: nat, k: nat, w: nat) {
    from <= k <= 63 && Bit(bitmap, k) && w + 1 == at + k
  }

  lemma {:induction false} BitWordsIff(bitmap: nat, at: nat, from: nat, w: nat)
    requires 1 <= from <= 64
    ensures w in BitWords(bitmap, at, from) <==> exists k: nat :: BitStands(bitmap, at, from, k, w)
    decreases 64 - from
  {
    hide Bit;
    if from < 64 {
      BitWordsIff(bitmap, at, from + 1, w);
      var next := from + 1;
      if k: nat :| BitStands(bitmap, at, next, k, w) { assert BitStands(bitmap, at, from, k, w); }
      if k: nat :| BitStands(bitmap, at, from, k, w) {
        if k > from { assert BitStands(bitmap, at, next, k, w); }
      }
      if Bit(bitmap, from) && w + 1 == at + from { assert BitStands(bitmap, at, from, from, w); }
    }
  }

  /** What the entries behind the first one name. */
  ghost predicate Later(base: nat, table: seq<nat>, at: nat, w: nat) {
    Names(base, table, w) || exists n: nat, k: nat :: FrontNames(table, at, n, k, w)
  }

  /** What the first entry names. */
  ghost predicate FirstNames(base: nat, entry: nat, at: nat, w: nat) {
    if entry % 2 == 0 then w == WordOf(base, entry) else exists k: nat :: BitStands(entry, at, 1, k, w)
  }

  function Behind(base: nat, entry: nat, at: nat): nat {
    if entry % 2 == 0 then WordOf(base, entry) + 1 else at + 63
  }

  lemma LaterOnward(base: nat, table: seq<nat>, at: nat, w: nat)
    requires table != []
    requires FirstNames(base, table[0], at, w) || Later(base, table[1..], Behind(base, table[0], at), w)
    ensures Later(base, table, at, w)
  {
    hide Bit, WordOf;
    var rest := table[1..];
    assert forall j :: 0 <= j < |rest| ==> rest[j] == table[j + 1];
    assert forall j :: 0 < j < |table| ==> table[j] == rest[j - 1];
    if FirstNames(base, table[0], at, w) {
      if table[0] % 2 == 0 {
        assert AddressNames(base, table, 0, w);
      } else {
        var k: nat :| BitStands(table[0], at, 1, k, w);
        assert FrontNames(table, at, 0, k, w);
      }
    } else if i: nat :| AddressNames(base, rest, i, w) {
      assert AddressNames(base, table, i + 1, w);
    } else if i: nat, n: nat, k: nat :| BitNames(base, rest, i, n, k, w) {
      assert BitNames(base, table, i + 1, n + 1, k, w);
    } else {
      var n: nat, k: nat :| FrontNames(rest, Behind(base, table[0], at), n, k, w);
      if table[0] % 2 == 0 {
        assert BitNames(base, table, 0, n + 1, k, w);
      } else {
        assert FrontNames(table, at, n + 1, k, w);
      }
    }
  }

  lemma LaterBack(base: nat, table: seq<nat>, at: nat, w: nat)
    requires table != [] && Later(base, table, at, w)
    ensures FirstNames(base, table[0], at, w) || Later(base, table[1..], Behind(base, table[0], at), w)
  {
    hide Bit, WordOf;
    var rest := table[1..];
    assert forall j :: 0 <= j < |rest| ==> rest[j] == table[j + 1];
    assert forall j :: 0 < j < |table| ==> table[j] == rest[j - 1];
    if i: nat :| AddressNames(base, table, i, w) {
      if i > 0 { assert AddressNames(base, rest, i - 1, w); }
    } else if i: nat, n: nat, k: nat :| BitNames(base, table, i, n, k, w) {
      if i > 0 {
        assert BitNames(base, rest, i - 1, n - 1, k, w);
      } else {
        assert FrontNames(rest, Behind(base, table[0], at), n - 1, k, w);
      }
    } else {
      var n: nat, k: nat :| FrontNames(table, at, n, k, w);
      if n > 0 {
        assert FrontNames(rest, Behind(base, table[0], at), n - 1, k, w);
      } else {
        assert BitStands(table[0], at, 1, k, w);
      }
    }
  }

  lemma {:induction false} LocationsAre(base: nat, table: seq<nat>, at: nat, w: nat)
    ensures w in Locations(base, table, at) <==> Later(base, table, at, w)
    decreases |table|
  {
    if table != [] {
      LocationsAre(base, table[1..], Behind(base, table[0], at), w);
      if table[0] % 2 == 1 { BitWordsIff(table[0], at, 1, w); }
      hide Bit, WordOf, BitWords, Later, BitStands;
      if Later(base, table, at, w) { LaterBack(base, table, at, w); }
      if FirstNames(base, table[0], at, w) || Later(base, table[1..], Behind(base, table[0], at), w) {
        LaterOnward(base, table, at, w);
      }
    }
  }

  /** A word is relocated exactly if an address entry names it, or a bit of a bitmap that follows one. */
  lemma NamedIff(base: nat, table: seq<nat>, n: nat, w: nat)
    requires WellFormed(base, table, n)
    ensures w in Locations(base, table, 0) <==> Names(base, table, w)
  {
    LocationsAre(base, table, 0, w);
  }

  /** A shifted-out bitmap names nothing more. */
  lemma {:induction false} NoBitsLeft(bitmap: nat, at: nat, k: nat)
    requires 1 <= k <= 64 && Shr(bitmap, k) == 0
    ensures BitWords(bitmap, at, k) == []
    decreases 64 - k
  {
    if k < 64 {
      ShrBit(bitmap, k);
      ShrStep(bitmap, k);
      NoBitsLeft(bitmap, at, k + 1);
    }
  }

  // The two implementations

  ghost predicate Todo(mem: seq<nat>, goal: seq<nat>, base: nat, locs: seq<nat>) {
    InRange(locs, |mem|) && Relocated(mem, base, locs) == goal
  }

  lemma TodoFirst(mem: seq<nat>, goal: seq<nat>, base: nat, locs: seq<nat>)
    requires locs != [] && Todo(mem, goal, base, locs)
    ensures locs[0] < |mem| && Todo(mem[locs[0] := (mem[locs[0]] + base) % W], goal, base, locs[1..])
  {}

  /** Bit `k` of a bitmap entry is done by adding `base` to its word if it is set. */
  lemma TodoBit(mem: seq<nat>, goal: seq<nat>, base: nat, bitmap: nat, at: nat, k: nat, rest: seq<nat>)
    requires 1 <= k < 64 && Todo(mem, goal, base, BitWords(bitmap, at, k) + rest)
    ensures Bit(bitmap, k) ==>
              && at + k - 1 < |mem|
              && Todo(mem[at + k - 1 := (mem[at + k - 1] + base) % W], goal, base, BitWords(bitmap, at, k + 1) + rest)
    ensures !Bit(bitmap, k) ==> Todo(mem, goal, base, BitWords(bitmap, at, k + 1) + rest)
  {
    hide Bit, Todo;
    var now, later := BitWords(bitmap, at, k) + rest, BitWords(bitmap, at, k + 1) + rest;
    if Bit(bitmap, k) {
      assert now == [at + k - 1] + later;
      assert now[1..] == later;
      TodoFirst(mem, goal, base, now);
    } else {
      assert now == later;
    }
  }

  /** A bitmap entry: shift the bitmap until it is empty, adding `base` where the low bit is set. */
  method ApplyBitmap(mem: array<nat>, base: nat, bitmap0: nat, at: nat, ghost rest: seq<nat>, ghost goal: seq<nat>)
    requires bitmap0 < W && Todo(mem[..], goal, base, BitWords(bitmap0, at, 1) + rest)
    modifies mem
    ensures Todo(mem[..], goal, base, rest)
  {
    hide Todo, Bit, BitWords;
    var i, bitmap := 0, bitmap0 / 2;
    assert Shr(bitmap0, 1) == bitmap by { assert Shr(bitmap0 / 2, 0) == bitmap0 / 2; }
    hide Shr;
    while bitmap != 0
      invariant i <= 63 && bitmap == Shr(bitmap0, i + 1)
      invariant Todo(mem[..], goal, base, BitWords(bitmap0, at, i + 1) + rest)
    {
      FullyShifted(bitmap0);
      ShrBit(bitmap0, i + 1);
      TodoBit(mem[..], goal, base, bitmap0, at, i + 1, rest);
      if bitmap % 2 == 1 {
        ghost var before := mem[..];
        mem[at + i] := (mem[at + i] + base) % W;
        assert mem[..] == before[at + i := (before[at + i] + base) % W];
      }
      ShrStep(bitmap0, i + 1);
      bitmap := bitmap / 2;
      i := i + 1;
    }
    NoBitsLeft(bitmap0, at, i + 1);
    assert BitWords(bitmap0, at, i + 1) + rest == rest;
  }

  lemma FullyShifted(x: nat)
    requires x < W
    ensures Shr(x, 64) == 0
  {
    Pow2At64();
    ShrRange(x, 64);
  }

  /** An address entry: add `base` to its word and go on behind it. */
  method ApplyAddress(mem: array<nat>, base: nat, entry: nat, ghost rest: seq<nat>, ghost goal: seq<nat>)
      returns (at: nat)
    requires Todo(mem[..], goal, base, [WordOf(base, entry)] + rest)
    modifies mem
    ensures at == WordOf(base, entry) + 1 && Todo(mem[..], goal, base, rest)
  {
    var w := WordOf(base, entry);
    TodoFirst(mem[..], goal, base, [w] + rest);
    assert ([w] + rest)[1..] == rest;
    ghost var before := mem[..];
    mem[w] := (mem[w] + base) % W;
    assert mem[..] == before[w := (before[w] + base) % W];
    at := w + 1;
  }

  lemma LocationsStep(base: nat, table: seq<nat>, n: nat, at: nat)
    requires n < |table|
    ensures Locations(base, table[n..], at) ==
            if table[n] % 2 == 0
            then [WordOf(base, table[n])] + Locations(base, table[n + 1..], WordOf(base, table[n]) + 1)
            else BitWords(table[n], at, 1) + Locations(base, table[n + 1..], at + 63)
  {
    hide BitWords, WordOf;
    assert table[n..][1..] == table[n + 1..];
  }

  /** One entry of the table. */
  method ApplyEntry(mem: array<nat>, base: nat, table: seq<nat>, n: nat, at0: nat, ghost goal: seq<nat>)
      returns (at: nat)
    requires n < |table| && table[n] < W
    requires Todo(mem[..], goal, base, Locations(base, table[n..], at0))
    modifies mem
    ensures Todo(mem[..], goal, base, Locations(base, table[n + 1..], at))
  {
    hide Todo, InRange, Relocated, Locations, BitWords;
    LocationsStep(base, table, n, at0);
    if table[n] % 2 == 0 {
      at := ApplyAddress(mem, base, table[n], Locations(base, table[n + 1..], WordOf(base, table[n]) + 1), goal);
    } else {
      ApplyBitmap(mem, base, table[n], at0, Locations(base, table[n + 1..], at0 + 63), goal);
      at := at0 + 63;
    }
  }

  lemma LocationsEnd(base: nat, at: nat)
    ensures Locations(base, [], at) == []
  {}

  lemma TodoNothing(mem: seq<nat>, goal: seq<nat>, base: nat)
    requires Todo(mem, goal, base, [])
    ensures mem == goal
  {}

  lemma StartTodo(mem: seq<nat>, base: nat, table: seq<nat>) returns (goal: seq<nat>)
    requires WellFormed(base, table, |mem|)
    ensures InRange(Locations(base, table, 0), |mem|) && goal == Relocated(mem, base, Locations(base, table, 0))
    ensures Todo(mem, goal, base, Locations(base, table[0..], 0))
    ensures forall i :: 0 <= i < |table| ==> table[i] < W
  {
    goal := Relocated(mem, base, Locations(base, table, 0));
    assert table[0..] == table;
  }

  /** The loop that both share. */
  method ApplyTable(mem: array<nat>, base: nat, table: seq<nat>)
    requires WellFormed(base, table, mem.Length)
    modifies mem
    ensures mem[..] == Relocated(old(mem[..]), base, Locations(base, table, 0))
  {
    hide Todo, InRange, Relocated, Locations, BitWords, WordOf, WellFormed;
    var at: nat, n: nat := 0, 0;
    ghost var goal := StartTodo(mem[..], base, table);
    while n < |table|
      invariant n <= |table|
      invariant Todo(mem[..], goal, base, Locations(base, table[n..], at))
    {
      at := ApplyEntry(mem, base, table, n, at, goal);
      n := n + 1;
    }
    assert table[n..] == [];
    LocationsEnd(base, at);
    TodoNothing(mem[..], goal, base);
  }

  /** The end of _dlstart_c. */
  method StageOne(mem: array<nat>, base: nat, table: seq<nat>)
    requires WellFormed(base, table, mem.Length)
    modifies mem
    ensures mem[..] == Relocated(old(mem[..]), base, Locations(base, table, 0))
  {
    ApplyTable(mem, base, table);
  }

  /** do_relr_relocs: the dynamic linker itself was relocated in stage 1 and is skipped. */
  method DoRelrRelocs(mem: array<nat>, base: nat, table: seq<nat>, isLdso: bool)
    requires WellFormed(base, table, mem.Length)
    modifies mem
    ensures isLdso ==> mem[..] == old(mem[..])
    ensures !isLdso ==> mem[..] == Relocated(old(mem[..]), base, Locations(base, table, 0))
  {
    if isLdso { return; }
    ApplyTable(mem, base, table);
  }
}
