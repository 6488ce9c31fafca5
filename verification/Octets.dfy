/** Octets as the C code sees them, and lists of buffers. */
module Octets {
  type byte = x: int | 0 <= x < 256

  /** The buffers one after the other. */
  ghost function Flatten(bufs: seq<seq<byte>>): seq<byte> {
    if bufs == [] then [] else bufs[0] + Flatten(bufs[1..])
  }

  lemma FlattenStep(bufs: seq<seq<byte>>)
    ensures Flatten(bufs) == if bufs == [] then [] else bufs[0] + Flatten(bufs[1..])
  {}

  lemma {:induction false} FlattenConcat(a: seq<seq<byte>>, b: seq<seq<byte>>)
    ensures Flatten(a + b) == Flatten(a) + Flatten(b)
  {
    hide Flatten;
    FlattenStep(a);
    if a == [] {
      assert a + b == b;
      assert [] + Flatten(b) == Flatten(b);
    } else {
      FlattenConcat(a[1..], b);
      FlattenStep(a + b);
      assert (a + b)[1..] == a[1..] + b;
      var front, back := Flatten(a[1..]), Flatten(b);
      assert a[0] + (front + back) == a[0] + front + back;
    }
  }

  lemma FlattenOne(buf: seq<byte>)
    ensures Flatten([buf]) == buf
  {
    assert [buf][1..] == [];
    assert Flatten([]) == [];
  }

  /** One more buffer, and what all the first ones give is in front of the whole. */
  lemma FlattenPrefix(bufs: seq<seq<byte>>, i: nat)
    requires i < |bufs|
    ensures Flatten(bufs[..i]) + bufs[i] == Flatten(bufs[..i + 1]) && Flatten(bufs[..i + 1]) <= Flatten(bufs)
  {
    hide Flatten;
    assert bufs[..i + 1] == bufs[..i] + [bufs[i]];
    FlattenConcat(bufs[..i], [bufs[i]]);
    FlattenOne(bufs[i]);
    assert bufs == bufs[..i + 1] + bufs[i + 1..];
    FlattenConcat(bufs[..i + 1], bufs[i + 1..]);
  }
}
