/** What the parts of net_shim.c share. */
module NetShim {
  datatype State = FREE | CLOSED | CONNECTING | CONNECTED | LISTENING | ERROR

  const NET_BLOCK_TIMEOUT_MS := 30000
  const TWO_32 := 0x1_0000_0000

  /** The 32-bit time since `start` has reached the limit. */
  predicate Late(start: nat, now: nat) {
    (now - start) % TWO_32 >= NET_BLOCK_TIMEOUT_MS
  }

  /** Time is up exactly from 30000 ms after the start on, also when the 32-bit clock wraps around in between. */
  lemma LateIff(start: nat, d: nat)
    requires start < 0x1_0000_0000 && d < 0x1_0000_0000
    ensures Late(start, (start + d) % 0x1_0000_0000) <==> d >= 30000
  {
    var now := (start + d) % TWO_32;
    assert now == start + d || now == start + d - TWO_32;
    assert (now - start) % TWO_32 == d;
  }
}
