/** Bytes and the fixed-width integers of the wire formats. */
module Bytes {
  type byte = x: int | 0 <= x < 256
  type Bytes = seq<byte>

  const U16_LIMIT := 0x1_0000
  const U32_LIMIT := 0x1_0000_0000

  function Le16(n: nat): Bytes
    requires n < U16_LIMIT
  {
    [n % 256, n / 256]
  }

  function Le32(n: nat): Bytes
    requires n < U32_LIMIT
  {
    [n % 256, n / 256 % 256, n / 256 / 256 % 256, n / 256 / 256 / 256]
  }

  function Be32(n: nat): Bytes
    requires n < U32_LIMIT
  {
    [n / 256 / 256 / 256, n / 256 / 256 % 256, n / 256 % 256, n % 256]
  }

  function FromLe16(b: Bytes, at: nat): nat
    requires at + 2 <= |b|
  {
    b[at] as int + 256 * (b[at + 1] as int)
  }

  function FromLe32(b: Bytes, at: nat): (n: nat)
    requires at + 4 <= |b|
    ensures n < U32_LIMIT
  {
    b[at] as int + 256 * (b[at + 1] as int) + 0x1_0000 * (b[at + 2] as int) + 0x100_0000 * (b[at + 3] as int)
  }

  function FromBe32(b: Bytes, at: nat): (n: nat)
    requires at + 4 <= |b|
    ensures n < U32_LIMIT
  {
    0x100_0000 * (b[at] as int) + 0x1_0000 * (b[at + 1] as int) + 256 * (b[at + 2] as int) + b[at + 3] as int
  }

  /** `int.from_bytes(b, "little")`. */
  function FromLe(b: Bytes): nat {
    if b == [] then 0 else b[0] as int + 256 * FromLe(b[1..])
  }

  lemma Digits(n: nat, b0: int, b1: int, b2: int, b3: int)
    requires n < U32_LIMIT && 0 <= b0 < 256 && 0 <= b1 < 256 && 0 <= b2 < 256 && 0 <= b3 < 256
    ensures n == b0 + 256 * b1 + 0x1_0000 * b2 + 0x100_0000 * b3 <==>
            n % 256 == b0 && n / 256 % 256 == b1 && n / 256 / 256 % 256 == b2 && n / 256 / 256 / 256 == b3
  {
    var q1 := n / 256;
    var q2 := q1 / 256;
    if n == b0 + 256 * b1 + 0x1_0000 * b2 + 0x100_0000 * b3 {
      assert q1 == b1 + 256 * (b2 + 256 * b3);
      assert q2 == b2 + 256 * b3;
    }
  }

  lemma Le32RoundTrip(b: Bytes, at: nat, n: nat)
    requires at + 4 <= |b| && n < U32_LIMIT
    ensures b[at..at + 4] == Le32(n) <==> FromLe32(b, at) == n
  {
    Digits(n, b[at], b[at + 1], b[at + 2], b[at + 3]);
    assert b[at..at + 4] == [b[at], b[at + 1], b[at + 2], b[at + 3]];
  }

  lemma Be32RoundTrip(b: Bytes, at: nat, n: nat)
    requires at + 4 <= |b| && n < U32_LIMIT
    ensures b[at..at + 4] == Be32(n) <==> FromBe32(b, at) == n
  {
    Digits(n, b[at + 3], b[at + 2], b[at + 1], b[at]);
    assert b[at..at + 4] == [b[at], b[at + 1], b[at + 2], b[at + 3]];
  }

  lemma Le16RoundTrip(b: Bytes, at: nat, n: nat)
    requires at + 2 <= |b| && n < U16_LIMIT
    ensures b[at..at + 2] == Le16(n) <==> FromLe16(b, at) == n
  {
    assert b[at..at + 2] == [b[at], b[at + 1]];
    var lo: int, hi: int := b[at], b[at + 1];
    assert (lo + 256 * hi) % 256 == lo && (lo + 256 * hi) / 256 == hi;
  }

  lemma FromLeTwo(lo: byte, hi: byte)
    ensures FromLe([lo, hi]) == lo as int + 256 * (hi as int)
  {
    assert [lo, hi][1..] == [hi];
    assert FromLe([hi]) == hi as int + 256 * FromLe([hi][1..]);
    assert [hi][1..] == [];
  }
}
