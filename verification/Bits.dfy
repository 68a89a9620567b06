// Unsigned machine integers and the bit operations the packet code uses on them (mqtt/packets/packet.go,
// mqtt/packets/primitives/varint.go). A mask of low bits is written as a remainder and a right shift as a division;
// bitwise or and the 32-bit left shift are functions of their own, related to arithmetic by OrDisjoint.
module Bits {
  type byte = x: int | 0 <= x < 0x100
  type uint16 = x: int | 0 <= x < 0x1_0000
  type uint32 = x: int | 0 <= x < 0x1_0000_0000

  const TWO_TO_THE_32 := 0x1_0000_0000

  // Addition on 32-bit unsigned integers wraps around.
  function Add32(a: uint32, b: uint32): uint32 {
    (a + b) % TWO_TO_THE_32
  }

  // A length held in a 32-bit unsigned integer.
  function Wrap32(a: nat): uint32 {
    a % TWO_TO_THE_32
  }

  lemma AddWrapped(a: nat, b: uint32)
    ensures Add32(Wrap32(a), b) == Wrap32(a + b)
  {
  }

  // Reducing the terms of a sum first does not change it.
  lemma Add32Sum(a: nat, b: nat)
    ensures Add32(a % TWO_TO_THE_32, b % TWO_TO_THE_32) == (a + b) % TWO_TO_THE_32
  {
  }

  function Pow2(k: nat): (p: nat)
    ensures p >= 1
  {
    if k == 0 then 1 else 2 * Pow2(k - 1)
  }

  // Bitwise or, bit by bit from the least significant end.
  function BitOr(a: nat, b: nat): nat
    decreases a + b
  {
    if a == 0 then b
    else if b == 0 then a
    else 2 * BitOr(a / 2, b / 2) + (if a % 2 == 1 || b % 2 == 1 then 1 else 0)
  }

  // Bitwise or of 32-bit values.
  function Or32(a: uint32, b: uint32): uint32 {
    Powers();
    OrBelow(a, b, 32);
    BitOr(a, b)
  }

  // Left shift of a 32-bit value: bits pushed past the top are lost, and a count of 32 or more leaves nothing.
  function Shl32(x: uint32, k: nat): uint32 {
    if k >= 32 then 0 else (x * Pow2(k)) % TWO_TO_THE_32
  }

  // Or-ing two values whose bits do not overlap adds them.
  lemma {:induction false} OrDisjoint(a: nat, b: nat, x: nat, k: nat)
    requires a < Pow2(k) && b == x * Pow2(k)
    ensures BitOr(a, b) == a + b
  {
    if k > 0 && a > 0 && b > 0 {
      var c := x * Pow2(k - 1);
      assert b == 2 * c;
      OrDisjoint(a / 2, c, x, k - 1);
    }
  }

  lemma {:induction false} OrBelow(a: nat, b: nat, k: nat)
    requires a < Pow2(k) && b < Pow2(k)
    ensures BitOr(a, b) < Pow2(k)
  {
    if k > 0 && a > 0 && b > 0 {
      OrBelow(a / 2, b / 2, k - 1);
    }
  }

  // The powers of two the packet code shifts by.
  lemma Powers()
    ensures Pow2(1) == 2 && Pow2(3) == 8 && Pow2(4) == 16
    ensures Pow2(7) == 128 && Pow2(14) == 16_384 && Pow2(21) == 2_097_152 && Pow2(28) == 268_435_456
    ensures Pow2(32) == TWO_TO_THE_32
  {
    assert Pow2(4) == 16;
    assert Pow2(8) == 256;
    assert Pow2(12) == 4096;
    assert Pow2(14) == 16_384;
    assert Pow2(18) == 262_144;
    assert Pow2(21) == 2_097_152;
    assert Pow2(24) == 16_777_216;
    assert Pow2(28) == 268_435_456;
    assert Pow2(32) == TWO_TO_THE_32;
  }
}
