/** What the modules here share: bytes, their exclusive or, and a value that may be absent. */
module Basics {

  type byte = b: int | 0 <= b < 256

  datatype Option<+T> = None | Some(value: T)

  /** Exclusive or of the low `bits` bits, bit by bit. */
  function XorBits(a: nat, b: nat, bits: nat): nat {
    if bits == 0 then 0
    else (if a % 2 == b % 2 then 0 else 1) + 2 * XorBits(a / 2, b / 2, bits - 1)
  }

  function Xor(a: byte, b: byte): (r: byte) {
    XorIsByte(a, b, 8);
    XorBits(a, b, 8)
  }

  function Pow2(n: nat): (r: nat)
    ensures r >= 1
  {
    if n == 0 then 1 else 2 * Pow2(n - 1)
  }

  lemma {:induction false} XorIsByte(a: nat, b: nat, bits: nat)
    ensures XorBits(a, b, bits) < Pow2(bits)
    ensures Pow2(8) == 256
  {
    assert Pow2(8) == 2 * Pow2(7) == 4 * Pow2(6) == 8 * Pow2(5) == 16 * Pow2(4) == 32 * Pow2(3);
    if bits > 0 {
      XorIsByte(a / 2, b / 2, bits - 1);
    }
  }

  /** Masking twice with one byte gives back what was masked. */
  lemma XorTwice(a: byte, b: byte)
    ensures Xor(Xor(a, b), b) == a
  {
    XorBitsTwice(a, b, 8);
    XorIsByte(a, b, 8);
  }

  lemma {:induction false} XorBitsTwice(a: nat, b: nat, bits: nat)
    requires a < Pow2(bits)
    ensures XorBits(XorBits(a, b, bits), b, bits) == a
  {
    if bits > 0 {
      XorBitsTwice(a / 2, b / 2, bits - 1);
    }
  }

  /** A number not yet used, for whatever is made next. */
  method Unlike(used: set<nat>) returns (n: nat)
    ensures n !in used
  {
    n := 0;
    var left := used;
    while left != {}
      invariant forall k | k in used :: k in left || k < n
    {
      var k :| k in left;
      n := if k < n then n else k + 1;
      left := left - {k};
    }
  }
}
