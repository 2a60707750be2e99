/** Octets and big-endian numbers, as `encoding/binary` reads and writes them. */
module Bytes {

  type byte = b: int | 0 <= b < 256
  type bytes = seq<byte>

  // ----- Bits of an octet -----

  /** `b & w != 0` for a single-bit mask `w`. */
  predicate HasBit(b: byte, w: byte)
    requires w > 0
  {
    b / w % 2 == 1
  }

  /** `if on { b |= w }` for a single-bit mask `w` of the high half. */
  function OrBit(b: byte, w: byte, on: bool): byte
    requires w in {0x10, 0x20, 0x40, 0x80}
  {
    if on && !HasBit(b, w) then b + w else b
  }

  function Pow2(k: nat): (p: nat)
    ensures p >= 1
  {
    if k == 0 then 1 else 2 * Pow2(k - 1)
  }

  /** Exclusive or of the low `k` bits. */
  function XorBits(a: nat, b: nat, k: nat): (r: nat)
    ensures r < Pow2(k)
  {
    if k == 0 then 0 else (a + b) % 2 + 2 * XorBits(a / 2, b / 2, k - 1)
  }

  function Xor(a: byte, b: byte): byte {
    assert Pow2(8) == 256;
    XorBits(a, b, 8)
  }

  lemma LowBit(a: nat, b: nat, high: nat)
    ensures var r := (a + b) % 2 + 2 * high; r / 2 == high && (r + b) % 2 == a % 2
  {
    var m := a / 2 + b / 2;
    assert a % 2 == 0 || a % 2 == 1;
    assert b % 2 == 0 || b % 2 == 1;
  }

  lemma {:induction false} XorBitsTwice(a: nat, b: nat, k: nat)
    requires a < Pow2(k)
    ensures XorBits(XorBits(a, b, k), b, k) == a
  {
    if k > 0 {
      XorBitsTwice(a / 2, b / 2, k - 1);
      LowBit(a, b, XorBits(a / 2, b / 2, k - 1));
    }
  }

  lemma XorTwice(a: byte, b: byte)
    ensures Xor(Xor(a, b), b) == a
  {
    assert Pow2(8) == 256;
    XorBitsTwice(a, b, 8);
  }

  // ----- Big-endian numbers -----

  function Pow256(k: nat): (p: nat)
    ensures p >= 1
  {
    if k == 0 then 1 else 256 * Pow256(k - 1)
  }

  /** The big-endian value of a string of octets. */
  function BigEndian(s: bytes): (n: nat)
    ensures n < Pow256(|s|)
  {
    if s == [] then 0 else 256 * BigEndian(s[..|s| - 1]) + s[|s| - 1]
  }

  /** The low `width` octets of `n`, high end first. */
  function PutBigEndian(n: nat, width: nat): (s: bytes)
    ensures |s| == width
  {
    if width == 0 then [] else PutBigEndian(n / 256, width - 1) + [n % 256]
  }

  lemma {:induction false} BigEndianInverse(n: nat, width: nat)
    requires n < Pow256(width)
    ensures BigEndian(PutBigEndian(n, width)) == n
  {
    if width > 0 {
      BigEndianInverse(n / 256, width - 1);
      assert PutBigEndian(n, width)[..width - 1] == PutBigEndian(n / 256, width - 1);
    }
  }

  lemma LowOctet(high: nat, low: byte)
    ensures (256 * high + low) / 256 == high && (256 * high + low) % 256 == low
  {
  }

  lemma {:induction false} PutBigEndianInverse(s: bytes)
    ensures PutBigEndian(BigEndian(s), |s|) == s
  {
    if s != [] {
      PutBigEndianInverse(s[..|s| - 1]);
      LowOctet(BigEndian(s[..|s| - 1]), s[|s| - 1]);
      assert s == s[..|s| - 1] + [s[|s| - 1]];
    }
  }
}
