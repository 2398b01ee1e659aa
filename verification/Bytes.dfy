/**
 Bytes, machine words, and the little-endian and bitwise operators the kernel uses on them.

 A byte is an integer in 0..255 and every operator is written out over unbounded integers, so
 width and wrap-around are explicit wherever they matter.
 */
module Bytes {

  type byte = x: int | 0 <= x < 256
  type u32 = x: int | 0 <= x < U32_LIMIT
  type u64 = x: int | 0 <= x < U64_LIMIT

  const U32_LIMIT := 0x1_0000_0000
  const U64_LIMIT := 0x1_0000_0000_0000_0000
  const U32_MAX := 0xFFFF_FFFF

  datatype Option<+T> = None | Some(value: T)

  // ---- fixed-width little-endian integers ----------------------------------------------

  function Pow256(w: nat): (p: nat)
    ensures p >= 1
  {
    if w == 0 then 1 else 256 * Pow256(w - 1)
  }

  /** `to_le_bytes` of a w-byte word: the low byte comes first, excess high bytes are dropped. */
  function LE(n: nat, w: nat): (s: seq<byte>)
    ensures |s| == w
  {
    if w == 0 then [] else [n % 256] + LE(n / 256, w - 1)
  }

  /** `from_le_bytes`. */
  function FromLE(s: seq<byte>): nat {
    if s == [] then 0 else s[0] + 256 * FromLE(s[1..])
  }

  lemma {:induction false} DecodeEncode(n: nat, w: nat)
    requires n < Pow256(w)
    ensures FromLE(LE(n, w)) == n
  {
    if w != 0 {
      DecodeEncode(n / 256, w - 1);
      assert LE(n, w)[1..] == LE(n / 256, w - 1);
    }
  }

  lemma {:induction false} EncodeDecode(s: seq<byte>)
    ensures FromLE(s) < Pow256(|s|)
    ensures LE(FromLE(s), |s|) == s
  {
    if s != [] {
      var rest := s[1..];
      EncodeDecode(rest);
      var n := FromLE(s);
      assert n == s[0] + 256 * FromLE(rest);
      assert n % 256 == s[0] && n / 256 == FromLE(rest);
      assert s == [s[0]] + rest;
    }
  }

  /** The four word sizes the kernel encodes. */
  lemma WordSizes()
    ensures Pow256(2) == 0x1_0000 && Pow256(4) == U32_LIMIT && Pow256(8) == U64_LIMIT
  {
    assert Pow256(1) == 256;
    assert Pow256(3) == 256 * Pow256(2);
    assert Pow256(5) == 256 * Pow256(4);
    assert Pow256(6) == 256 * Pow256(5);
    assert Pow256(7) == 256 * Pow256(6);
  }

  lemma LEInjective(a: nat, b: nat, w: nat)
    requires a < Pow256(w) && b < Pow256(w)
    requires LE(a, w) == LE(b, w)
    ensures a == b
  {
    DecodeEncode(a, w);
    DecodeEncode(b, w);
  }

  // ---- bitwise operators ---------------------------------------------------------------

  /** Bit k of a non-negative integer. */
  predicate Bit(n: nat, k: nat)
    decreases k
  {
    if k == 0 then n % 2 == 1 else Bit(n / 2, k - 1)
  }

  /** `1 << k`. */
  function Shl(k: nat): (p: nat)
    ensures p >= 1
  {
    if k == 0 then 1 else 2 * Shl(k - 1)
  }

  function And(a: nat, b: nat): nat {
    if a == 0 then 0 else (a % 2) * (b % 2) + 2 * And(a / 2, b / 2)
  }

  function Or(a: nat, b: nat): nat {
    if a == 0 then b else (if a % 2 == 1 || b % 2 == 1 then 1 else 0) + 2 * Or(a / 2, b / 2)
  }

  function Xor(a: nat, b: nat): nat
    decreases a + b
  {
    if a == 0 && b == 0 then 0 else (if a % 2 != b % 2 then 1 else 0) + 2 * Xor(a / 2, b / 2)
  }

  /** `!b` on a byte. */
  function Not(b: byte): byte {
    255 - b
  }

  lemma {:induction false} ZeroBits(k: nat)
    ensures !Bit(0, k)
  {
    if k != 0 { ZeroBits(k - 1); }
  }

  lemma {:induction false} ShlBits(k: nat, j: nat)
    ensures Bit(Shl(k), j) <==> k == j
  {
    if k == 0 {
      if j != 0 { ZeroBits(j - 1); }
    } else if j != 0 {
      ShlBits(k - 1, j - 1);
    }
  }

  lemma {:induction false} AndBits(a: nat, b: nat, j: nat)
    ensures Bit(And(a, b), j) <==> Bit(a, j) && Bit(b, j)
    decreases j
  {
    if a == 0 {
      ZeroBits(j);
    } else if j == 0 {
      assert And(a, b) % 2 == (a % 2) * (b % 2);
    } else {
      assert And(a, b) / 2 == And(a / 2, b / 2);
      AndBits(a / 2, b / 2, j - 1);
    }
  }

  lemma {:induction false} OrBits(a: nat, b: nat, j: nat)
    ensures Bit(Or(a, b), j) <==> Bit(a, j) || Bit(b, j)
    decreases j
  {
    if a == 0 {
      ZeroBits(j);
    } else if j != 0 {
      assert Or(a, b) / 2 == Or(a / 2, b / 2);
      OrBits(a / 2, b / 2, j - 1);
    }
  }

  lemma {:induction false} NonZeroHasBit(n: nat) returns (k: nat)
    requires n != 0
    ensures Bit(n, k)
  {
    if n % 2 == 1 {
      k := 0;
    } else {
      k := NonZeroHasBit(n / 2);
      k := k + 1;
    }
  }

  /** `b & (1 << k)` is non-zero exactly when bit k of b is set. */
  lemma TestMask(b: nat, k: nat)
    ensures And(b, Shl(k)) != 0 <==> Bit(b, k)
  {
    AndBits(b, Shl(k), k);
    ShlBits(k, k);
    if And(b, Shl(k)) != 0 {
      var j := NonZeroHasBit(And(b, Shl(k)));
      AndBits(b, Shl(k), j);
      ShlBits(k, j);
    } else {
      ZeroBits(k);
    }
  }

  /** `b | (1 << k)` sets bit k and keeps every other bit. */
  lemma SetMask(b: nat, k: nat, j: nat)
    ensures Bit(Or(b, Shl(k)), j) <==> j == k || Bit(b, j)
  {
    OrBits(b, Shl(k), j);
    ShlBits(k, j);
  }

  /** The complement of an n-bit number, bit by bit. */
  lemma {:induction false} ComplementBits(b: nat, w: nat, j: nat)
    requires b < Shl(w) && j < w
    ensures Bit(Shl(w) - 1 - b, j) <==> !Bit(b, j)
  {
    if j != 0 {
      assert (Shl(w) - 1 - b) / 2 == Shl(w - 1) - 1 - b / 2;
      ComplementBits(b / 2, w - 1, j - 1);
    }
  }

  lemma ByteWidth()
    ensures Shl(8) == 256
  {
    assert Shl(3) == 8;
    assert Shl(5) == 32;
    assert Shl(7) == 128;
  }

  /** A mask that fits in a byte. */
  lemma {:induction false} ShlMonotone(k: nat, w: nat)
    requires k < w
    ensures Shl(k) < Shl(w)
  {
    if k != 0 { ShlMonotone(k - 1, w - 1); }
  }

  /** `b & !(1 << k)` clears bit k and keeps every other bit of the byte. */
  lemma ClearMask(b: byte, k: nat, j: nat)
    requires k < 8 && j < 8
    ensures Shl(k) < 256
    ensures Bit(And(b, Not(Shl(k))), j) <==> j != k && Bit(b, j)
  {
    ByteWidth();
    ShlMonotone(k, 8);
    AndBits(b, Not(Shl(k)), j);
    ComplementBits(Shl(k), 8, j);
    ShlBits(k, j);
  }

  lemma {:induction false} AndBound(a: nat, b: nat)
    ensures And(a, b) <= a
  {
    if a != 0 { AndBound(a / 2, b / 2); }
  }

  lemma {:induction false} OrBound(a: nat, b: nat, w: nat)
    requires a < Shl(w) && b < Shl(w)
    ensures Or(a, b) < Shl(w)
    decreases w
  {
    if a != 0 { OrBound(a / 2, b / 2, w - 1); }
  }

  lemma {:induction false} XorBound(a: nat, b: nat, w: nat)
    requires a < Shl(w) && b < Shl(w)
    ensures Xor(a, b) < Shl(w)
    decreases w
  {
    if a != 0 || b != 0 { XorBound(a / 2, b / 2, w - 1); }
  }

  lemma XorParts(a: nat, b: nat)
    ensures Xor(a, b) % 2 == if a % 2 != b % 2 then 1 else 0
    ensures Xor(a, b) / 2 == Xor(a / 2, b / 2)
  {
    var h := Xor(a / 2, b / 2);
    assert (1 + 2 * h) / 2 == h && (2 * h) / 2 == h;
  }

  /** Exclusive or undoes itself. */
  lemma {:induction false} XorInvolution(a: nat, b: nat)
    ensures Xor(Xor(a, b), b) == a
    decreases a + b
  {
    if a != 0 || b != 0 {
      var x := Xor(a, b);
      XorParts(a, b);
      XorParts(x, b);
      XorInvolution(a / 2, b / 2);
    }
  }

  lemma XorInjective(a: nat, a': nat, b: nat)
    requires Xor(a, b) == Xor(a', b)
    ensures a == a'
  {
    XorInvolution(a, b);
    XorInvolution(a', b);
  }

  lemma {:induction false} XorZero(a: nat, b: nat)
    ensures Xor(a, b) == 0 <==> a == b
    decreases a + b
  {
    if a != 0 || b != 0 { XorZero(a / 2, b / 2); }
  }

  lemma {:induction false} OrZero(a: nat, b: nat)
    ensures Or(a, b) == 0 <==> a == 0 && b == 0
  {
    if a != 0 { OrZero(a / 2, b / 2); }
  }

  lemma {:induction false} ShlAdd(a: nat, b: nat)
    ensures Shl(a + b) == Shl(a) * Shl(b)
  {
    if a != 0 {
      ShlAdd(a - 1, b);
      assert Shl(a + b) == 2 * Shl((a - 1) + b);
    }
  }

  lemma WordWidth()
    ensures Shl(64) == U64_LIMIT
  {
    ByteWidth();
    ShlAdd(8, 8);
    assert Shl(16) == 0x1_0000;
    ShlAdd(16, 16);
    assert Shl(32) == 0x1_0000_0000;
    ShlAdd(32, 32);
  }

  /** The exclusive or of two 64-bit words is a 64-bit word. */
  lemma Xor64Bound(a: u64, b: u64)
    ensures Xor(a, b) < U64_LIMIT
  {
    WordWidth();
    XorBound(a, b, 64);
  }
}
