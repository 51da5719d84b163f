/** Bitwise "or" and "exclusive or" on bytes, by their bits, least significant first. */
module Bits {
  import opened Bytes

  function Pow2(k: nat): (r: nat)
    ensures r > 0
  {
    if k == 0 then 1 else 2 * Pow2(k - 1)
  }

  function OrBits(a: nat, b: nat, k: nat): (r: nat)
    ensures r < Pow2(k)
  {
    if k == 0 then 0 else Max(a % 2, b % 2) + 2 * OrBits(a / 2, b / 2, k - 1)
  }

  function XorBits(a: nat, b: nat, k: nat): (r: nat)
    ensures r < Pow2(k)
  {
    if k == 0 then 0 else (a + b) % 2 + 2 * XorBits(a / 2, b / 2, k - 1)
  }

  function Or(a: byte, b: byte): byte {
    assert Pow2(8) == 256;
    OrBits(a, b, 8)
  }

  function Xor(a: byte, b: byte): byte {
    assert Pow2(8) == 256;
    XorBits(a, b, 8)
  }

  lemma {:induction false} XorBitsTwice(a: nat, b: nat, k: nat)
    requires a < Pow2(k)
    ensures XorBits(XorBits(a, b, k), b, k) == a
  {
    if k == 0 {
    } else {
      XorBitsTwice(a / 2, b / 2, k - 1);
      LowBit(a, b, XorBits(a, b, k), XorBits(a / 2, b / 2, k - 1));
    }
  }

  lemma LowBit(a: nat, b: nat, x: nat, high: nat)
    requires x == (a + b) % 2 + 2 * high
    ensures x / 2 == high && (x + b) % 2 == a % 2
  {
    if a % 2 == 0 {
      assert (a + b) % 2 == b % 2;
    } else {
      assert (a + b) % 2 == 1 - b % 2;
    }
  }

  lemma {:induction false} XorBitsZero(b: nat, k: nat)
    requires b < Pow2(k)
    ensures XorBits(0, b, k) == b
  {
    if k == 0 {
    } else {
      XorBitsZero(b / 2, k - 1);
    }
  }

  lemma XorZero(b: byte)
    ensures Xor(0, b) == b
  {
    assert Pow2(8) == 256;
    XorBitsZero(b, 8);
  }

  lemma XorTwice(a: byte, b: byte)
    ensures Xor(Xor(a, b), b) == a
  {
    assert Pow2(8) == 256;
    XorBitsTwice(a, b, 8);
  }

  lemma {:induction false} OrBitsWithZero(a: nat, k: nat)
    requires a < Pow2(k)
    ensures OrBits(a, 0, k) == a
  {
    if k == 0 {
    } else {
      OrBitsWithZero(a / 2, k - 1);
    }
  }

  /** Bits that do not overlap add up. */
  lemma {:induction false} OrBitsDisjoint(a: nat, b: nat, k: nat, n: nat)
    requires a < Pow2(k) && b < Pow2(n) && a % Pow2(n) == 0 && n <= k
    ensures OrBits(a, b, k) == a + b
  {
    if n == 0 {
      OrBitsWithZero(a, k);
    } else {
      var m := Pow2(n - 1);
      assert a == a / (2 * m) * (2 * m) && a / (2 * m) * (2 * m) == 2 * (a / (2 * m) * m);
      assert a % 2 == 0 && a / 2 == a / (2 * m) * m;
      ModUnique(a / 2, m, a / (2 * m), 0);
      OrBitsDisjoint(a / 2, b / 2, k - 1, n - 1);
    }
  }

  lemma OrDisjoint(a: byte, b: byte, n: nat)
    requires n <= 8 && b < Pow2(n) && a % Pow2(n) == 0
    ensures Or(a, b) == a + b
  {
    assert Pow2(8) == 256;
    OrBitsDisjoint(a, b, 8, n);
  }
}
