/** Exclusive or on unsigned words, bit by bit. */
module Bits {

  function Pow2(n: nat): (r: nat)
    ensures r > 0
  {
    if n == 0 then 1 else 2 * Pow2(n - 1)
  }

  /** Bitwise exclusive or of unsigned words. */
  function Xor(a: nat, b: nat): (r: nat)
    decreases a + b
  {
    if a + b == 0 then 0 else 2 * Xor(a / 2, b / 2) + (a + b) % 2
  }

  lemma {:induction false} XorBound(a: nat, b: nat, n: nat)
    requires a < Pow2(n) && b < Pow2(n)
    ensures Xor(a, b) < Pow2(n)
  {
    if n > 0 && a + b > 0 { XorBound(a / 2, b / 2, n - 1); }
  }

  lemma {:induction false} XorCancel(a: nat, b: nat)
    ensures Xor(Xor(a, b), b) == a
    decreases a + b
  {
    if a + b > 0 {
      XorCancel(a / 2, b / 2);
      var x := Xor(a, b);
      XorHalves(a, b);
      XorHalves(x, b);
      Parity(a, b, x);
      hide Xor;
    } else {
      assert Xor(0, 0) == 0;
    }
  }

  lemma XorHalves(a: nat, b: nat)
    ensures Xor(a, b) / 2 == Xor(a / 2, b / 2) && Xor(a, b) % 2 == (a + b) % 2
  {
  }

  lemma Parity(a: nat, b: nat, x: nat)
    requires x % 2 == (a + b) % 2
    ensures (x + b) % 2 == a % 2
  {
  }

  /** The operation on words is the operation on their low bits and on the rest. */
  lemma Split2(x: nat, y: nat)
    ensures Xor(x, y) == 2 * Xor(x / 2, y / 2) + Xor(x % 2, y % 2)
  {
    hide Xor;
    Unfold(x, y);
    LowBit(x % 2, y % 2);
    AddParity(x, y);
  }

  lemma Unfold(x: nat, y: nat)
    ensures Xor(x, y) == 2 * Xor(x / 2, y / 2) + (x + y) % 2
  {
  }

  lemma LowBit(a: nat, b: nat)
    requires a < 2 && b < 2
    ensures Xor(a, b) == (a + b) % 2
  {
    assert Xor(a / 2, b / 2) == 0;
  }

  lemma AddParity(x: nat, y: nat)
    ensures (x % 2 + y % 2) % 2 == (x + y) % 2
  {
  }

  lemma Split4(x: nat, y: nat)
    ensures Xor(x, y) == 4 * Xor(x / 4, y / 4) + Xor(x % 4, y % 4)
  {
    hide Xor;
    Split2(x, y);
    Split2(x / 2, y / 2);
    Split2(x % 4, y % 4);
    Nest(x, 2);
    Nest(y, 2);
  }

  lemma Split16(x: nat, y: nat)
    ensures Xor(x, y) == 16 * Xor(x / 16, y / 16) + Xor(x % 16, y % 16)
  {
    hide Xor;
    Split4(x, y);
    Split4(x / 4, y / 4);
    Split4(x % 16, y % 16);
    Nest(x, 4);
    Nest(y, 4);
  }

  lemma Split256(x: nat, y: nat)
    ensures Xor(x, y) == 256 * Xor(x / 256, y / 256) + Xor(x % 256, y % 256)
  {
    hide Xor;
    Split16(x, y);
    Split16(x / 16, y / 16);
    Split16(x % 256, y % 256);
    Nest(x, 16);
    Nest(y, 16);
  }

  lemma Nest(x: nat, n: nat)
    requires n == 2 || n == 4 || n == 16
    ensures x / n / n == x / (n * n) && x % (n * n) / n == x / n % n && x % (n * n) % n == x % n
  {
  }
}
