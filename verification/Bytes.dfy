/** Machine-width values, byte arithmetic and the small helpers every other module uses. */
module Bytes {

  type byte = x: int | 0 <= x < 0x100
  type u32 = x: int | 0 <= x < 0x1_0000_0000

  datatype Option<+T> = None | Some(value: T)

  function Pow2(n: nat): (r: nat)
    ensures r > 0
  {
    if n == 0 then 1 else 2 * Pow2(n - 1)
  }

  /** Exclusive or of the low n bits of two numbers. */
  function XorBits(a: nat, b: nat, n: nat): (r: nat)
    ensures r < Pow2(n)
  {
    if n == 0 then 0 else 2 * XorBits(a / 2, b / 2, n - 1) + (a + b) % 2
  }

  /** Bitwise exclusive or of two bytes. */
  function Xor(a: byte, b: byte): byte {
    assert Pow2(8) == 256;
    XorBits(a, b, 8)
  }

  /** The low bit and the rest of an exclusive or. */
  lemma XorBitsHalves(a: nat, b: nat, n: nat)
    requires n > 0
    ensures XorBits(a, b, n) == 2 * XorBits(a / 2, b / 2, n - 1) + (a + b) % 2
    ensures XorBits(a, b, n) / 2 == XorBits(a / 2, b / 2, n - 1) && XorBits(a, b, n) % 2 == (a + b) % 2
  {
  }

  lemma LowBitCancels(a: nat, b: nat, x: nat)
    requires x % 2 == (a + b) % 2
    ensures (x + b) % 2 == a % 2
  {
  }

  lemma {:induction false} XorBitsCancels(a: nat, b: nat, n: nat)
    requires a < Pow2(n)
    ensures XorBits(XorBits(a, b, n), b, n) == a
  {
    if n == 0 {
    } else {
      var x := XorBits(a, b, n);
      XorBitsHalves(a, b, n);
      XorBitsHalves(x, b, n);
      LowBitCancels(a, b, x);
      XorBitsCancels(a / 2, b / 2, n - 1);
      hide XorBits;
    }
  }

  lemma LowBitSwaps(h: nat, a: nat, b: nat, x: nat, y: nat)
    requires x % 2 == (h + a) % 2 && y % 2 == (h + b) % 2
    ensures (x + b) % 2 == (y + a) % 2
  {
  }

  /** Two numbers can be worked into a third in either order. */
  lemma {:induction false} XorBitsSwap(h: nat, a: nat, b: nat, n: nat)
    ensures XorBits(XorBits(h, a, n), b, n) == XorBits(XorBits(h, b, n), a, n)
  {
    if n == 0 {
    } else {
      hide XorBits, Pow2;
      var x, y := XorBits(h, a, n), XorBits(h, b, n);
      XorBitsHalves(h, a, n);
      XorBitsHalves(h, b, n);
      LowBitSwaps(h, a, b, x, y);
      XorBitsSwap(h / 2, a / 2, b / 2, n - 1);
      XorBitsHalves(x, b, n);
      XorBitsHalves(y, a, n);
    }
  }

  lemma XorCancels(a: byte, b: byte)
    ensures Xor(Xor(a, b), b) == a
  {
    assert Pow2(8) == 256;
    XorBitsCancels(a, b, 8);
  }

  lemma XorSwap(h: byte, a: byte, b: byte)
    ensures Xor(Xor(h, a), b) == Xor(Xor(h, b), a)
  {
    XorBitsSwap(h, a, b, 8);
  }

  /** Bit i of a number. */
  function Bit(a: nat, i: nat): (b: nat)
    ensures b < 2
  {
    if i == 0 then a % 2 else Bit(a / 2, i - 1)
  }

  lemma {:induction false} BitOfXorBits(a: nat, b: nat, n: nat, i: nat)
    requires i < n
    ensures Bit(XorBits(a, b, n), i) == (Bit(a, i) + Bit(b, i)) % 2
    decreases n
  {
    hide XorBits;
    XorBitsHalves(a, b, n);
    if i == 0 {
    } else {
      BitOfXorBits(a / 2, b / 2, n - 1, i - 1);
    }
  }

  /** The bits of an exclusive or are those in which the two bytes differ. */
  lemma XorBit(a: byte, b: byte, i: nat)
    requires i < 8
    ensures Bit(Xor(a, b), i) == 1 <==> Bit(a, i) != Bit(b, i)
  {
    hide XorBits;
    BitOfXorBits(a, b, 8, i);
  }

  /** Concatenation of a list of sequences. */
  function Concat<T>(parts: seq<seq<T>>): seq<T> {
    if parts == [] then [] else parts[0] + Concat(parts[1..])
  }
}
