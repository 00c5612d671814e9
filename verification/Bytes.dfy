/** Bytes, 16-bit words and the bits of a byte, as the C sources use them. */
module Bytes {
  import opened CInt

  type byte = x: int | 0 <= x < 256

  /** The low byte of an `int`, as a cast to `unsigned char` takes it. */
  function Low(x: int): byte {
    x % 256
  }

  /** The second byte of an `int`. */
  function High(x: int): byte {
    (x / 256) % 256
  }

  /** The 16-bit word stored low byte first. */
  function Word(lo: byte, hi: byte): int {
    lo as int + 256 * (hi as int)
  }

  // ---------------------------------------------------------------- the bits of a byte

  /** `0x80 >> k`. */
  function Mask(k: nat): (m: byte)
    requires k < 8
    ensures 1 <= m <= 128
  {
    [128, 64, 32, 16, 8, 4, 2, 1][k]
  }

  /** `v & (0x80 >> k)` is nonzero. */
  predicate IsSet(v: byte, k: nat)
    requires k < 8
  {
    Bit(v, 7 - k)
  }

  /** `v | (0x80 >> k)`. */
  function SetBit(v: byte, k: nat): byte
    requires k < 8
  {
    BitwiseRange(OR, v, Mask(k), 8);
    Bitwise(OR, v, Mask(k))
  }

  /** `v & ((0x80 >> k) ^ 0xff)`. */
  function ClearBit(v: byte, k: nat): byte
    requires k < 8
  {
    BitwiseRange(AND, v, 255 - Mask(k), 8);
    Bitwise(AND, v, 255 - Mask(k))
  }

  lemma {:induction false} BitwiseRange(op: BitOp, a: int, b: int, n: nat)
    requires 0 <= a < Pow2(n) && 0 <= b < Pow2(n)
    ensures 0 <= Bitwise(op, a, b) < Pow2(n)
  {
    if n > 0 && !(a == 0 && b == 0) {
      BitwiseRange(op, a / 2, b / 2, n - 1);
    }
  }

  lemma {:induction false} LowBits(a: int, b: int, n: nat)
    requires 0 <= a < Pow2(n) && 0 <= b < Pow2(n)
    requires forall j :: 0 <= j < n ==> Bit(a, j) == Bit(b, j)
    ensures a == b
  {
    if n > 0 {
      assert Bit(a, 0) == Bit(b, 0);
      forall j | 0 <= j < n - 1 ensures Bit(a / 2, j) == Bit(b / 2, j) {
        assert Bit(a, j + 1) == Bit(b, j + 1);
      }
      LowBits(a / 2, b / 2, n - 1);
    }
  }

  lemma {:induction false} InverseBits(a: int, n: nat, j: nat)
    requires 0 <= a < Pow2(n) && j < n
    ensures Bit(Pow2(n) - 1 - a, j) == !Bit(a, j)
    decreases j
  {
    if j > 0 {
      assert (Pow2(n) - 1 - a) / 2 == Pow2(n - 1) - 1 - a / 2;
      InverseBits(a / 2, n - 1, j - 1);
    }
  }

  /** The masks have one bit each. */
  lemma MaskBits(k: nat, j: nat)
    requires k < 8 && j < 8
    ensures Bit(Mask(k), 7 - j) == (j == k)
    ensures Bit(255 - Mask(k), 7 - j) == (j != k)
  {
    MaskIsPower(k);
    PowerBits(7 - k, 7 - j);
    assert Pow2(8) == 256;
    InverseBits(Mask(k), 8, 7 - j);
  }

  lemma SetBitBits(v: byte, k: nat, j: nat)
    requires k < 8 && j < 8
    ensures IsSet(SetBit(v, k), j) == (j == k || IsSet(v, j))
  {
    MaskBits(k, j);
    BitwiseBits(OR, v, Mask(k), 7 - j);
  }

  lemma ClearBitBits(v: byte, k: nat, j: nat)
    requires k < 8 && j < 8
    ensures IsSet(ClearBit(v, k), j) == (j != k && IsSet(v, j))
  {
    MaskBits(k, j);
    BitwiseBits(AND, v, 255 - Mask(k), 7 - j);
  }

  /** The k-th of a byte's eight binary digits. */
  function Digit(v: int, k: nat): int
    requires k < 8
  {
    v / [128, 64, 32, 16, 8, 4, 2, 1][k] % 2
  }

  /** Bit k, from the left, is the k-th binary digit of the byte. */
  lemma IsSetIsDigit(v: byte, k: nat)
    requires k < 8
    ensures IsSet(v, k) <==> Digit(v, k) == 1
  {
    BitIsDigit(v, 7 - k);
    MaskIsPower(k);
  }

  lemma MaskIsPower(k: nat)
    requires k < 8
    ensures Mask(k) == Pow2(7 - k)
  {
    assert Pow2(1) == 2 && Pow2(2) == 4 && Pow2(3) == 8 && Pow2(4) == 16 && Pow2(5) == 32 && Pow2(6) == 64 && Pow2(7) == 128;
  }

  /** A byte is determined by its bits. */
  lemma EqualBits(v: byte, w: byte)
    requires forall k :: 0 <= k < 8 ==> IsSet(v, k) == IsSet(w, k)
    ensures v == w
  {
    forall j | 0 <= j < 8 ensures Bit(v, j) == Bit(w, j) {
      assert IsSet(v, 7 - j) == IsSet(w, 7 - j);
    }
    LowBits(v, w, 8);
  }

  /** A byte is nonzero exactly when one of its bits is set. */
  lemma NonzeroBits(v: byte)
    ensures v != 0 <==> exists k :: 0 <= k < 8 && IsSet(v, k)
  {
    forall k | 0 <= k < 8 ensures !IsSet(0, k) {
      SignBits(0, 7 - k);
    }
    if forall k :: 0 <= k < 8 ==> !IsSet(v, k) {
      EqualBits(v, 0);
    }
  }

  /** `IsSet` is the C test `v & (0x80 >> k)`. */
  lemma TestBit(v: byte, k: nat)
    requires k < 8
    ensures IsSet(v, k) <==> Bitwise(AND, v, Mask(k)) != 0
  {
    BitwiseRange(AND, v, Mask(k), 8);
    var w: byte := Bitwise(AND, v, Mask(k));
    forall j | 0 <= j < 8 ensures IsSet(w, j) == (j == k && IsSet(v, j)) {
      MaskBits(k, j);
      BitwiseBits(AND, v, Mask(k), 7 - j);
    }
    NonzeroBits(w);
  }
}
