/** C integer arithmetic on mathematical integers: truncating division, two's-complement
    bitwise operators, shifts, and wrap-around to a machine width. */
module CInt {

  /** The residue of `x` in the signed range of `int` (32 bits). */
  function Wrap32(x: int): (r: int)
    ensures -0x8000_0000 <= r < 0x8000_0000
    ensures -0x8000_0000 <= x < 0x8000_0000 ==> r == x
  {
    (x + 0x8000_0000) % 0x1_0000_0000 - 0x8000_0000
  }

  /** The residue of `x` in the signed range of a 64-bit `long`. */
  function Wrap64(x: int): (r: int)
    ensures -0x8000_0000_0000_0000 <= r < 0x8000_0000_0000_0000
    ensures -0x8000_0000_0000_0000 <= x < 0x8000_0000_0000_0000 ==> r == x
  {
    (x + 0x8000_0000_0000_0000) % 0x1_0000_0000_0000_0000 - 0x8000_0000_0000_0000
  }

  function Abs(x: int): nat {
    if x < 0 then -x else x
  }

  /** C's `/`: truncation toward zero (Dafny's own `/` is Euclidean). */
  function Quotient(a: int, b: int): int
    requires b != 0
  {
    if a >= 0 then a / b else -((-a) / b)
  }

  /** C's `%`: the remainder that goes with `Quotient`. */
  function Remainder(a: int, b: int): int
    requires b != 0
  {
    a - b * Quotient(a, b)
  }

  /** The remainder is smaller than the divisor and never has the opposite sign of the dividend. */
  lemma RemainderIsC(a: int, b: int)
    requires b != 0
    ensures Abs(Remainder(a, b)) < Abs(b)
    ensures a >= 0 ==> Remainder(a, b) >= 0
    ensures a <= 0 ==> Remainder(a, b) <= 0
  {
  }

  lemma DivisionIsUnique(a: int, m: nat, q: int, r: int)
    requires m > 0 && 0 <= r < m && a == q * m + r
    ensures a % m == r && a / m == q
  {
    var e := a / m - q;
    assert a % m - r == -e * m;
    SmallMultiple(e, m);
  }

  lemma SmallMultiple(e: int, m: int)
    requires -m < e * m < m
    ensures e == 0
  {
  }

  function Pow2(n: nat): (p: nat)
    ensures p > 0
  {
    if n == 0 then 1 else 2 * Pow2(n - 1)
  }

  /** Bit `k` of the infinite two's-complement representation of `a`. */
  predicate Bit(a: int, k: nat)
    decreases k
  {
    if k == 0 then a % 2 == 1 else Bit(a / 2, k - 1)
  }

  datatype BitOp = AND | OR | XOR

  predicate Combine(op: BitOp, x: bool, y: bool) {
    match op
    case AND => x && y
    case OR => x || y
    case XOR => x != y
  }

  /** `a & b`, `a | b` or `a ^ b`. */
  function Bitwise(op: BitOp, a: int, b: int): int
    decreases Magnitude(a) + Magnitude(b)
  {
    if -1 <= a <= 0 && -1 <= b <= 0 then
      if Combine(op, a == -1, b == -1) then -1 else 0
    else
      2 * Bitwise(op, a / 2, b / 2) + if Combine(op, a % 2 == 1, b % 2 == 1) then 1 else 0
  }

  function Magnitude(a: int): nat {
    if a >= 0 then a else -a - 1
  }

  lemma {:induction false} SignBits(a: int, k: nat)
    requires -1 <= a <= 0
    ensures Bit(a, k) == (a == -1)
    decreases k
  {
    if k > 0 {
      SignBits(a / 2, k - 1);
    }
  }

  /** A power of two has one bit. */
  lemma {:induction false} PowerBits(n: nat, j: nat)
    ensures Bit(Pow2(n), j) == (j == n)
    decreases j
  {
    if n == 0 {
      assert Pow2(0) == 1;
      if j > 0 {
        SignBits(0, j - 1);
      }
    } else if j > 0 {
      PowerBits(n - 1, j - 1);
    }
  }

  /** Bit k is the k-th binary digit. */
  lemma {:induction false} BitIsDigit(a: int, k: nat)
    ensures Bit(a, k) <==> a / Pow2(k) % 2 == 1
    decreases k
  {
    if k > 0 {
      BitIsDigit(a / 2, k - 1);
      DivideTwice(a, Pow2(k - 1));
    }
  }

  lemma DivideTwice(a: int, m: nat)
    requires m > 0
    ensures a / 2 / m == a / (2 * m)
  {
    var q, r := a / 2 / m, a / 2 % m;
    assert a == q * (2 * m) + (2 * r + a % 2);
    DivisionIsUnique(a, 2 * m, q, 2 * r + a % 2);
  }

  /** The bitwise operators work bit by bit. */
  lemma {:induction false} BitwiseBits(op: BitOp, a: int, b: int, k: nat)
    ensures Bit(Bitwise(op, a, b), k) == Combine(op, Bit(a, k), Bit(b, k))
    decreases k
  {
    if -1 <= a <= 0 && -1 <= b <= 0 {
      SignBits(a, k);
      SignBits(b, k);
      SignBits(Bitwise(op, a, b), k);
    } else if k > 0 {
      BitwiseBits(op, a / 2, b / 2, k - 1);
    }
  }

  /** `~a`. */
  function Complement(a: int): int {
    -a - 1
  }

  lemma {:induction false} ComplementBits(a: int, k: nat)
    ensures Bit(Complement(a), k) == !Bit(a, k)
    decreases k
  {
    if k > 0 {
      assert Complement(a) / 2 == Complement(a / 2);
      ComplementBits(a / 2, k - 1);
    }
  }

  /** `a << n`; a negative count, undefined in C, gives 0 here. */
  function ShiftLeft(a: int, n: int): int {
    if n < 0 then 0 else a * Pow2(n)
  }

  /** `a >> n`, arithmetic; a negative count, undefined in C, gives 0 here. */
  function ShiftRight(a: int, n: int): int {
    if n < 0 then 0 else a / Pow2(n)
  }

  /** C truth values. */
  function Truth(b: bool): int {
    if b then 1 else 0
  }
}
