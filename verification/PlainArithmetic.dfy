/** The values of C's operators told in plain arithmetic, and that the functions of `CInt` compute them. */
module PlainArithmetic {
  import opened CInt

  function OneIf(b: bool): int {
    if b then 1 else 0
  }

  /** Wrapping gives the one congruent number in the range of the type. */
  lemma WrapUnique(r: int, x: int)
    ensures r == Wrap64(x)
       <==> -0x8000_0000_0000_0000 <= r < 0x8000_0000_0000_0000 && (r - x) % 0x1_0000_0000_0000_0000 == 0
    ensures r == Wrap32(x) <==> -0x8000_0000 <= r < 0x8000_0000 && (r - x) % 0x1_0000_0000 == 0
  {
  }

  /** Wrapping inside a sum or product that is wrapped itself makes no difference. */
  lemma WrapSum(x: int, y: int)
    ensures Wrap32(Wrap32(x) + y) == Wrap32(x + y) && Wrap64(Wrap64(x) + y) == Wrap64(x + y)
  {
    WrapsAreResidues(x);
    WrapsAreResidues(Wrap32(x) + y);
    WrapsAreResidues(Wrap64(x) + y);
    SumOfMultiples(Wrap32(Wrap32(x) + y) - (Wrap32(x) + y), Wrap32(x) - x, 0x1_0000_0000);
    SumOfMultiples(Wrap64(Wrap64(x) + y) - (Wrap64(x) + y), Wrap64(x) - x, 0x1_0000_0000_0000_0000);
    WrapUnique(Wrap32(Wrap32(x) + y), x + y);
    WrapUnique(Wrap64(Wrap64(x) + y), x + y);
  }

  lemma WrapProduct(x: int, y: int, p: int)
    requires p == x * y
    ensures Wrap32(Wrap32(x) * y) == Wrap32(p) && Wrap64(Wrap64(x) * y) == Wrap64(p)
  {
    WrapsAreResidues(x);
    ProductOfMultiple(Wrap32(x), x, y, 0x1_0000_0000);
    ProductOfMultiple(Wrap64(x), x, y, 0x1_0000_0000_0000_0000);
    CongruentWrap(Wrap32(x) * y, Wrap64(x) * y, p);
  }

  lemma CongruentWrap(v: int, w: int, p: int)
    requires (v - p) % 0x1_0000_0000 == 0 && (w - p) % 0x1_0000_0000_0000_0000 == 0
    ensures Wrap32(v) == Wrap32(p) && Wrap64(w) == Wrap64(p)
  {
    WrapsAreResidues(v);
    WrapsAreResidues(w);
    SumOfMultiples(Wrap32(v) - v, v - p, 0x1_0000_0000);
    SumOfMultiples(Wrap64(w) - w, w - p, 0x1_0000_0000_0000_0000);
    WrapUnique(Wrap32(v), p);
    WrapUnique(Wrap64(w), p);
  }

  lemma WrapsAreResidues(x: int)
    ensures (Wrap32(x) - x) % 0x1_0000_0000 == 0
    ensures (Wrap64(x) - x) % 0x1_0000_0000_0000_0000 == 0
  {
    WrapIsResidue(x + 0x8000_0000, 0x1_0000_0000);
    WrapIsResidue(x + 0x8000_0000_0000_0000, 0x1_0000_0000_0000_0000);
  }

  lemma WrapIsResidue(x: int, m: nat)
    requires m > 0
    ensures (x % m - x) % m == 0
  {
    var q := x / m;
    assert x % m - x == -q * m;
    assert (-q * m) % m == 0 by { MultipleOf(-q, m); }
  }

  /** The quotient of the absolute values, with a minus if the signs differ. */
  function Truncated(a: int, b: int): int
    requires b != 0
  {
    var q := (if a < 0 then -a else a) / (if b < 0 then -b else b);
    if (a < 0) != (b < 0) then -q else q
  }

  /** The remainder of the absolute values, with the sign of the dividend. */
  function Rest(a: int, b: int): int
    requires b != 0
  {
    var m := (if a < 0 then -a else a) % (if b < 0 then -b else b);
    if a < 0 then -m else m
  }

  lemma DivisionTruncates(a: int, b: int)
    requires b != 0
    ensures Quotient(a, b) == Truncated(a, b) && Remainder(a, b) == Rest(a, b)
  {
    if b < 0 {
      NegativeDivisor(Abs(a), -b);
    }
    RemainderIsRest(Abs(a), Abs(b));
  }

  lemma NegativeDivisor(n: int, m: int)
    requires n >= 0 && m > 0
    ensures n / -m == -(n / m)
  {
    assert n == -(n / -m) * m + n % -m;
    DivisionIsUnique(n, m, -(n / -m), n % -m);
  }

  lemma RemainderIsRest(n: int, m: int)
    requires n >= 0 && m > 0
    ensures n - m * (n / m) == n % m && n - (-m) * (-(n / m)) == n % m
    ensures -n - m * (-(n / m)) == -(n % m) && -n - (-m) * (n / m) == -(n % m)
  {
  }

  lemma MultipleOf(q: int, m: nat)
    requires m > 0
    ensures (q * m) % m == 0
  {
    DivisionIsUnique(q * m, m, q, 0);
  }

  lemma SumOfMultiples(x: int, y: int, m: nat)
    requires m > 0 && x % m == 0 && y % m == 0
    ensures (x + y) % m == 0
  {
    var i, j := x / m, y / m;
    assert x + y == (i + j) * m;
    MultipleOf(i + j, m);
  }

  lemma ProductOfMultiple(w: int, x: int, y: int, m: nat)
    requires m > 0 && (w - x) % m == 0
    ensures (w * y - x * y) % m == 0
  {
    var i := (w - x) / m;
    assert w - x == i * m;
    Regroup(w, x, y, i, m);
    MultipleOf(i * y, m);
  }

  lemma Regroup(w: int, x: int, y: int, i: int, m: int)
    requires w - x == i * m
    ensures w * y - x * y == i * y * m
  {
    assert w * y - x * y == (w - x) * y;
    assert (i * m) * y == i * y * m;
  }

  lemma AndOne(a: int)
    ensures Bitwise(AND, a, 1) == a % 2 && Bitwise(AND, 1, a) == a % 2
  {
    AndZero(a / 2);
  }

  /** And-ing with n ones is reduction modulo 2^n. */
  lemma {:induction false} MaskIsModulus(a: int, n: nat)
    ensures Bitwise(AND, a, Pow2(n) - 1) == a % Pow2(n)
    decreases n
  {
    if n == 0 {
      AndZero(a);
    } else {
      var p := Pow2(n - 1);
      MaskIsModulus(a / 2, n - 1);
      HalveModulus(a, p);
      HalveMask(a, p - 1);
      assert Pow2(n) == 2 * p;
    }
  }

  lemma LowByteIsModulus(a: int)
    ensures Bitwise(AND, a, 0xFF) == a % 256
  {
    MaskIsModulus(a, 8);
    PowerOf8();
  }

  lemma PowerOf8()
    ensures Pow2(8) == 256
  {
    assert Pow2(4) == 16;
  }

  lemma Shift8(a: int)
    ensures ShiftRight(a, 8) == a / 256
  {
    PowerOf8();
  }

  lemma {:induction false} AndZero(a: int)
    ensures Bitwise(AND, a, 0) == 0 && Bitwise(AND, 0, a) == 0
    decreases Magnitude(a)
  {
    if !(-1 <= a <= 0) {
      AndZero(a / 2);
    }
  }

  lemma HalveMask(a: int, h: nat)
    ensures Bitwise(AND, a, 2 * h + 1) == 2 * Bitwise(AND, a / 2, h) + a % 2
  {
  }

  lemma HalveModulus(a: int, p: nat)
    requires p > 0
    ensures a % (2 * p) == 2 * ((a / 2) % p) + a % 2
  {
    var q := a / 2 / p;
    var r := 2 * ((a / 2) % p) + a % 2;
    assert a == q * (2 * p) + r;
    DivisionIsUnique(a, 2 * p, q, r);
  }

  /** An or is 0 exactly if both operands are. */
  lemma {:induction false} OrIsZero(a: int, b: int)
    ensures Bitwise(OR, a, b) == 0 <==> a == 0 && b == 0
    decreases Magnitude(a) + Magnitude(b)
  {
    if !(-1 <= a <= 0 && -1 <= b <= 0) {
      OrIsZero(a / 2, b / 2);
    }
  }
}
