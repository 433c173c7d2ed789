/** Go's `uint64`: arithmetic that wraps modulo 2^64, exclusive or, and shifts
    that drop what leaves the word. A word is a natural below 2^64; the bitwise
    operations work on its binary digits, lowest first. */
module Word64 {

  const MODULUS: nat := 0x1_0000_0000_0000_0000

  type Word = x: nat | x < MODULUS

  const ONES: Word := MODULUS - 1

  function Add(a: Word, b: Word): Word { (a + b) % MODULUS }

  function Sub(a: Word, b: Word): Word { (a - b) % MODULUS }

  function Mul(a: Word, b: Word): Word { a * b % MODULUS }

  function Xor(a: Word, b: Word): Word
  {
    XorIsWord(a, b);
    XorNat(a, b)
  }

  /** Go defines the complement `^a` as exclusive or with all ones. */
  function Not(a: Word): Word { Xor(ONES, a) }

  datatype Direction = Left | Right

  function ShiftOne(d: Direction, a: Word): Word
  {
    match d
    case Left => 2 * a % MODULUS
    case Right => a / 2
  }

  /** `a << k` and `a >> k`. */
  function Shift(d: Direction, a: Word, k: nat): Word
    decreases k
  {
    if k == 0 then a else Shift(d, ShiftOne(d, a), k - 1)
  }

  /** `a ^ (a << k)` and `a ^ (a >> k)`. */
  function XorShift(d: Direction, a: Word, k: nat): Word
  {
    Xor(a, Shift(d, a, k))
  }

  /** Undoes `XorShift`: each application to its own result doubles the shift,
      until the shift leaves the word. */
  function UnXorShift(d: Direction, m: Word, k: nat): Word
    requires k > 0
    decreases 64 - k
  {
    if k >= 64 then m else UnXorShift(d, XorShift(d, m, k), 2 * k)
  }

  // ---------- Binary digits ----------

  predicate Odd(a: nat) { a % 2 == 1 }

  function Bit(b: bool): nat { if b then 1 else 0 }

  function XorNat(a: nat, b: nat): nat
    decreases a + b
  {
    if a == 0 && b == 0 then 0 else Bit(Odd(a) != Odd(b)) + 2 * XorNat(a / 2, b / 2)
  }

  /** The low `w` digits of `x`. */
  function Low(x: nat, w: nat): nat
    decreases w
  {
    if w == 0 then 0 else Bit(Odd(x)) + 2 * Low(x / 2, w - 1)
  }

  function Pow2(k: nat): (p: nat)
    ensures p > 0
  {
    if k == 0 then 1 else 2 * Pow2(k - 1)
  }

  lemma {:induction false} Pow2Adds(a: nat, b: nat)
    ensures Pow2(a + b) == Pow2(a) * Pow2(b)
  {
    if b > 0 {
      Pow2Adds(a, b - 1);
      assert Pow2(a + b) == 2 * Pow2(a + (b - 1));
    }
  }

  lemma Pow2Is8()
    ensures Pow2(8) == 256
  {
  }

  lemma Pow2Is64()
    ensures Pow2(64) == MODULUS
  {
    hide Pow2;
    Pow2Is8();
    Pow2Adds(8, 8);
    Pow2Adds(16, 16);
    Pow2Adds(32, 32);
  }

  lemma NoMultipleBetween(k: int, d: int)
    requires -d < k * d < d
    ensures k == 0
  {}

  lemma DivModUnique(x: int, d: nat, q: int, r: nat)
    requires r < d && x == q * d + r
    ensures x / d == q && x % d == r
  {
    var q', r' := x / d, x % d;
    assert x == d * q' + r';
    assert (q - q') * d == r' - r;
    NoMultipleBetween(q - q', d);
  }

  lemma {:induction false} LowIsMod(x: nat, w: nat)
    ensures Low(x, w) == x % Pow2(w)
  {
    if w > 0 {
      LowIsMod(x / 2, w - 1);
      assert Low(x, w) == x % 2 + 2 * Low(x / 2, w - 1) && Pow2(w) == 2 * Pow2(w - 1);
      hide Low, Pow2;
      DivModInTwo(x, Pow2(w - 1));
    }
  }

  /** Division in two goes: `x / d` is `x / 2` divided by `d / 2`. */
  lemma DivModInTwo(x: nat, p: nat)
    requires p > 0
    ensures x / (2 * p) == x / 2 / p
    ensures x % (2 * p) == 2 * (x / 2 % p) + x % 2
  {
    var q, r := x / 2 / p, x / 2 % p;
    DivMod(x / 2, p);
    Doubles(q, p);
    DivModUnique(x, 2 * p, q, 2 * r + x % 2);
  }

  lemma DivMod(x: nat, p: nat)
    requires p > 0
    ensures x == x / p * p + x % p == p * (x / p) + x % p && x % p < p
  {}

  lemma ModuloAdds(x: nat, g: nat, m: nat)
    requires m > 0
    ensures (x % m + g) % m == (x + g) % m
  {
    var y := x % m + g;
    assert (x / m + y / m) * m == x / m * m + y / m * m;
    DivModUnique(x + g, m, x / m + y / m, y % m);
  }

  lemma Doubles(q: nat, p: nat)
    ensures q * (2 * p) == 2 * (q * p)
  {}

  lemma LowIsWord(x: nat)
    ensures Low(x, 64) == x % MODULUS
  {
    LowIsMod(x, 64);
    Pow2Is64();
  }

  lemma {:induction false} LowLow(x: nat, v: nat, w: nat)
    requires v <= w
    ensures Low(Low(x, w), v) == Low(x, v)
    decreases v
  {
    if v > 0 {
      LowLow(x / 2, v - 1, w - 1);
      LowDigit(x, w);
    }
  }

  lemma EqualByDigit(x: nat, y: nat)
    requires Odd(x) == Odd(y) && x / 2 == y / 2
    ensures x == y
  {}

  lemma XorDigit(a: nat, b: nat)
    ensures Odd(XorNat(a, b)) == (Odd(a) != Odd(b))
    ensures XorNat(a, b) / 2 == XorNat(a / 2, b / 2)
  {}

  /** Exclusive or, digit by digit. */
  lemma XorByDigit(a: Word, b: Word)
    ensures Odd(Xor(a, b)) <==> Odd(a) != Odd(b)
    ensures Xor(a, b) / 2 == Xor(a / 2, b / 2)
  {
    hide XorNat, Odd;
    XorDigit(a, b);
  }

  lemma LowDigit(x: nat, w: nat)
    requires w > 0
    ensures Odd(Low(x, w)) == Odd(x) && Low(x, w) / 2 == Low(x / 2, w - 1)
  {
    var rest := Low(x / 2, w - 1);
    assert Low(x, w) == Bit(Odd(x)) + 2 * rest;
    hide Low;
  }

  lemma {:induction false} XorLow(a: nat, b: nat, w: nat)
    ensures XorNat(Low(a, w), Low(b, w)) == Low(XorNat(a, b), w)
    decreases w
  {
    if w > 0 {
      XorLow(a / 2, b / 2, w - 1);
      hide XorNat, Low, Odd;
      XorDigit(a, b);
      XorDigit(Low(a, w), Low(b, w));
      LowDigit(a, w);
      LowDigit(b, w);
      LowDigit(XorNat(a, b), w);
      EqualByDigit(XorNat(Low(a, w), Low(b, w)), Low(XorNat(a, b), w));
    }
  }

  lemma XorIsWord(a: Word, b: Word)
    ensures XorNat(a, b) < MODULUS
  {
    hide Low, XorNat;
    LowIsWord(a);
    LowIsWord(b);
    XorLow(a, b, 64);
    LowIsWord(XorNat(a, b));
  }

  lemma {:induction false} XorNatAssociates(a: nat, b: nat, c: nat)
    ensures XorNat(XorNat(a, b), c) == XorNat(a, XorNat(b, c))
    decreases a + b + c
  {
    if a + b + c > 0 {
      XorNatAssociates(a / 2, b / 2, c / 2);
      hide XorNat, Odd;
      XorDigit(a, b);
      XorDigit(b, c);
      XorDigit(XorNat(a, b), c);
      XorDigit(a, XorNat(b, c));
      EqualByDigit(XorNat(XorNat(a, b), c), XorNat(a, XorNat(b, c)));
    }
  }

  lemma XorNatLaws(a: nat, b: nat)
    ensures XorNat(a, 0) == a && XorNat(a, a) == 0
    ensures XorNat(a, b) == XorNat(b, a)
  {}

  // ---------- Laws of words ----------

  lemma SubAdd(a: Word, b: Word)
    ensures Sub(Add(a, b), b) == a
  {}

  lemma AddSub(a: Word, b: Word)
    ensures Add(Sub(a, b), b) == a
  {}

  lemma AddCommutes(a: Word, b: Word)
    ensures Add(a, b) == Add(b, a)
  {}

  lemma XorLaws(a: Word, b: Word, c: Word)
    ensures Xor(Xor(a, b), c) == Xor(a, Xor(b, c))
    ensures Xor(a, b) == Xor(b, a)
    ensures Xor(a, 0) == a && Xor(a, a) == 0
  {
    XorNatAssociates(a, b, c);
    XorNatLaws(a, b);
  }

  lemma XorTelescopes(a: Word, s: Word, t: Word)
    ensures Xor(Xor(a, s), Xor(s, t)) == Xor(a, t)
  {
    XorLaws(a, s, Xor(s, t));
    XorLaws(s, s, t);
    XorLaws(0, t, t);
    XorLaws(t, 0, 0);
  }

  lemma NotXor(a: Word, s: Word)
    ensures Not(Xor(Not(a), s)) == Xor(a, s)
    ensures Not(Not(a)) == a
    ensures Xor(Not(a), s) == Not(Xor(a, s))
  {
    XorLaws(ONES, a, s);
    XorLaws(ONES, ONES, Xor(a, s));
    XorLaws(ONES, ONES, a);
    XorLaws(0, Xor(a, s), 0);
    XorLaws(Xor(a, s), 0, 0);
    XorLaws(0, a, 0);
    XorLaws(a, 0, 0);
  }

  lemma ShiftOneXor(d: Direction, a: Word, b: Word)
    ensures ShiftOne(d, Xor(a, b)) == Xor(ShiftOne(d, a), ShiftOne(d, b))
  {
    match d
    case Left =>
      XorDigit(2 * a, 2 * b);
      assert XorNat(2 * a, 2 * b) == 2 * XorNat(a, b);
      XorLow(2 * a, 2 * b, 64);
      LowIsWord(2 * a);
      LowIsWord(2 * b);
      LowIsWord(XorNat(2 * a, 2 * b));
    case Right =>
      XorDigit(a, b);
  }

  lemma {:induction false} ShiftXor(d: Direction, a: Word, b: Word, k: nat)
    ensures Shift(d, Xor(a, b), k) == Xor(Shift(d, a, k), Shift(d, b, k))
    decreases k
  {
    if k > 0 {
      hide Xor, ShiftOne;
      ShiftOneXor(d, a, b);
      ShiftXor(d, ShiftOne(d, a), ShiftOne(d, b), k - 1);
    }
  }

  lemma {:induction false} ShiftAdds(d: Direction, a: Word, j: nat, k: nat)
    ensures Shift(d, Shift(d, a, j), k) == Shift(d, a, j + k)
    decreases j
  {
    if j > 0 {
      ShiftAdds(d, ShiftOne(d, a), j - 1, k);
    }
  }

  lemma LowAfterShift(a: Word, j: nat)
    requires j < 64
    ensures Low(ShiftOne(Left, a), j + 1) == 2 * Low(a, j)
  {
    assert Low(2 * a, j + 1) == 2 * Low(a, j);
    hide Low;
    LowIsWord(2 * a);
    LowLow(2 * a, j + 1, 64);
  }

  /** A left shift by `k` leaves `k` low zeros. */
  lemma {:induction false} ShiftLeftClears(a: Word, j: nat, k: nat)
    requires Low(a, j) == 0 && j + k <= 64
    ensures Low(Shift(Left, a, k), j + k) == 0
    decreases k
  {
    if k > 0 {
      LowAfterShift(a, j);
      hide Low;
      ShiftLeftClears(ShiftOne(Left, a), j + 1, k - 1);
    }
  }

  lemma {:induction false} ShiftRightClears(a: Word, k: nat)
    requires a < Pow2(k)
    ensures Shift(Right, a, k) == 0
  {
    if k > 0 {
      ShiftRightClears(a / 2, k - 1);
    }
  }

  lemma {:induction false} ShiftZero(d: Direction, k: nat)
    ensures Shift(d, 0, k) == 0
  {
    if k > 0 {
      ShiftZero(d, k - 1);
    }
  }

  lemma ShiftByAllVanishes(d: Direction, a: Word)
    ensures Shift(d, a, 64) == 0
  {
    hide Shift, Pow2, Low;
    LowOfNone(a);
    match d {
      case Left =>
        ShiftLeftClears(a, 0, 64);
        LowIsWord(Shift(Left, a, 64));
      case Right =>
        Pow2Is64();
        ShiftRightClears(a, 64);
    }
  }

  lemma LowOfNone(x: nat)
    ensures Low(x, 0) == 0
  {
  }

  lemma ShiftVanishes(d: Direction, a: Word, k: nat)
    requires k >= 64
    ensures Shift(d, a, k) == 0
  {
    hide Shift;
    ShiftByAllVanishes(d, a);
    ShiftAdds(d, a, 64, k - 64);
    ShiftZero(d, k - 64);
  }

  // ---------- Xor-shifts are bijections ----------

  lemma XorShiftDoubles(d: Direction, a: Word, k: nat)
    ensures XorShift(d, XorShift(d, a, k), k) == XorShift(d, a, 2 * k)
  {
    var s := Shift(d, a, k);
    ShiftXor(d, a, s, k);
    ShiftAdds(d, a, k, k);
    XorTelescopes(a, s, Shift(d, a, 2 * k));
  }

  lemma XorShiftsCommute(d: Direction, a: Word, j: nat, k: nat)
    ensures XorShift(d, XorShift(d, a, j), k) == XorShift(d, XorShift(d, a, k), j)
  {
    var s, t, u := Shift(d, a, j), Shift(d, a, k), Shift(d, a, j + k);
    ShiftXor(d, a, s, k);
    ShiftXor(d, a, t, j);
    ShiftAdds(d, a, j, k);
    ShiftAdds(d, a, k, j);
    XorSwaps(a, s, t, u);
  }

  lemma XorSwaps(a: Word, s: Word, t: Word, u: Word)
    ensures Xor(Xor(a, s), Xor(t, u)) == Xor(Xor(a, t), Xor(s, u))
  {
    XorLaws(a, s, Xor(t, u));
    XorLaws(a, t, Xor(s, u));
    XorLaws(s, t, u);
    XorLaws(t, s, u);
  }

  /** An xor-shift by any positive amount is undone. */
  lemma {:induction false} UnXorShiftXorShift(d: Direction, a: Word, k: nat)
    requires k > 0
    ensures UnXorShift(d, XorShift(d, a, k), k) == a
    decreases 64 - k
  {
    if k >= 64 {
      ShiftVanishes(d, a, k);
      XorLaws(a, 0, 0);
    } else {
      hide XorShift;
      XorShiftDoubles(d, a, k);
      UnXorShiftXorShift(d, a, 2 * k);
    }
  }

  lemma {:induction false} UnXorShiftCommutes(d: Direction, m: Word, j: nat, k: nat)
    requires k > 0
    ensures XorShift(d, UnXorShift(d, m, k), j) == UnXorShift(d, XorShift(d, m, j), k)
    decreases 64 - k
  {
    if k < 64 {
      hide XorShift;
      UnXorShiftCommutes(d, XorShift(d, m, k), j, 2 * k);
      XorShiftsCommute(d, m, k, j);
    }
  }

  lemma XorShiftUnXorShift(d: Direction, m: Word, k: nat)
    requires k > 0
    ensures XorShift(d, UnXorShift(d, m, k), k) == m
  {
    UnXorShiftCommutes(d, m, k, k);
    UnXorShiftXorShift(d, m, k);
  }

  lemma XorShiftInjective(d: Direction, a: Word, b: Word, k: nat)
    requires k > 0 && XorShift(d, a, k) == XorShift(d, b, k)
    ensures a == b
  {
    UnXorShiftXorShift(d, a, k);
    UnXorShiftXorShift(d, b, k);
  }

  /** Multiplying by `m` is undone by multiplying by its inverse. */
  lemma MulInjective(a: Word, b: Word, m: Word, inverse: Word)
    requires Mul(m, inverse) == 1 && Mul(a, m) == Mul(b, m)
    ensures a == b
  {
    MulInverse(a, m, inverse);
    MulInverse(b, m, inverse);
  }

  lemma MulInverse(a: Word, m: Word, inverse: Word)
    requires Mul(m, inverse) == 1
    ensures Mul(Mul(a, m), inverse) == a
  {
    var q, t := a * m / MODULUS, m * inverse / MODULUS;
    assert m * inverse == MODULUS * t + 1;
    calc {
      Mul(a, m) * inverse;
      (a * m - MODULUS * q) * inverse;
      a * (m * inverse) - MODULUS * (q * inverse);
      (a * t - q * inverse) * MODULUS + a;
    }
    DivModUnique(Mul(a, m) * inverse, MODULUS, a * t - q * inverse, a);
  }

  // ---------- What shifts mean ----------

  lemma {:induction false} ShiftRightDivides(a: Word, k: nat)
    ensures Shift(Right, a, k) == a / Pow2(k)
    decreases k
  {
    if k > 0 {
      ShiftRightDivides(a / 2, k - 1);
      DivModInTwo(a, Pow2(k - 1));
    }
  }

  lemma {:induction false} ShiftLeftMultiplies(a: Word, k: nat)
    ensures Shift(Left, a, k) == a * Pow2(k) % MODULUS
    decreases k
  {
    if k > 0 {
      var next, p := ShiftOne(Left, a), Pow2(k - 1);
      ShiftLeftMultiplies(next, k - 1);
      assert Shift(Left, a, k) == Shift(Left, next, k - 1) && Pow2(k) == 2 * p;
      DoubledProduct(a, next, p);
    }
  }

  lemma DoubledProduct(a: Word, next: Word, p: nat)
    requires next == 2 * a % MODULUS
    ensures next * p % MODULUS == a * (2 * p) % MODULUS
  {
    var q := 2 * a / MODULUS;
    DivMod(2 * a, MODULUS);
    assert next == 2 * a - q * MODULUS;
    ReducedProduct(a, q, p);
    assert next * p == a * (2 * p) - (q * p) * MODULUS;
    EqualUpToMultiple(a * (2 * p), q * p);
  }

  lemma ReducedProduct(a: int, q: int, p: int)
    ensures (2 * a - q * MODULUS) * p == a * (2 * p) - (q * p) * MODULUS
  {
    assert (2 * a - q * MODULUS) * p == 2 * a * p - q * MODULUS * p;
    assert a * (2 * p) == 2 * a * p;
    assert (q * p) * MODULUS == q * MODULUS * p;
  }

  lemma EqualUpToMultiple(x: nat, k: nat)
    requires x - k * MODULUS >= 0
    ensures (x - k * MODULUS) % MODULUS == x % MODULUS
  {
    var q, r := x / MODULUS, x % MODULUS;
    DivModUnique(x - k * MODULUS, MODULUS, q - k, r);
  }
}
