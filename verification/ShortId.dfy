/** Short ids (internal/shortid/shortid.go): a seeded shuffle of the alphabet,
    an encoder that hides each digit behind random bits, and the
    millisecond-and-counter state machine that keeps ids apart. */
module ShortId {
  import opened Results
  import opened Word64
  import opened Bytes

  // ---------- Shuffling the alphabet ----------

  predicate Distinct<T(==)>(s: seq<T>)
  {
    forall i, j :: 0 <= i < j < |s| ==> s[i] != s[j]
  }

  /** The linear congruential step, with the wrap-around of its first product. */
  function NextSeed(seed: Word): (next: Word)
    ensures next < 233280
  {
    Add(Mul(seed, 9301), 49297) % 233280
  }

  function Pick(seed: Word, n: nat): (i: nat)
    requires seed < 233280 && 0 < n <= 64
    ensures i < n
  {
    Mul(seed, n) / 233280
  }

  function Without<T>(s: seq<T>, i: nat): (t: seq<T>)
    requires i < |s|
    ensures |t| == |s| - 1
  {
    s[..i] + s[i + 1..]
  }

  /** The order in which `shuffle` draws the symbols. */
  function Shuffled(source: seq<char>, seed: Word): (drawn: seq<char>)
    requires 0 < |source| <= 64
    ensures |drawn| == |source|
    decreases |source|
  {
    if |source| == 1 then source
    else
      var seed' := NextSeed(seed);
      var i := Pick(seed', |source|);
      [source[i]] + Shuffled(Without(source, i), seed')
  }

  /** The step and the draw in plain arithmetic. */
  lemma DrawIs(seed: Word, n: nat)
    requires 0 < n <= 64
    ensures NextSeed(seed) == (seed * 9301 + 49297) % 0x1_0000_0000_0000_0000 % 233280
    ensures seed < 233280 ==> Pick(seed, n) * 233280 <= seed * n < (Pick(seed, n) + 1) * 233280
  {
    ModuloAdds(seed * 9301, 49297, MODULUS);
    if seed < 233280 {
      assert seed * n <= seed * 64;
      assert Mul(seed, n) == seed * n;
      DivMod(seed * n, 233280);
    }
  }

  /** The first draw, and the draws from what is left. */
  lemma ShuffledDraws(source: seq<char>, seed: Word)
    requires 1 < |source| <= 64
    ensures
      var next := NextSeed(seed);
      var i := next * |source| / 233280;
      && i < |source| && Shuffled(source, seed)[0] == source[i]
      && Shuffled(source, seed)[1..] == Shuffled(source[..i] + source[i + 1..], next)
  {
    hide NextSeed;
    var next := NextSeed(seed);
    DrawIs(next, |source|);
    DivModUnique(next * |source|, 233280, Pick(next, |source|), next * |source| - Pick(next, |source|) * 233280);
    hide Pick;
  }

  lemma WithoutIsMinus<T>(s: seq<T>, i: nat)
    requires i < |s|
    ensures multiset(s) == multiset(Without(s, i)) + multiset{s[i]}
  {
    assert s == s[..i] + [s[i]] + s[i + 1..];
  }

  /** Whatever the seed, shuffling is a permutation. */
  lemma {:induction false} ShuffledIsPermutation(source: seq<char>, seed: Word)
    requires 0 < |source| <= 64
    ensures multiset(Shuffled(source, seed)) == multiset(source)
    decreases |source|
  {
    if |source| > 1 {
      hide NextSeed, Pick;
      var seed' := NextSeed(seed);
      var i := Pick(seed', |source|);
      ShuffledIsPermutation(Without(source, i), seed');
      WithoutIsMinus(source, i);
    }
  }

  lemma {:induction false} CountsAreAtMostOne<T>(s: seq<T>, x: T)
    requires Distinct(s)
    ensures multiset(s)[x] <= 1
  {
    if s != [] {
      CountsAreAtMostOne(s[1..], x);
      assert s == [s[0]] + s[1..];
      assert x == s[0] ==> x !in s[1..];
    }
  }

  lemma PermutationsAreDistinct<T>(s: seq<T>, t: seq<T>)
    requires Distinct(s) && multiset(s) == multiset(t)
    ensures Distinct(t)
  {
    forall i, j | 0 <= i < j < |t|
      ensures t[i] != t[j]
    {
      CountsAreAtMostOne(s, t[i]);
      assert t == t[..i] + [t[i]] + t[i + 1..j] + [t[j]] + t[j + 1..];
    }
  }

  /** An alphabet an encoder may use: 64 different symbols. */
  predicate IsAlphabet(abc: seq<char>)
  {
    |abc| == 64 && Distinct(abc)
  }

  datatype AbcError = WrongLength | NotUnique

  class Abc {
    var alphabet: seq<char>

    constructor ()
      ensures alphabet == []
    {
      alphabet := [];
    }

    /** `shuffle`: moves the symbols of `symbols` into the alphabet one by one. */
    method Shuffle(symbols: seq<char>, seed: Word)
      requires 0 < |symbols| <= 64
      modifies this
      ensures alphabet == old(alphabet) + Shuffled(symbols, seed)
    {
      hide NextSeed, Pick;
      var source, s := symbols, seed;
      while |source| > 1
        invariant 0 < |source| <= 64
        invariant alphabet + Shuffled(source, s) == old(alphabet) + Shuffled(symbols, seed)
      {
        s := NextSeed(s);
        var i := Pick(s, |source|);
        alphabet := alphabet + [source[i]];
        source := Without(source, i);
      }
      alphabet := alphabet + [source[0]];
    }

    /** `Encode`; `noise` is what the random source gives for each symbol. */
    method Encode(val: Word, nsymbols: Word, digits: Word, noise: nat -> Byte) returns (r: Result<seq<char>, ()>)
      requires IsAlphabet(alphabet)
      ensures r.Ok? <==> 4 <= digits <= 6 && (nsymbols > 0 ==> val < Pow2(digits * nsymbols))
      ensures r.Ok? ==>
        r.value == Encoded(alphabet, val, if nsymbols > 0 then nsymbols else Size(val, digits), digits, noise)
    {
      if digits < 4 || 6 < digits {
        return Err(());
      }
      SizeIsLeast(val, digits, nsymbols);
      var n := nsymbols;
      if n == 0 {
        n := Size(val, digits);
      } else if n < Size(val, digits) {
        return Err(());
      }
      hide Index;
      var res: seq<char> := [];
      for i := 0 to n
        invariant res == Encoded(alphabet, val, i, digits, noise)
      {
        res := res + [alphabet[Index(val, i, digits, noise(i))]];
      }
      return Ok(res);
    }
  }

  /** `NewAbc`: shuffles an alphabet of 64 different symbols. */
  method NewAbc(symbols: seq<char>, seed: Word) returns (r: Result<Abc, AbcError>)
    ensures r.Ok? <==> IsAlphabet(symbols)
    ensures r.Err? ==> (r.error == WrongLength <==> |symbols| != 64)
    ensures r.Ok? ==> fresh(r.value) && r.value.alphabet == Shuffled(symbols, seed)
    ensures r.Ok? ==> IsAlphabet(r.value.alphabet) && multiset(r.value.alphabet) == multiset(symbols)
  {
    if |symbols| != 64 {
      return Err(WrongLength);
    }
    var found: set<char> := {};
    for i := 0 to |symbols|
      invariant found == Elements(symbols[..i])
      invariant if Distinct(symbols[..i]) then |found| == i else |found| < i
    {
      assert symbols[..i + 1] == symbols[..i] + [symbols[i]];
      DistinctGrows(symbols[..i], symbols[i]);
      found := found + {symbols[i]};
    }
    assert symbols[..64] == symbols;
    if |found| < |symbols| {
      return Err(NotUnique);
    }
    var abc := new Abc();
    abc.Shuffle(symbols, seed);
    ShuffledIsPermutation(symbols, seed);
    PermutationsAreDistinct(symbols, Shuffled(symbols, seed));
    return Ok(abc);
  }

  function Elements(s: seq<char>): set<char>
  {
    set c | c in s
  }

  lemma DistinctGrows(s: seq<char>, c: char)
    ensures Distinct(s + [c]) <==> Distinct(s) && c !in s
    ensures Elements(s + [c]) == Elements(s) + {c}
  {
    var t := s + [c];
    if Distinct(t) {
      forall i | 0 <= i < |s| ensures s[i] != c {
        assert t[i] != t[|s|];
      }
      forall i, j | 0 <= i < j < |s| ensures s[i] != s[j] {
        assert t[i] != t[j];
      }
    }
  }

  // ---------- Digits and noise ----------

  function And(a: nat, b: nat): nat
  {
    if a == 0 then 0 else Bit(Odd(a) && Odd(b)) + 2 * And(a / 2, b / 2)
  }

  function Or(a: nat, b: nat): nat
    decreases a + b
  {
    if a == 0 && b == 0 then 0 else Bit(Odd(a) || Odd(b)) + 2 * Or(a / 2, b / 2)
  }

  /** The random bits of a symbol: `noise & (0x3f - mask)`, none for 6 digits. */
  function RandomBits(noise: Byte, digits: nat): nat
    requires 4 <= digits <= 6
  {
    PowersOfTwo();
    if digits < 6 then And(noise, 0x3f - (Pow2(digits) - 1)) else 0
  }

  /** The position in the alphabet of symbol `i`: its digit, with the bits the
      digit does not use taken from the noise. */
  function Index(val: Word, i: nat, digits: nat, noise: Byte): (index: nat)
    requires 4 <= digits <= 6
    ensures index < 64
    ensures index % Pow2(digits) == Digit(val, i, digits)
  {
    IndexIsDigit(val, i, digits, noise);
    Or(And(Shift(Right, val, digits * i), Pow2(digits) - 1), RandomBits(noise, digits))
  }

  function Digit(val: nat, i: nat, digits: nat): nat
  {
    val / Pow2(digits * i) % Pow2(digits)
  }

  lemma AndDigit(a: nat, b: nat)
    ensures Odd(And(a, b)) == (Odd(a) && Odd(b))
    ensures And(a, b) / 2 == And(a / 2, b / 2)
  {}

  lemma OrDigit(a: nat, b: nat)
    ensures Odd(Or(a, b)) == (Odd(a) || Odd(b))
    ensures Or(a, b) / 2 == Or(a / 2, b / 2)
  {}

  lemma Doubled(b: nat)
    ensures !Odd(2 * b) && 2 * b / 2 == b
  {}

  lemma AndDouble(a: nat, b: nat)
    ensures And(a, 2 * b) == 2 * And(a / 2, b)
  {
    hide And, Odd;
    AndDigit(a, 2 * b);
    Doubled(b);
    Doubled(And(a / 2, b));
    EqualByDigit(And(a, 2 * b), 2 * And(a / 2, b));
  }

  lemma {:induction false} AndZero(a: nat)
    ensures And(a, 0) == 0
  {
    if a > 0 {
      AndZero(a / 2);
    }
  }

  lemma {:induction false} AndMask(a: nat, d: nat)
    ensures And(a, Pow2(d) - 1) == a % Pow2(d)
    decreases d
  {
    AndLow(a, d);
    LowIsMod(a, d);
  }

  lemma {:induction false} AndLow(a: nat, d: nat)
    ensures And(a, Pow2(d) - 1) == Low(a, d)
    decreases d
  {
    if d == 0 {
      AndZero(a);
    } else {
      AndLow(a / 2, d - 1);
      var m := Pow2(d) - 1;
      assert m / 2 == Pow2(d - 1) - 1 && Odd(m);
      AndDigit(a, m);
      LowDigit(a, d);
      hide And, Low, Odd, Pow2;
      EqualByDigit(And(a, m), Low(a, d));
    }
  }

  /** `k` shifted left by `d`, without the loss of a word. */
  function Scaled(k: nat, d: nat): nat
  {
    if d == 0 then k else 2 * Scaled(k, d - 1)
  }

  lemma {:induction false} OrDisjoint(low: nat, d: nat, k: nat)
    requires low < Pow2(d)
    ensures Or(low, Scaled(k, d)) == low + Scaled(k, d)
    decreases d
  {
    if d == 0 {
      OrZero(k);
    } else {
      var b := Scaled(k, d - 1);
      OrDisjoint(low / 2, d - 1, k);
      OrDigit(low, 2 * b);
      Doubled(b);
      assert Odd(low + 2 * b) == Odd(low) && (low + 2 * b) / 2 == low / 2 + b;
      hide Or, Odd;
      EqualByDigit(Or(low, 2 * b), low + 2 * b);
    }
  }

  lemma {:induction false} OrZero(k: nat)
    ensures Or(0, k) == k
  {
    if k > 0 {
      OrZero(k / 2);
    }
  }

  lemma PowersOfTwo()
    ensures Pow2(0) == 1 && Pow2(1) == 2 && Pow2(2) == 4
    ensures Pow2(4) == 16 && Pow2(5) == 32 && Pow2(6) == 64
  {}

  lemma ScaledIs(k: nat)
    ensures Scaled(k, 4) == 16 * k && Scaled(k, 5) == 32 * k && Scaled(k, 6) == 64 * k
  {
    assert Scaled(k, 1) == 2 * Scaled(k, 0);
    assert Scaled(k, 2) == 4 * k;
    assert Scaled(k, 3) == 2 * Scaled(k, 2);
    assert Scaled(k, 4) == 2 * Scaled(k, 3);
    assert Scaled(k, 5) == 2 * Scaled(k, 4);
  }

  /** The random bits are the ones above the digit, and below 64. */
  lemma RandomBitsAreHigh(noise: Byte, digits: nat) returns (k: nat)
    requires 4 <= digits <= 6
    ensures RandomBits(noise, digits) == Scaled(k, digits)
    ensures Pow2(digits) - 1 + Scaled(k, digits) < 64
  {
    PowersOfTwo();
    hide And, Pow2, Scaled;
    HighBits(noise);
    k := if digits == 4 then noise / 16 % 4 else if digits == 5 then noise / 32 % 2 else 0;
    ScaledIs(k);
  }

  lemma HighBits(noise: Byte)
    ensures And(noise, 0x30) == 16 * (noise / 16 % 4)
    ensures And(noise, 0x20) == 32 * (noise / 32 % 2)
  {
    PowersOfTwo();
    hide And, Pow2;
    AndDouble(noise, 24);
    AndDouble(noise / 2, 12);
    AndDouble(noise / 4, 6);
    AndDouble(noise / 8, 3);
    AndMask(noise / 16, 2);
    AndDouble(noise, 16);
    AndDouble(noise / 2, 8);
    AndDouble(noise / 4, 4);
    AndDouble(noise / 8, 2);
    AndDouble(noise / 16, 1);
    AndMask(noise / 32, 1);
  }

  lemma IndexIsDigit(val: Word, i: nat, digits: nat, noise: Byte)
    requires 4 <= digits <= 6
    ensures
      var index := Or(And(Shift(Right, val, digits * i), Pow2(digits) - 1), RandomBits(noise, digits));
      index < 64 && index % Pow2(digits) == Digit(val, i, digits)
  {
    hide And, Or, Shift, Pow2, Scaled, RandomBits;
    var low := And(Shift(Right, val, digits * i), Pow2(digits) - 1);
    AndMask(Shift(Right, val, digits * i), digits);
    ShiftRightDivides(val, digits * i);
    assert low == Digit(val, i, digits) < Pow2(digits);
    var k := RandomBitsAreHigh(noise, digits);
    OrDisjoint(low, digits, k);
    PowersOfTwo();
    ScaledIs(k);
    hide Digit;
    SumModulo(low, Pow2(digits), k);
  }

  /** The position in plain arithmetic: the digit, and above it the bits of the
      noise that the digit does not use. */
  lemma IndexMeans(val: Word, i: nat, digits: nat, noise: Byte)
    requires 4 <= digits <= 6
    ensures
      var digit := val / Pow2(digits * i) % Pow2(digits);
      Index(val, i, digits, noise) == digit
        + if digits == 4 then 16 * (noise / 16 % 4) else if digits == 5 then 32 * (noise / 32 % 2) else 0
    ensures Pow2(4) == 16 && Pow2(5) == 32 && Pow2(6) == 64
  {
    hide And, Or, Shift, Pow2, Scaled;
    var low := And(Shift(Right, val, digits * i), Pow2(digits) - 1);
    AndMask(Shift(Right, val, digits * i), digits);
    ShiftRightDivides(val, digits * i);
    PowersOfTwo();
    HighBits(noise);
    var k := if digits == 4 then noise / 16 % 4 else if digits == 5 then noise / 32 % 2 else 0;
    ScaledIs(k);
    OrDisjoint(low, digits, k);
  }

  lemma SumModulo(low: nat, p: nat, k: nat)
    requires low < p
    ensures (low + p * k) % p == low
  {
    DivModUnique(low + p * k, p, k, low);
  }

  // ---------- Encoding ----------

  /** The first `n` symbols of an encoding. */
  function Encoded(abc: seq<char>, val: Word, n: nat, digits: nat, noise: nat -> Byte): (t: seq<char>)
    requires IsAlphabet(abc) && 4 <= digits <= 6
    ensures |t| == n
    decreases n
  {
    if n == 0 then []
    else Encoded(abc, val, n - 1, digits, noise) + [abc[Index(val, n - 1, digits, noise(n - 1))]]
  }

  lemma {:induction false} EncodedAt(abc: seq<char>, val: Word, n: nat, digits: nat, noise: nat -> Byte, i: nat)
    requires IsAlphabet(abc) && 4 <= digits <= 6 && i < n
    ensures Encoded(abc, val, n, digits, noise)[i] == abc[Index(val, i, digits, noise(i))]
    decreases n
  {
    hide Index;
    if i < n - 1 {
      EncodedAt(abc, val, n - 1, digits, noise, i);
    }
  }

  /** Where a symbol stands in the alphabet. */
  function Position(abc: seq<char>, c: char): (k: nat)
    ensures k <= |abc| && (k < |abc| ==> abc[k] == c)
  {
    if abc == [] || abc[0] == c then 0 else 1 + Position(abc[1..], c)
  }

  lemma {:induction false} PositionOf(abc: seq<char>, k: nat)
    requires Distinct(abc) && k < |abc|
    ensures Position(abc, abc[k]) == k
  {
    if k > 0 {
      PositionOf(abc[1..], k - 1);
    }
  }

  /** Reads an encoding back: each position, without its noise, is a digit. */
  function Decoded(abc: seq<char>, t: seq<char>, digits: nat): nat
  {
    if t == [] then 0
    else
      var n := |t| - 1;
      Decoded(abc, t[..n], digits) + Position(abc, t[n]) % Pow2(digits) * Pow2(digits * n)
  }

  /** The value comes back exactly, whatever the noise was. */
  lemma {:induction false} DecodeEncoded(abc: seq<char>, val: Word, n: nat, digits: nat, noise: nat -> Byte)
    requires IsAlphabet(abc) && 4 <= digits <= 6
    ensures Decoded(abc, Encoded(abc, val, n, digits, noise), digits) == val % Pow2(digits * n)
    decreases n
  {
    if n == 0 {
      assert Pow2(digits * 0) == 1;
    } else {
      hide Index, Pow2, IsAlphabet, Position, Digit;
      var t := Encoded(abc, val, n, digits, noise);
      assert t[..n - 1] == Encoded(abc, val, n - 1, digits, noise);
      DecodeEncoded(abc, val, n - 1, digits, noise);
      SymbolIsDigit(abc, val, n - 1, digits, noise(n - 1));
      DigitExtends(val, n - 1, digits);
    }
  }

  lemma SymbolIsDigit(abc: seq<char>, val: Word, i: nat, digits: nat, noise: Byte)
    requires IsAlphabet(abc) && 4 <= digits <= 6
    ensures Position(abc, abc[Index(val, i, digits, noise)]) % Pow2(digits) == Digit(val, i, digits)
  {
    PositionOf(abc, Index(val, i, digits, noise));
  }

  lemma DigitExtends(val: nat, i: nat, digits: nat)
    ensures val % Pow2(digits * i) + Digit(val, i, digits) * Pow2(digits * i) == val % Pow2(digits * (i + 1))
  {
    var b, p := Pow2(digits), Pow2(digits * i);
    Pow2Adds(digits * i, digits);
    assert digits * (i + 1) == digits * i + digits;
    hide Pow2;
    ModProduct(val, p, b);
  }

  lemma ModProduct(x: nat, p: nat, b: nat)
    requires p > 0 && b > 0
    ensures x % p + x / p % b * p == x % (p * b)
  {
    var h, low := x / p, x % p;
    var q, r := h / b, h % b;
    TwoDivisions(x, p, b, h, low, q, r);
    DivModUnique(x, p * b, q, r * p + low);
  }

  lemma TwoDivisions(x: nat, p: nat, b: nat, h: nat, low: nat, q: nat, r: nat)
    requires x == h * p + low && low < p && h == q * b + r && r < b
    ensures x == q * (p * b) + (r * p + low)
    ensures 0 <= r * p + low < p * b
  {
    Distributes(q, b, r, p);
    Distributes(1, r, 1, p);
    Grows(r + 1, b, p);
  }

  lemma Distributes(q: nat, b: nat, r: nat, p: nat)
    ensures (q * b + r) * p == q * (p * b) + r * p
  {
  }

  lemma Grows(a: nat, b: nat, p: nat)
    requires a <= b
    ensures a * p <= b * p && b * p == p * b
  {
  }

  // ---------- How many symbols ----------

  function FloorLog2(val: nat): nat
    requires val > 0
  {
    if val == 1 then 0 else 1 + FloorLog2(val / 2)
  }

  /** `computedSize`. */
  function Size(val: nat, digits: nat): nat
    requires digits > 0
  {
    if val >= 1 then FloorLog2(val) / digits + 1 else 1
  }

  lemma {:induction false} FloorLog2Bounds(val: nat)
    requires val > 0
    ensures Pow2(FloorLog2(val)) <= val < Pow2(FloorLog2(val) + 1)
  {
    if val > 1 {
      FloorLog2Bounds(val / 2);
    }
  }

  lemma {:induction false} Pow2Grows(a: nat, b: nat)
    requires a <= b
    ensures Pow2(a) <= Pow2(b)
    decreases b
  {
    if a < b {
      Pow2Grows(a, b - 1);
    }
  }

  /** The computed size is the least positive number of digits that hold the value. */
  lemma SizeIsLeast(val: nat, digits: nat, n: nat)
    requires digits > 0
    ensures Size(val, digits) >= 1
    ensures n >= 1 ==> (Size(val, digits) <= n <==> val < Pow2(digits * n))
  {
    hide FloorLog2, Pow2, Size;
    SizeIsPositive(val, digits);
    if val >= 1 && n >= 1 {
      LeastQuotient(val, digits, FloorLog2(val), n);
    }
  }

  lemma SizeIsPositive(val: nat, digits: nat)
    requires digits > 0
    ensures Size(val, digits) >= 1 && (val == 0 ==> Size(val, digits) == 1)
  {}

  lemma LeastQuotient(val: nat, d: nat, l: nat, n: nat)
    requires d > 0 && val >= 1 && l == FloorLog2(val)
    ensures Size(val, d) <= n <==> val < Pow2(d * n)
  {
    var q, r := l / d, l % d;
    assert Size(val, d) == q + 1;
    FloorLog2Bounds(val);
    hide Pow2, Size, FloorLog2;
    assert l == d * q + r && r < d by { DivMod(l, d); }
    LeastMultiple(val, d, l, q, r, n);
  }

  lemma LeastMultiple(val: nat, d: nat, l: nat, q: nat, r: nat, n: nat)
    requires r < d && l == d * q + r && Pow2(l) <= val < Pow2(l + 1)
    ensures q + 1 <= n <==> val < Pow2(d * n)
  {
    hide Pow2;
    DigitsCover(l, d, q, r, n);
    if q + 1 <= n {
      Pow2Grows(l + 1, d * n);
    } else {
      Pow2Grows(d * n, l);
    }
  }

  lemma DigitsCover(l: nat, d: nat, q: nat, r: nat, n: nat)
    requires r < d && l == d * q + r
    ensures if q + 1 <= n then l + 1 <= d * n else d * n <= l
  {
    if q + 1 <= n {
      Multiples(d, q + 1, n);
    } else {
      Multiples(d, n, q);
    }
  }

  lemma Multiples(d: nat, a: nat, b: nat)
    requires a <= b
    ensures d * a <= d * b
  {}
}
