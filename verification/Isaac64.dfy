/** The ISAAC64 generator (internal/uuid/isaac64.go): its state transition as a
    bijection, its seeding as an injection, and its buffered output as a plain
    stream of words. */
module Isaac64 {
  import opened Word64
  import opened Bytes

  /** All that the next block depends on; `i` and `out` only buffer a block. */
  datatype Core = Core(buf: seq<Word>, a: Word, b: Word, c: Word) {
    ghost predicate Valid() { |buf| == 256 }
  }

  /** The index `x & 0xff`. */
  function LowByte(x: Word): (i: nat)
    ensures i < 256
  {
    x % 256
  }

  // ---------- The four scrambles of the accumulator ----------

  function Scramble(k: nat, a: Word): Word
    requires k < 4
  {
    match k
    case 0 => Xor(Not(a), Shift(Left, a, 21))
    case 1 => XorShift(Right, a, 5)
    case 2 => XorShift(Left, a, 12)
    case 3 => XorShift(Right, a, 33)
  }

  function Unscramble(k: nat, m: Word): Word
    requires k < 4
  {
    match k
    case 0 => UnXorShift(Left, Not(m), 21)
    case 1 => UnXorShift(Right, m, 5)
    case 2 => UnXorShift(Left, m, 12)
    case 3 => UnXorShift(Right, m, 33)
  }

  lemma UnscrambleScramble(k: nat, a: Word)
    requires k < 4
    ensures Unscramble(k, Scramble(k, a)) == a
  {
    hide Xor, Not, Shift, UnXorShift;
    NotXor(a, Shift(Left, a, 21));
    UnXorShiftXorShift(Left, a, 21);
    hide XorShift;
    UnXorShiftXorShift(Right, a, 5);
    UnXorShiftXorShift(Left, a, 12);
    UnXorShiftXorShift(Right, a, 33);
  }

  lemma ScrambleUnscramble(k: nat, m: Word)
    requires k < 4
    ensures Scramble(k, Unscramble(k, m)) == m
  {
    hide Xor, Not, Shift, UnXorShift;
    var a := UnXorShift(Left, Not(m), 21);
    XorShiftUnXorShift(Left, Not(m), 21);
    NotXor(a, Shift(Left, a, 21));
    NotXor(m, 0);
    hide XorShift;
    XorShiftUnXorShift(Right, m, 5);
    XorShiftUnXorShift(Left, m, 12);
    XorShiftUnXorShift(Right, m, 33);
  }

  // ---------- One word of a block, forwards and backwards ----------

  /** Rewrites word `i`; the word emitted is the new `b`. */
  function Step(s: Core, i: nat): (t: Core)
    requires s.Valid() && i < 256
    ensures t.Valid() && t.c == s.c
  {
    var x := s.buf[i];
    var a := Add(Scramble(i % 4, s.a), s.buf[(i + 128) % 256]);
    var y := Add(Add(s.buf[LowByte(Shift(Right, x, 3))], a), s.b);
    var buf := s.buf[i := y];
    Core(buf, a, Add(buf[LowByte(Shift(Right, y, 11))], x), s.c)
  }

  /** Undoes `Step`. The emitted word gives back the overwritten one, and with
      it the table as it was, whichever entries the two look-ups hit. */
  function Unstep(t: Core, i: nat): (s: Core)
    requires t.Valid() && i < 256
    ensures s.Valid() && s.c == t.c
  {
    var y := t.buf[i];
    var x := Sub(t.b, t.buf[LowByte(Shift(Right, y, 11))]);
    var buf := t.buf[i := x];
    var a := Unscramble(i % 4, Sub(t.a, buf[(i + 128) % 256]));
    Core(buf, a, Sub(y, Add(buf[LowByte(Shift(Right, x, 3))], t.a)), t.c)
  }

  lemma UnstepStep(s: Core, i: nat)
    requires s.Valid() && i < 256
    ensures Unstep(Step(s, i), i) == s
  {
    hide Add, Sub, Shift, Scramble, Unscramble, LowByte;
    var t := Step(s, i);
    var x, y := s.buf[i], t.buf[i];
    AddCommutes(t.buf[LowByte(Shift(Right, y, 11))], x);
    SubAdd(x, t.buf[LowByte(Shift(Right, y, 11))]);
    assert t.buf[i := x] == s.buf;
    SubAdd(Scramble(i % 4, s.a), s.buf[(i + 128) % 256]);
    UnscrambleScramble(i % 4, s.a);
    var entry := Add(s.buf[LowByte(Shift(Right, x, 3))], t.a);
    AddCommutes(entry, s.b);
    SubAdd(s.b, entry);
  }

  lemma StepUnstep(t: Core, i: nat)
    requires t.Valid() && i < 256
    ensures Step(Unstep(t, i), i) == t
  {
    hide Add, Sub, Shift, Scramble, Unscramble, LowByte;
    var s := Unstep(t, i);
    var x, y := s.buf[i], t.buf[i];
    AddSub(t.a, s.buf[(i + 128) % 256]);
    ScrambleUnscramble(i % 4, Sub(t.a, s.buf[(i + 128) % 256]));
    var entry := Add(s.buf[LowByte(Shift(Right, x, 3))], t.a);
    AddCommutes(entry, s.b);
    AddSub(y, entry);
    assert s.buf[i := y] == t.buf;
    AddCommutes(t.buf[LowByte(Shift(Right, y, 11))], x);
    AddSub(t.b, t.buf[LowByte(Shift(Right, y, 11))]);
  }

  // ---------- A whole block ----------

  /** The state before word 0 of a block: the counter moves, and feeds `b`. */
  function Begin(s: Core): (t: Core)
    requires s.Valid()
    ensures t.Valid()
  {
    s.(c := Add(s.c, 1), b := Add(s.b, Add(s.c, 1)))
  }

  function Unbegin(t: Core): (s: Core)
    requires t.Valid()
    ensures s.Valid()
  {
    t.(c := Sub(t.c, 1), b := Sub(t.b, t.c))
  }

  function Steps(s: Core, n: nat): (t: Core)
    requires s.Valid() && n <= 256
    ensures t.Valid()
  {
    if n == 0 then s else Step(Steps(s, n - 1), n - 1)
  }

  function Unsteps(t: Core, n: nat): (s: Core)
    requires t.Valid() && n <= 256
    ensures s.Valid()
    decreases n
  {
    if n == 0 then t else Unsteps(Unstep(t, n - 1), n - 1)
  }

  function Shuffle(s: Core): (t: Core)
    requires s.Valid()
    ensures t.Valid()
  {
    Steps(Begin(s), |s.buf|)
  }

  function Unshuffle(t: Core): (s: Core)
    requires t.Valid()
    ensures s.Valid()
  {
    Unbegin(Unsteps(t, |t.buf|))
  }

  /** The first `n` words a shuffle emits from the begun state `s`: the `b`
      after each step. */
  function Emitted(s: Core, n: nat): (out: seq<Word>)
    requires s.Valid() && n <= 256
    ensures |out| == n
  {
    if n == 0 then [] else Emitted(s, n - 1) + [Steps(s, n).b]
  }

  function Block(s: Core): (out: seq<Word>)
    requires s.Valid()
    ensures |out| == 256
  {
    Emitted(Begin(s), |s.buf|)
  }

  // ---------- What a shuffle is, from the tables before and after it ----------

  /** Entry `j` of the table when word `k` is about to be rewritten: the words
      below `k` are new. */
  function Entry(s: Core, t: Core, k: nat, j: nat): Word
    requires s.Valid() && t.Valid() && j < 256
  {
    if j < k then t.buf[j] else s.buf[j]
  }

  /** The accumulator before its entry is added, for each quarter in turn. */
  function Scrambled(k: nat, a: Word): Word
  {
    if k % 4 == 0 then Xor(Not(a), a * 0x20_0000 % MODULUS)
    else if k % 4 == 1 then Xor(a, a / 32)
    else if k % 4 == 2 then Xor(a, a * 4096 % MODULUS)
    else Xor(a, a / 0x2_0000_0000)
  }

  lemma ScrambleMeans(k: nat, a: Word)
    requires k < 4
    ensures Scramble(k, a) == Scrambled(k, a)
  {
    hide Xor, Not, Shift, Pow2;
    ShiftLeftMultiplies(a, 21);
    ShiftRightDivides(a, 5);
    ShiftLeftMultiplies(a, 12);
    ShiftRightDivides(a, 33);
    SomePowers();
  }

  lemma SomePowers()
    ensures Pow2(3) == 8 && Pow2(5) == 32 && Pow2(11) == 2048 && Pow2(12) == 4096
    ensures Pow2(21) == 0x20_0000 && Pow2(33) == 0x2_0000_0000
    ensures Pow2(27) == 0x800_0000 && Pow2(30) == 0x4000_0000 && Pow2(31) == 0x8000_0000
  {
    Pow2Adds(11, 10);
    Pow2Adds(21, 6);
    Pow2Adds(27, 3);
    Pow2Adds(27, 4);
    Pow2Adds(27, 6);
  }

  /** The accumulators of a block. */
  function Accumulators(s: Core): (acc: seq<Word>)
    requires s.Valid()
    ensures |acc| == 257
  {
    seq(257, k requires 0 <= k < 257 => Steps(Begin(s), k).a)
  }

  /** The recurrence of ISAAC-64: every accumulator, every word of the new table
      and every word of the block. */
  lemma ShuffleRecurs(s: Core, k: nat)
    requires s.Valid() && k < 256
    ensures
      var t, out, acc := Shuffle(s), Block(s), Accumulators(s);
      var before := if k == 0 then (s.b + (s.c + 1) % MODULUS) % MODULUS else out[k - 1];
      && acc[k + 1] == (Scrambled(k, acc[k]) + Entry(s, t, k, (k + 128) % 256)) % MODULUS
      && t.buf[k] == ((Entry(s, t, k, s.buf[k] / 8 % 256) + acc[k + 1]) % MODULUS + before) % MODULUS
      && out[k] == (Entry(s, t, k + 1, t.buf[k] / 2048 % 256) + s.buf[k]) % MODULUS
  {
    hide Add, Step, Scramble, Scrambled, Shift, Steps, Emitted;
    var b, t := Begin(s), Shuffle(s);
    var here, next := Steps(b, k), Steps(b, k + 1);
    NextStep(b, k);
    assert t == Steps(b, 256) && Block(s) == Emitted(b, 256);
    EmittedAt(b, 256, k);
    BeforeWord(s, k);
    StepMeans(here, k);
    EntriesAt(b, k);
    EntriesAt(b, k + 1);
    AddMeans(s.c, 1);
    AddMeans(s.b, (s.c + 1) % MODULUS);
  }

  /** Each word of a block is an entry of the table, new up to the word itself,
      plus the word that was overwritten. */
  lemma BlockFromTables(s: Core, k: nat)
    requires s.Valid() && k < 256
    ensures
      var t := Shuffle(s);
      var j := t.buf[k] / 2048 % 256;
      Block(s)[k] == Add(if j <= k then t.buf[j] else s.buf[j], s.buf[k])
  {
    hide Shuffle, Block, Accumulators, Scrambled;
    ShuffleRecurs(s, k);
  }

  /** From the first accumulator and the counter to the last. */
  lemma ShuffleEnds(s: Core)
    requires s.Valid()
    ensures Accumulators(s)[0] == s.a && Accumulators(s)[256] == Shuffle(s).a
    ensures Shuffle(s).b == Block(s)[255] && Shuffle(s).c == (s.c + 1) % MODULUS
  {
    hide Step, Emitted;
    EmittedAt(Begin(s), 256, 255);
    KeepsCounter(Begin(s), 256);
    assert Steps(Begin(s), 0) == Begin(s);
    hide Steps;
  }

  lemma AddMeans(a: Word, b: Word)
    ensures Add(a, b) == (a + b) % MODULUS
  {}

  lemma NextStep(b: Core, k: nat)
    requires b.Valid() && k < 256
    ensures Steps(b, k + 1) == Step(Steps(b, k), k)
  {}

  lemma {:induction false} KeepsCounter(b: Core, n: nat)
    requires b.Valid() && n <= 256
    ensures Steps(b, n).c == b.c
  {
    if n > 0 {
      hide Step;
      KeepsCounter(b, n - 1);
    }
  }

  /** The `b` with which word `k` is rewritten. */
  lemma BeforeWord(s: Core, k: nat)
    requires s.Valid() && k < 256
    ensures Steps(Begin(s), k).b == if k == 0 then Begin(s).b else Block(s)[k - 1]
  {
    hide Step, Emitted;
    if k == 0 {
      assert Steps(Begin(s), 0) == Begin(s);
    } else {
      hide Steps;
      EmittedAt(Begin(s), 256, k - 1);
    }
  }

  /** A step in plain arithmetic. */
  lemma StepMeans(s: Core, k: nat)
    requires s.Valid() && k < 256
    ensures
      var t := Step(s, k);
      && t.a == (Scrambled(k, s.a) + s.buf[(k + 128) % 256]) % MODULUS
      && t.buf[k] == ((s.buf[s.buf[k] / 8 % 256] + t.a) % MODULUS + s.b) % MODULUS
      && t.b == (t.buf[t.buf[k] / 2048 % 256] + s.buf[k]) % MODULUS
      && forall j :: 0 <= j < 256 && j != k ==> t.buf[j] == s.buf[j]
  {
    hide Scramble, Shift, Pow2, Xor, Not;
    var y := Step(s, k).buf[k];
    ScrambleMeans(k % 4, s.a);
    ShiftRightDivides(s.buf[k], 3);
    ShiftRightDivides(y, 11);
    SomePowers();
  }

  lemma {:induction false} EmittedAt(b: Core, n: nat, k: nat)
    requires b.Valid() && k < n <= 256
    ensures Emitted(b, n)[k] == Steps(b, k + 1).b
  {
    hide Steps;
    if k < n - 1 {
      EmittedAt(b, n - 1, k);
    }
  }

  /** Words from `n` on are untouched after `n` steps. */
  lemma {:induction false} Untouched(b: Core, n: nat, j: nat)
    requires b.Valid() && n <= j < 256
    ensures Steps(b, n).buf[j] == b.buf[j]
  {
    if n > 0 {
      Untouched(b, n - 1, j);
      StepElsewhere(Steps(b, n - 1), n - 1, j);
      hide Step;
    }
  }

  /** Words below `m` are settled after `m` steps. */
  lemma {:induction false} Settled(b: Core, m: nat, n: nat, j: nat)
    requires b.Valid() && j < m <= n <= 256
    ensures Steps(b, n).buf[j] == Steps(b, m).buf[j]
    decreases n
  {
    if m < n {
      Settled(b, m, n - 1, j);
      NextStep(b, n - 1);
      StepElsewhere(Steps(b, n - 1), n - 1, j);
      hide Steps, Step;
    }
  }

  lemma StepElsewhere(s: Core, k: nat, j: nat)
    requires s.Valid() && k < 256 && j < 256 && j != k
    ensures Step(s, k).buf[j] == s.buf[j]
  {
    hide Add, Scramble, LowByte, Shift;
  }

  lemma EntriesAt(b: Core, k: nat)
    requires b.Valid() && k <= 256
    ensures forall j :: 0 <= j < 256 ==> Steps(b, k).buf[j] == Entry(b, Steps(b, 256), k, j)
  {
    hide Steps;
    forall j | 0 <= j < 256
      ensures Steps(b, k).buf[j] == Entry(b, Steps(b, 256), k, j)
    {
      if j < k {
        Settled(b, k, 256, j);
      } else {
        Untouched(b, k, j);
      }
    }
  }

  lemma {:induction false} UnstepsSteps(s: Core, n: nat)
    requires s.Valid() && n <= 256
    ensures Unsteps(Steps(s, n), n) == s
  {
    if n > 0 {
      hide Step, Unstep;
      UnstepStep(Steps(s, n - 1), n - 1);
      UnstepsSteps(s, n - 1);
    }
  }

  lemma {:induction false} StepsUnsteps(t: Core, n: nat)
    requires t.Valid() && n <= 256
    ensures Steps(Unsteps(t, n), n) == t
    decreases n
  {
    if n > 0 {
      hide Step, Unstep;
      StepsUnsteps(Unstep(t, n - 1), n - 1);
      StepUnstep(t, n - 1);
    }
  }

  /** The state transition is a bijection: `Unshuffle` is its two-sided
      inverse, so distinct states never merge and every state has a past. */
  lemma ShuffleIsBijective(s: Core)
    requires s.Valid()
    ensures Unshuffle(Shuffle(s)) == s
    ensures Shuffle(Unshuffle(s)) == s
  {
    hide Steps, Unsteps, Add, Sub;
    UnstepsSteps(Begin(s), 256);
    SubAdd(s.c, 1);
    SubAdd(s.b, Add(s.c, 1));
    var t := Unsteps(s, 256);
    StepsUnsteps(s, 256);
    AddSub(t.c, 1);
    AddSub(t.b, t.c);
  }

  lemma ShuffleInjective(s: Core, t: Core)
    requires s.Valid() && t.Valid()
    ensures Shuffle(s) == Shuffle(t) <==> s == t
  {
    hide Shuffle, Unshuffle;
    ShuffleIsBijective(s);
    ShuffleIsBijective(t);
  }

  /** The state after `n` shuffles. */
  function Iterate(s: Core, n: nat): (t: Core)
    requires s.Valid()
    ensures t.Valid()
  {
    if n == 0 then s else Shuffle(Iterate(s, n - 1))
  }

  /** Word `n` of the stream that starts at `s`. */
  function StreamWord(s: Core, n: nat): Word
    requires s.Valid()
  {
    Block(Iterate(s, n / 256))[n % 256]
  }

  lemma IterateBack(s: Core, m: nat, n: nat)
    requires s.Valid()
    ensures Iterate(s, m + 1) == Iterate(s, n + 1) <==> Iterate(s, m) == Iterate(s, n)
  {
    hide Shuffle;
    ShuffleInjective(Iterate(s, m), Iterate(s, n));
  }

  /** A run revisits a state if and only if it comes back to its start after
      as many shuffles: there is no tail leading into a cycle. */
  lemma {:induction false} NoTailBeforeACycle(s: Core, m: nat, n: nat)
    requires s.Valid() && m <= n
    ensures Iterate(s, m) == Iterate(s, n) <==> Iterate(s, n - m) == s
    decreases m
  {
    hide Shuffle;
    if m > 0 {
      IterateBack(s, m - 1, n - 1);
      NoTailBeforeACycle(s, m - 1, n - 1);
    }
  }

  // ---------- Seeding ----------

  const GAMMA: Word := 0x9e3779b97f4a7c15
  const MULTIPLIER1: Word := 0xbf58476d1ce4e5b9
  const MULTIPLIER2: Word := 0x94d049bb133111eb

  /** The multipliers are odd, so they have inverses modulo 2^64. */
  lemma Inverses()
    ensures Mul(GAMMA, 0xf1de83e19937733d) == 1
    ensures Mul(MULTIPLIER1, 0x96de1b173f119089) == 1
    ensures Mul(MULTIPLIER2, 0x319642b2d24d8ec3) == 1
  {}

  /** The SplitMix64 counter after `n` increments. */
  function Counter(seed: Word, n: nat): Word
  {
    if n == 0 then seed else Add(Counter(seed, n - 1), GAMMA)
  }

  /** The SplitMix64 output function. */
  function SplitMix(s: Word): Word
  {
    var z1 := Mul(XorShift(Right, s, 30), MULTIPLIER1);
    var z2 := Mul(XorShift(Right, z1, 27), MULTIPLIER2);
    XorShift(Right, z2, 31)
  }

  function SeedWords(seed: Word, n: nat): (buf: seq<Word>)
    ensures |buf| == n
    ensures forall i :: 0 <= i < n ==> buf[i] == SplitMix(Counter(seed, i + 1))
  {
    if n == 0 then [] else SeedWords(seed, n - 1) + [SplitMix(Counter(seed, n))]
  }

  /** The state `Seed` shuffles first. */
  function Seeded(seed: Word): (s: Core)
    ensures s.Valid()
  {
    Core(SeedWords(seed, 256), 0, 0, 0)
  }

  /** The mixing in plain arithmetic. */
  lemma SplitMixMeans(s: Word)
    ensures
      var z1 := Xor(s, s / 0x4000_0000) * 0xbf58_476d_1ce4_e5b9 % 0x1_0000_0000_0000_0000;
      var z2 := Xor(z1, z1 / 0x800_0000) * 0x94d0_49bb_1331_11eb % 0x1_0000_0000_0000_0000;
      SplitMix(s) == Xor(z2, z2 / 0x8000_0000)
  {
    hide Xor, Shift, Pow2;
    SomePowers();
    ShiftRightDivides(s, 30);
    var z1 := Mul(XorShift(Right, s, 30), MULTIPLIER1);
    ShiftRightDivides(z1, 27);
    var z2 := Mul(XorShift(Right, z1, 27), MULTIPLIER2);
    ShiftRightDivides(z2, 31);
  }

  /** Which word of the table comes from which count. */
  lemma SeedWordMeans(seed: Word, k: nat)
    requires k < 256
    ensures Seeded(seed).buf[k] == SplitMix((seed + (k + 1) * 0x9e37_79b9_7f4a_7c15) % 0x1_0000_0000_0000_0000)
    ensures Seeded(seed).a == Seeded(seed).b == Seeded(seed).c == 0
  {
    hide SplitMix, Counter;
    CounterIs(seed, k + 1);
  }

  lemma SplitMixInjective(s: Word, t: Word)
    ensures SplitMix(s) == SplitMix(t) <==> s == t
  {
    hide Mul, XorShift;
    if SplitMix(s) == SplitMix(t) {
      Inverses();
      var s0, t0 := XorShift(Right, s, 30), XorShift(Right, t, 30);
      var s1, t1 := Mul(s0, MULTIPLIER1), Mul(t0, MULTIPLIER1);
      var s2, t2 := XorShift(Right, s1, 27), XorShift(Right, t1, 27);
      XorShiftInjective(Right, Mul(s2, MULTIPLIER2), Mul(t2, MULTIPLIER2), 31);
      MulInjective(s2, t2, MULTIPLIER2, 0x319642b2d24d8ec3);
      XorShiftInjective(Right, s1, t1, 27);
      MulInjective(s0, t0, MULTIPLIER1, 0x96de1b173f119089);
      XorShiftInjective(Right, s, t, 30);
    }
  }

  lemma {:induction false} CounterIs(seed: Word, n: nat)
    ensures Counter(seed, n) == (seed + n * GAMMA) % MODULUS
  {
    if n > 0 {
      CounterIs(seed, n - 1);
      AddModulo(seed + (n - 1) * GAMMA);
    }
  }

  lemma AddModulo(x: nat)
    ensures (x % MODULUS + GAMMA) % MODULUS == (x + GAMMA) % MODULUS
  {
    ModuloAdds(x, GAMMA, MODULUS);
  }

  /** The counter does not repeat within a table: GAMMA is odd. */
  lemma CounterInjective(seed: Word, m: nat, n: nat)
    requires m <= n < MODULUS && Counter(seed, m) == Counter(seed, n)
    ensures m == n
  {
    CounterIs(seed, m);
    CounterIs(seed, n);
    EqualModulo(seed + m * GAMMA, seed + n * GAMMA);
    NoShortCycle(n - m);
  }

  lemma EqualModulo(x: nat, y: nat)
    requires x % MODULUS == y % MODULUS
    ensures (y - x) % MODULUS == 0
  {}

  lemma NoShortCycle(d: Word)
    requires d * GAMMA % MODULUS == 0
    ensures d == 0
  {
    assert Mul(d, GAMMA) == 0 == Mul(0, GAMMA);
    hide Mul;
    Inverses();
    MulInjective(d, 0, GAMMA, 0xf1de83e19937733d);
  }

  /** The 256 words `Seed` writes are pairwise distinct. */
  lemma SeedWordsAreDistinct(seed: Word, i: nat, j: nat)
    requires i < j < 256
    ensures Seeded(seed).buf[i] != Seeded(seed).buf[j]
  {
    hide SplitMix, Counter, SeedWords;
    if Seeded(seed).buf[i] == Seeded(seed).buf[j] {
      SplitMixInjective(Counter(seed, i + 1), Counter(seed, j + 1));
      CounterInjective(seed, i + 1, j + 1);
    }
  }

  /** Distinct seeds give distinct generators, after the shuffle that ends
      seeding and so, by `ShuffleInjective`, after any number of blocks. */
  lemma {:induction false} SeedsNeverMerge(seed: Word, seed': Word, n: nat)
    ensures Iterate(Seeded(seed), n) == Iterate(Seeded(seed'), n) <==> seed == seed'
  {
    hide Shuffle, SplitMix, SeedWords;
    if n > 0 {
      ShuffleInjective(Iterate(Seeded(seed), n - 1), Iterate(Seeded(seed'), n - 1));
      SeedsNeverMerge(seed, seed', n - 1);
    } else if Seeded(seed) == Seeded(seed') {
      assert Seeded(seed).buf[0] == Seeded(seed').buf[0];
      SplitMixInjective(Counter(seed, 1), Counter(seed', 1));
      assert Counter(seed, 1) == Add(Counter(seed, 0), GAMMA);
      assert Counter(seed', 1) == Add(Counter(seed', 0), GAMMA);
      SubAdd(seed, GAMMA);
      SubAdd(seed', GAMMA);
    }
  }

  /** The words of a byte string, eight bytes each. */
  function WordsOf(src: seq<Byte>): (ws: seq<Word>)
    requires |src| % 8 == 0
    ensures |ws| == |src| / 8
  {
    if src == [] then [] else [ReadUint64(src[..8])] + WordsOf(src[8..])
  }

  lemma {:induction false} WordsOfAppend(src: seq<Byte>, last: seq<Byte>)
    requires |src| % 8 == 0 && |last| == 8
    ensures WordsOf(src + last) == WordsOf(src) + [ReadUint64(last)]
  {
    hide ReadUint64;
    if src == [] {
      assert src + last == last && last[8..] == [] && last[..8] == last;
    } else {
      WordsOfAppend(src[8..], last);
      assert (src + last)[..8] == src[..8] && (src + last)[8..] == src[8..] + last;
    }
  }

  /** Which bytes make which word. */
  lemma {:induction false} WordsOfAt(src: seq<Byte>, k: nat)
    requires |src| % 8 == 0 && 8 * k + 8 <= |src|
    ensures WordsOf(src)[k] == ReadUint64(src[8 * k..8 * k + 8])
  {
    hide ReadUint64;
    if k > 0 {
      assert WordsOf(src)[k] == WordsOf(src[8..])[k - 1];
      hide WordsOf;
      WordsOfAt(src[8..], k - 1);
      EightLater(src, 8 * (k - 1));
    }
  }

  lemma EightLater(src: seq<Byte>, m: nat)
    requires m + 16 <= |src|
    ensures src[8..][m..m + 8] == src[m + 8..m + 16]
  {}

  lemma {:induction false} WordsOfInjective(src: seq<Byte>, src': seq<Byte>)
    requires |src| == |src'| && |src| % 8 == 0 && WordsOf(src) == WordsOf(src')
    ensures src == src'
  {
    hide ReadUint64, PutUint64;
    if src != [] {
      assert WordsOf(src)[0] == WordsOf(src')[0];
      LittleEndianRoundTrips(0, src[..8]);
      LittleEndianRoundTrips(0, src'[..8]);
      assert WordsOf(src)[1..] == WordsOf(src[8..]);
      assert WordsOf(src')[1..] == WordsOf(src'[8..]);
      WordsOfInjective(src[8..], src'[8..]);
      assert src == src[..8] + src[8..] && src' == src'[..8] + src'[8..];
    }
  }

  function SeededFrom(src: seq<Byte>): (s: Core)
    requires |src| == 2048
    ensures s.Valid()
  {
    Core(WordsOf(src), 0, 0, 0)
  }

  /** Which bytes make which word of the table. */
  lemma ByteSeedMeans(src: seq<Byte>, k: nat)
    requires |src| == 2048 && k < 256
    ensures SeededFrom(src).buf[k] == ReadUint64(src[8 * k..8 * k + 8])
    ensures SeededFrom(src).a == SeededFrom(src).b == SeededFrom(src).c == 0
  {
    hide ReadUint64, WordsOf;
    WordsOfAt(src, k);
  }

  lemma ByteSeedsNeverMerge(src: seq<Byte>, src': seq<Byte>)
    requires |src| == |src'| == 2048
    ensures Shuffle(SeededFrom(src)) == Shuffle(SeededFrom(src')) <==> src == src'
  {
    hide Shuffle, WordsOf;
    ShuffleInjective(SeededFrom(src), SeededFrom(src'));
    if WordsOf(src) == WordsOf(src') {
      WordsOfInjective(src, src');
    }
  }

  lemma NothingYet(s: Core)
    requires s.Valid()
    ensures Steps(s, 0) == s && Emitted(s, 0) == []
  {}

  // ---------- The generator ----------

  lemma ScrambleIs(a: Word)
    ensures Scramble(0, a) == Xor(Not(a), Shift(Left, a, 21))
    ensures Scramble(1, a) == XorShift(Right, a, 5)
    ensures Scramble(2, a) == XorShift(Left, a, 12)
    ensures Scramble(3, a) == XorShift(Right, a, 33)
  {}

  /** `Rand`. The ghost fields say where in which stream the generator is. */
  class Rand {
    const out: array<Word>
    const buf: array<Word>
    var a: Word
    var b: Word
    var c: Word
    var i: nat

    ghost var start: Core    // the state before the first shuffle
    ghost var blocks: nat    // how many shuffles since

    ghost function Current(): Core
      reads this, buf
    {
      Core(buf[..], a, b, c)
    }

    ghost predicate Valid()
      reads this, buf, out
    {
      && out.Length == buf.Length == 256 && out != buf
      && i <= 256
      && start.Valid() && Current() == Iterate(start, blocks)
      && (blocks == 0 ==> i == 256)
      && (blocks > 0 ==> out[..] == Block(Iterate(start, blocks - 1)))
    }

    /** How many words have been drawn from the stream of `start`. */
    ghost function Drawn(): nat
      requires Valid()
      reads this, buf, out
    {
      256 * blocks + i - 256
    }

    /** An unseeded generator is one whose first block is still to come. */
    constructor ()
      ensures Valid() && fresh(buf) && fresh(out)
      ensures start == Core(seq(256, _ => 0), 0, 0, 0) && Drawn() == 0
    {
      out, buf := new Word[256](_ => 0), new Word[256](_ => 0);
      a, b, c, i := 0, 0, 0, 256;
      start, blocks := Core(seq(256, _ => 0), 0, 0, 0), 0;
    }

    method Seed(seed: Word)
      requires Valid()
      modifies this, buf, out
      ensures Valid() && start == Seeded(seed) && Drawn() == 0
    {
      hide Shuffle, Block, SeedWords, Add, Mul, XorShift;
      var s := seed;
      for k := 0 to 256
        invariant s == Counter(seed, k)
        invariant forall j :: 0 <= j < k ==> buf[j] == SplitMix(Counter(seed, j + 1))
      {
        s := Add(s, GAMMA);
        var z := Mul(XorShift(Right, s, 30), MULTIPLIER1);
        z := Mul(XorShift(Right, z, 27), MULTIPLIER2);
        buf[k] := XorShift(Right, z, 31);
      }
      a, b, c := 0, 0, 0;
      start, blocks := Seeded(seed), 0;
      ShuffleBlock();
    }

    /** `SeedFrom`: fewer than 2,048 bytes are an error that changes nothing. */
    method SeedFrom(src: seq<Byte>) returns (ok: bool)
      requires Valid()
      modifies this, buf, out
      ensures Valid() && ok == (|src| >= 2048)
      ensures ok ==> start == SeededFrom(src[..2048]) && Drawn() == 0
      ensures !ok ==> Current() == old(Current()) && out[..] == old(out[..]) && i == old(i)
    {
      hide Shuffle, Block;
      if |src| < 2048 {
        return false;
      }
      for k := 0 to 256
        invariant buf[..k] == WordsOf(src[..8 * k])
      {
        assert src[..8 * (k + 1)] == src[..8 * k] + src[8 * k..8 * k + 8];
        WordsOfAppend(src[..8 * k], src[8 * k..8 * k + 8]);
        buf[k] := ReadUint64(src[8 * k..8 * k + 8]);
      }
      a, b, c := 0, 0, 0;
      start, blocks := SeededFrom(src[..2048]), 0;
      ShuffleBlock();
      return true;
    }

    /** The lines common to the four quarters of the loop body; `scrambled` is
        what each makes of the accumulator first. */
    method Round(k: nat, scrambled: Word, ghost begun: Core)
      requires out.Length == buf.Length == 256 && out != buf && k < 256 && begun.Valid()
      requires scrambled == Scramble(k % 4, a)
      requires Current() == Steps(begun, k) && out[..k] == Emitted(begun, k)
      modifies this`a, this`b, buf, out
      ensures Current() == Steps(begun, k + 1) && out[..k + 1] == Emitted(begun, k + 1)
    {
      hide Scramble, Add, LowByte, Shift;
      var x := buf[k];
      a := scrambled;
      a := Add(a, buf[(k + 128) % 256]);
      buf[k] := Add(Add(buf[LowByte(Shift(Right, x, 3))], a), b);
      b := Add(buf[LowByte(Shift(Right, buf[k], 11))], x);
      out[k] := b;
      assert buf[..] == old(buf[..])[k := buf[k]];
      assert Current() == Step(old(Current()), k);
      assert out[..k] == old(out[..k]);
    }

    /** The body of the loop of `shuffle`. */
    method FourWords(k: nat, ghost begun: Core)
      requires out.Length == buf.Length == 256 && out != buf && begun.Valid()
      requires k + 4 <= 256 && k % 4 == 0
      requires Current() == Steps(begun, k) && out[..k] == Emitted(begun, k)
      modifies this`a, this`b, buf, out
      ensures Current() == Steps(begun, k + 4) && out[..k + 4] == Emitted(begun, k + 4)
    {
      hide Steps, Emitted, Scramble, Shift, Xor, Not, XorShift;
      ScrambleIs(a);
      Round(k, Xor(Not(a), Shift(Left, a, 21)), begun);
      ScrambleIs(a);
      Round(k + 1, XorShift(Right, a, 5), begun);
      ScrambleIs(a);
      Round(k + 2, XorShift(Left, a, 12), begun);
      ScrambleIs(a);
      Round(k + 3, XorShift(Right, a, 33), begun);
    }

    /** `shuffle`: refills `out` from the next block, in place. */
    method ShuffleBlock()
      requires out.Length == buf.Length == 256 && out != buf
      requires start.Valid() && Current() == Iterate(start, blocks)
      modifies this, buf, out
      ensures Valid() && i == 0 && start == old(start) && blocks == old(blocks) + 1
    {
      hide Steps, Emitted;
      ghost var begun := Begin(Current());
      NothingYet(begun);
      c := Add(c, 1);
      b := Add(b, c);
      var k := 0;
      while k < 256
        invariant k <= 256 && k % 4 == 0
        invariant Current() == Steps(begun, k)
        invariant out[..k] == Emitted(begun, k)
        invariant start == old(start) && blocks == old(blocks)
      {
        FourWords(k, begun);
        k := k + 4;
      }
      i := 0;
      blocks := blocks + 1;
    }

    /** `Uint64` hands out the stream of `start` one word after another, and
        refills exactly when the block is used up. */
    method Uint64() returns (next: Word)
      requires Valid()
      modifies this, buf, out
      ensures Valid() && start == old(start) && Drawn() == old(Drawn()) + 1
      ensures next == StreamWord(start, old(Drawn()))
    {
      hide Block, Shuffle;
      if i == 256 {
        ShuffleBlock();
      }
      next := out[i];
      i := i + 1;
    }

    /** `Int63` keeps the high 63 bits. */
    method Int63() returns (next: nat)
      requires Valid()
      modifies this, buf, out
      ensures Valid() && start == old(start) && Drawn() == old(Drawn()) + 1
      ensures next == StreamWord(start, old(Drawn())) / 2 < MODULUS / 2
    {
      var w := Uint64();
      next := w / 2;
    }
  }
}
