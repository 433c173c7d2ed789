/** The generator of short ids and what it promises over whole runs
    (internal/shortid/shortid.go). */
module ShortIdRuns {
  import opened Results
  import opened Word64
  import opened Bytes
  import opened ShortId

  /** The random bytes behind one id: eight for the time, one for the worker. */
  datatype Noise = Noise(time: nat -> Byte, worker: nat -> Byte)

  /** `uint(d.Nanoseconds() / 1000000)`: truncated towards zero, then wrapped. */
  function Millis(ns: int): Word
  {
    (if ns >= 0 then ns / 1000000 else -((-ns) / 1000000)) % MODULUS
  }

  /** Whole milliseconds since the epoch, in order, as long as a word holds them. */
  lemma MillisMeans(ns: int, ns': int)
    requires 0 <= ns <= ns' < MODULUS * 1_000_000
    ensures Millis(ns) * 1_000_000 <= ns < (Millis(ns) + 1) * 1_000_000
    ensures Millis(ns) <= Millis(ns')
  {}

  /** The last millisecond used, and how many ids it has had since the first. */
  datatype Clock = Clock(ms: Word, count: Word)

  function Tick(s: Clock, now: Word): Clock
  {
    if now == s.ms then Clock(s.ms, Add(s.count, 1)) else Clock(now, 0)
  }

  /** The id for a clock reading, unless the reading or the worker is too large. */
  function Id(abc: seq<char>, worker: Word, at: Clock, noise: Noise): (id: Result<seq<char>, ()>)
    requires IsAlphabet(abc)
    ensures id.Ok? <==> at.ms < Pow2(40) && worker < Pow2(5)
  {
    if at.ms < Pow2(40) && worker < Pow2(5) then
      Ok(Encoded(abc, at.ms, 8, 5, noise.time) + Encoded(abc, worker, 1, 5, noise.worker)
         + if at.count > 0 then Encoded(abc, at.count, Size(at.count, 6), 6, noise.time) else [])
    else Err(())
  }

  /** Reads an id back. */
  function IdClock(abc: seq<char>, id: seq<char>): (nat, nat, nat)
    requires |id| >= 9
  {
    (Decoded(abc, id[..8], 5), Decoded(abc, id[8..9], 5), Decoded(abc, id[9..], 6))
  }

  /** Eight symbols for the millisecond, one for the worker, and more only for a
      counter above 0. */
  lemma IdLayout(abc: seq<char>, worker: Word, at: Clock, noise: Noise)
    requires IsAlphabet(abc) && at.ms < Pow2(40) && worker < Pow2(5)
    ensures
      var id := Id(abc, worker, at, noise).value;
      && |id| == 9 + (if at.count == 0 then 0 else Size(at.count, 6))
      && id[..8] == Encoded(abc, at.ms, 8, 5, noise.time) && id[8..9] == Encoded(abc, worker, 1, 5, noise.worker)
      && (at.count > 0 ==> id[9..] == Encoded(abc, at.count, Size(at.count, 6), 6, noise.time))
  {
    hide Encoded, Pow2, Size;
    SizeIsPositive(at.count, 6);
  }

  class Shortid {
    const abc: Abc
    const worker: Word
    var ms: Word
    var count: Word

    ghost predicate Valid()
      reads this, abc
    {
      IsAlphabet(abc.alphabet) && worker < 32
    }

    ghost function State(): Clock
      reads this
    {
      Clock(ms, count)
    }

    constructor (abc: Abc, worker: Word)
      requires IsAlphabet(abc.alphabet) && worker < 32
      ensures Valid() && this.abc == abc && this.worker == worker && State() == Clock(0, 0)
    {
      this.abc, this.worker, ms, count := abc, worker, 0, 0;
    }

    method GetMsAndCounter(ns: int) returns (at: Clock)
      modifies this
      ensures at == State() == Tick(old(State()), Millis(ns))
    {
      var now := Millis(ns);
      if now == ms {
        count := Add(count, 1);
      } else {
        count := 0;
        ms := now;
      }
      at := Clock(ms, count);
    }

    /** `GenerateInternal`: the clock moves even when the reading is too large
        to encode. */
    method GenerateInternal(ns: int, noise: Noise) returns (id: Result<seq<char>, ()>)
      requires Valid()
      modifies this
      ensures Valid() && State() == Tick(old(State()), Millis(ns))
      ensures id == Id(abc.alphabet, worker, State(), noise)
    {
      hide Encoded, Tick, Millis, Size;
      assert 5 * 8 == 40 && 5 * 1 == 5;
      PowersOfTwo();
      var at := GetMsAndCounter(ns);
      var time := abc.Encode(at.ms, 8, 5, noise.time);
      if time.Err? {
        return Err(());
      }
      var who := abc.Encode(worker, 1, 5, noise.worker);
      if who.Err? {
        return Err(());
      }
      var symbols := time.value + [who.value[0]];
      assert who.value == [who.value[0]];
      if at.count > 0 {
        var extra := abc.Encode(at.count, 0, 6, noise.time);
        symbols := symbols + extra.value;
      } else {
        assert symbols == symbols + [];
      }
      return Ok(symbols);
    }
  }

  /** `New`: workers above 31 and unusable alphabets are refused. */
  method New(worker: nat, symbols: seq<char>, seed: Word) returns (r: Result<Shortid, ()>)
    requires worker < 256
    ensures r.Ok? <==> worker <= 31 && IsAlphabet(symbols)
    ensures r.Ok? ==> r.value.Valid() && r.value.State() == Clock(0, 0) && r.value.worker == worker
    ensures r.Ok? ==> r.value.abc.alphabet == Shuffled(symbols, seed)
  {
    if worker > 31 {
      return Err(());
    }
    var abc := NewAbc(symbols, seed);
    if abc.Err? {
      return Err(());
    }
    var sid := new Shortid(abc.value, worker);
    return Ok(sid);
  }

  // ---------- One id determines its clock reading ----------

  /** Whatever the noise, an id gives back the millisecond, the worker and the
      counter it was made from. */
  lemma IdDetermines(abc: seq<char>, worker: Word, at: Clock, noise: Noise)
    requires IsAlphabet(abc) && at.ms < Pow2(40) && worker < Pow2(5)
    ensures
      var id := Id(abc, worker, at, noise).value;
      |id| >= 9 && IdClock(abc, id) == (at.ms, worker, at.count)
  {
    hide Encoded, Decoded, Pow2, Size;
    assert 5 * 8 == 40 && 5 * 1 == 5;
    var id := Id(abc, worker, at, noise).value;
    assert id[..8] == Encoded(abc, at.ms, 8, 5, noise.time);
    assert id[8..9] == Encoded(abc, worker, 1, 5, noise.worker);
    DecodeEncoded(abc, at.ms, 8, 5, noise.time);
    DecodeEncoded(abc, worker, 1, 5, noise.worker);
    SmallModulo(at.ms, Pow2(40));
    SmallModulo(worker, Pow2(5));
    if at.count > 0 {
      var n := Size(at.count, 6);
      assert id[9..] == Encoded(abc, at.count, n, 6, noise.time);
      DecodeEncoded(abc, at.count, n, 6, noise.time);
      SizeIsLeast(at.count, 6, n);
      SmallModulo(at.count, Pow2(6 * n));
    } else {
      assert id[9..] == [];
      DecodedNothing(abc);
    }
  }

  lemma SmallModulo(x: nat, m: nat)
    requires x < m
    ensures x % m == x
  {}

  lemma DecodedNothing(abc: seq<char>)
    ensures Decoded(abc, [], 6) == 0
  {}

  /** Two ids over one alphabet can be equal, for some noise, just when worker,
      millisecond and counter all agree. In particular generators with
      different workers never meet. */
  lemma IdsCanMeet(abc: seq<char>, worker: Word, at: Clock, worker': Word, at': Clock)
    requires IsAlphabet(abc) && worker < Pow2(5) && worker' < Pow2(5)
    requires at.ms < Pow2(40) && at'.ms < Pow2(40)
    ensures (exists noise, noise' :: Id(abc, worker, at, noise) == Id(abc, worker', at', noise'))
       <==> worker == worker' && at == at'
  {
    forall noise, noise' | Id(abc, worker, at, noise) == Id(abc, worker', at', noise')
      ensures worker == worker' && at == at'
    {
      IdDetermines(abc, worker, at, noise);
      IdDetermines(abc, worker', at', noise');
    }
    var quiet := Noise(_ => 0, _ => 0);
    assert worker == worker' && at == at' ==> Id(abc, worker, at, quiet) == Id(abc, worker', at', quiet);
  }

  // ---------- Runs ----------

  /** The clock readings of a run: what the generator's state is at each call. */
  function Readings(s: Clock, times: seq<Word>): (at: seq<Clock>)
    ensures |at| == |times|
    decreases |times|
  {
    if times == [] then []
    else
      var t := Tick(s, times[0]);
      [t] + Readings(t, times[1..])
  }

  predicate Ascending(times: seq<Word>)
  {
    forall i, j :: 0 <= i < j < |times| ==> times[i] <= times[j]
  }

  /** The clock never comes back to a millisecond it has left. */
  predicate NeverReturns(times: seq<Word>)
  {
    forall i, j, k :: 0 <= i < j < k < |times| && times[i] == times[k] ==> times[j] == times[i]
  }

  lemma AscendingNeverReturns(times: seq<Word>)
    requires Ascending(times)
    ensures NeverReturns(times)
  {}

  lemma {:induction false} ReadingsStep(s: Clock, times: seq<Word>, i: nat)
    requires i < |times|
    ensures Readings(s, times)[i] == Tick(if i == 0 then s else Readings(s, times)[i - 1], times[i])
    ensures Readings(s, times)[i].ms == times[i]
    decreases i
  {
    if i > 0 {
      ReadingsStep(Tick(s, times[0]), times[1..], i - 1);
    }
  }

  /** Within one stay at a millisecond the counter counts up. */
  lemma {:induction false} CountsUp(s: Clock, times: seq<Word>, i: nat, j: nat)
    requires i < j < |times| && s.count + |times| < MODULUS
    requires forall k :: i <= k <= j ==> times[k] == times[i]
    ensures Readings(s, times)[j].count == Readings(s, times)[i].count + (j - i)
    ensures Readings(s, times)[j].count <= s.count + j + 1
    decreases j
  {
    hide Readings;
    CountIsBounded(s, times, j - 1);
    ReadingsStep(s, times, j);
    ReadingsStep(s, times, j - 1);
    if i < j - 1 {
      CountsUp(s, times, i, j - 1);
    }
  }

  lemma {:induction false} CountIsBounded(s: Clock, times: seq<Word>, j: nat)
    requires j < |times| && s.count + |times| < MODULUS
    ensures Readings(s, times)[j].count <= s.count + j + 1
    decreases j
  {
    hide Readings;
    ReadingsStep(s, times, j);
    if j > 0 {
      CountIsBounded(s, times, j - 1);
    }
  }

  lemma NoReturnNoRepeat(s: Clock, times: seq<Word>, i: nat, j: nat)
    requires i < j < |times| && s.count + |times| < MODULUS && NeverReturns(times)
    ensures Readings(s, times)[i] != Readings(s, times)[j]
  {
    hide Readings;
    ReadingsStep(s, times, i);
    ReadingsStep(s, times, j);
    if times[i] == times[j] {
      CountsUp(s, times, i, j);
    }
  }

  /** Where the stay that includes call `i` began. */
  function StayBegan(times: seq<Word>, i: nat): (b: nat)
    requires i < |times|
    ensures b <= i && (forall k :: b <= k <= i ==> times[k] == times[i])
    ensures b > 0 ==> times[b - 1] != times[b]
    decreases i
  {
    if i == 0 || times[i - 1] != times[i] then i else StayBegan(times, i - 1)
  }

  /** A return starts the counter again, as the first stay did. */
  lemma ReturnRepeats(times: seq<Word>, i: nat, j: nat, k: nat)
    requires i < j < k < |times| && times[i] == times[k] != times[j] && times[i] > 0
    ensures exists p, q :: 0 <= p < q < |times| && Readings(Clock(0, 0), times)[p] == Readings(Clock(0, 0), times)[q]
  {
    var p, q := StayBegan(times, i), StayBegan(times, k);
    assert q > j;
    ReadingsStep(Clock(0, 0), times, p);
    ReadingsStep(Clock(0, 0), times, q);
    if p > 0 {
      ReadingsStep(Clock(0, 0), times, p - 1);
    }
    ReadingsStep(Clock(0, 0), times, q - 1);
  }

  /** The ids a fresh generator returns over `times`, given the noise of each call. */
  function Ids(abc: seq<char>, worker: Word, times: seq<Word>, noise: nat -> Noise, i: nat): Result<seq<char>, ()>
    requires IsAlphabet(abc) && i < |times|
  {
    Id(abc, worker, Readings(Clock(0, 0), times)[i], noise(i))
  }

  ghost predicate NeverCollides(abc: seq<char>, worker: Word, times: seq<Word>)
    requires IsAlphabet(abc)
  {
    forall noise: nat -> Noise, i, j :: 0 <= i < j < |times|
      ==> Ids(abc, worker, times, noise, i) != Ids(abc, worker, times, noise, j)
  }

  ghost predicate Encodable(times: seq<Word>)
  {
    forall i :: 0 <= i < |times| ==> times[i] < Pow2(40)
  }

  /** No collisions: while the clock does not run backwards, and stays below
      2^40 milliseconds, every id succeeds and all are different, whatever the
      random bits. */
  lemma MonotoneClockNeverCollides(abc: seq<char>, worker: Word, times: seq<Word>)
    requires IsAlphabet(abc) && worker < Pow2(5)
    requires Ascending(times) && Encodable(times) && |times| < MODULUS
    ensures NeverCollides(abc, worker, times)
    ensures forall noise: nat -> Noise, i :: 0 <= i < |times| ==> Ids(abc, worker, times, noise, i).Ok?
  {
    AscendingNeverReturns(times);
    NoReturnNeverCollides(abc, worker, times);
    forall noise: nat -> Noise, i | 0 <= i < |times|
      ensures Ids(abc, worker, times, noise, i).Ok?
    {
      ReadingsStep(Clock(0, 0), times, i);
    }
  }

  /** The same of instants since the epoch, for the first 2^40 milliseconds. */
  lemma AscendingInstantsNeverCollide(abc: seq<char>, worker: Word, instants: seq<int>)
    requires IsAlphabet(abc) && worker < Pow2(5) && |instants| < MODULUS
    requires forall i :: 0 <= i < |instants| ==> 0 <= instants[i] < 0x100_0000_0000 * 1_000_000
    requires forall i, j :: 0 <= i < j < |instants| ==> instants[i] <= instants[j]
    ensures NeverCollides(abc, worker, MillisOf(instants))
    ensures forall noise: nat -> Noise, i :: 0 <= i < |instants| ==>
      Ids(abc, worker, MillisOf(instants), noise, i).Ok?
  {
    hide Pow2, IsAlphabet, Ids, Millis;
    var times := MillisOf(instants);
    FortyBits();
    forall i, j | 0 <= i <= j < |instants|
      ensures times[i] <= times[j] < Pow2(40)
    {
      MillisMeans(instants[i], instants[j]);
      MillisMeans(instants[j], instants[j]);
      Below(times[j], instants[j], 0x100_0000_0000);
    }
    MonotoneClockNeverCollides(abc, worker, times);
  }

  function MillisOf(instants: seq<int>): (times: seq<Word>)
    ensures |times| == |instants| && forall i :: 0 <= i < |times| ==> times[i] == Millis(instants[i])
  {
    seq(|instants|, i requires 0 <= i < |instants| => Millis(instants[i]))
  }

  lemma Below(ms: nat, ns: int, bound: nat)
    requires ms * 1_000_000 <= ns < bound * 1_000_000
    ensures ms < bound
  {}

  lemma FortyBits()
    ensures Pow2(40) == 0x100_0000_0000
  {
    PowersOfTwo();
    hide Pow2;
    Pow2Adds(5, 5);
    Pow2Adds(10, 10);
    Pow2Adds(20, 20);
  }

  lemma NoReturnNeverCollides(abc: seq<char>, worker: Word, times: seq<Word>)
    requires IsAlphabet(abc) && worker < Pow2(5)
    requires NeverReturns(times) && Encodable(times) && |times| < MODULUS
    ensures NeverCollides(abc, worker, times)
  {
    hide Pow2, Tick, IsAlphabet, Readings, NeverReturns;
    var at := Readings(Clock(0, 0), times);
    forall noise: nat -> Noise, i, j | 0 <= i < j < |times|
      ensures Ids(abc, worker, times, noise, i) != Ids(abc, worker, times, noise, j)
    {
      ReadingsStep(Clock(0, 0), times, i);
      ReadingsStep(Clock(0, 0), times, j);
      NoReturnNoRepeat(Clock(0, 0), times, i, j);
      IdDetermines(abc, worker, at[i], noise(i));
      IdDetermines(abc, worker, at[j], noise(j));
    }
  }

  /** Call `k` finds the clock back at the millisecond of call `i`. */
  predicate Returns(times: seq<Word>, i: nat, j: nat, k: nat)
  {
    i < j < k < |times| && times[i] == times[k] && times[j] != times[i]
  }

  /** The one return that does no harm: a single call at the epoch's own
      millisecond, where the run began and its counter started at 1. */
  predicate Harmless(times: seq<Word>, i: nat, k: nat)
    requires i < k < |times|
  {
    (forall l :: 0 <= l <= i ==> times[l] == 0) && !(k + 1 < |times| && times[k + 1] == 0)
  }

  ghost predicate NeverRestarts(times: seq<Word>)
  {
    forall i: nat, j: nat, k: nat :: Returns(times, i, j, k) ==> Harmless(times, i, k)
  }

  /** The reading of each call: how many came before it in its stay, and one more
      in a stay at millisecond 0 that begins the run. */
  function InStay(times: seq<Word>, i: nat): Clock
    requires i < |times| < MODULUS
  {
    var b := StayBegan(times, i);
    Clock(times[i], if b == 0 && times[i] == 0 then i - b + 1 else i - b)
  }

  lemma ReadingIsInStay(times: seq<Word>, i: nat)
    requires i < |times| < MODULUS
    ensures Readings(Clock(0, 0), times)[i] == InStay(times, i)
  {
    var b := StayBegan(times, i);
    ReadingsStep(Clock(0, 0), times, i);
    ReadingsStep(Clock(0, 0), times, b);
    if b > 0 {
      ReadingsStep(Clock(0, 0), times, b - 1);
    }
    if b < i {
      CountsUp(Clock(0, 0), times, b, i);
    }
  }

  /** Later in the same stay: the same beginning. */
  lemma {:induction false} SameStay(times: seq<Word>, i: nat, j: nat)
    requires i <= j < |times| && forall l :: i <= l <= j ==> times[l] == times[i]
    ensures StayBegan(times, j) == StayBegan(times, i)
    decreases j
  {
    if i < j {
      SameStay(times, i, j - 1);
    }
  }

  /** A harmless return finds the counter at 0, where no earlier call left it. */
  lemma HarmlessCounts(times: seq<Word>, i: nat, j: nat, k: nat)
    requires |times| < MODULUS && Returns(times, i, j, k) && NeverRestarts(times)
    ensures InStay(times, k).count == 0 < InStay(times, i).count
  {
    assert Harmless(times, i, k);
    SameStay(times, 0, i);
    assert Returns(times, i, j, k - 1) ==> Harmless(times, i, k - 1);
  }

  lemma NeverRestartsNoRepeat(times: seq<Word>, i: nat, k: nat)
    requires i < k < |times| < MODULUS && NeverRestarts(times)
    ensures InStay(times, i) != InStay(times, k)
  {
    if times[i] == times[k] {
      if j: nat :| i < j < k && times[j] != times[i] {
        HarmlessCounts(times, i, j, k);
      } else {
        SameStay(times, i, k);
      }
    }
  }

  /** A stay begins at 0, but at 1 where a run begins with millisecond 0. */
  lemma BeginningOfStay(times: seq<Word>, i: nat)
    requires i < |times| < MODULUS
    ensures
      var b := StayBegan(times, i);
      InStay(times, b) == Clock(times[i], if b == 0 && times[i] == 0 then 1 else 0)
  {
    SameStay(times, StayBegan(times, i), i);
  }

  lemma RestartRepeats(times: seq<Word>, i: nat, j: nat, k: nat) returns (p: nat, q: nat)
    requires |times| < MODULUS && Returns(times, i, j, k) && !Harmless(times, i, k)
    ensures p < q < |times| && InStay(times, p) == InStay(times, q)
  {
    hide InStay;
    p, q := StayBegan(times, i), StayBegan(times, k);
    assert p <= i < j < q;
    BeginningOfStay(times, i);
    BeginningOfStay(times, k);
    if p == 0 && times[i] == 0 {
      assert forall l :: 0 <= l <= i ==> times[l] == 0;
      SecondInStay(times, q, k);
      q := q + 1;
    }
  }

  /** A return to the epoch that lasts for a second call. */
  lemma SecondInStay(times: seq<Word>, q: nat, k: nat)
    requires 0 < q <= k && k + 1 < |times| < MODULUS && times[k + 1] == times[k] && q == StayBegan(times, k)
    ensures InStay(times, q + 1) == Clock(times[k], 1)
  {
    SameStay(times, q, k);
    SameStay(times, q, q + 1);
  }

  /** Exactly when: a run is free of collisions, whatever the random bits, if and
      only if its clock never returns to a millisecond it has left, but for the
      single call at the epoch that `NeverRestarts` allows. */
  lemma CollisionFreeIff(abc: seq<char>, worker: Word, times: seq<Word>)
    requires IsAlphabet(abc) && worker < Pow2(5)
    requires Encodable(times) && |times| < MODULUS
    ensures NeverCollides(abc, worker, times) <==> NeverRestarts(times)
    ensures (forall i :: 0 <= i < |times| ==> times[i] > 0) ==> (NeverRestarts(times) <==> NeverReturns(times))
  {
    hide Pow2, IsAlphabet, Ids, NeverRestarts, NeverReturns, Encodable;
    if NeverRestarts(times) {
      forall noise: nat -> Noise, i, j | 0 <= i < j < |times|
        ensures Ids(abc, worker, times, noise, i) != Ids(abc, worker, times, noise, j)
      {
        NeverRestartsNoRepeat(times, i, j);
        SameIdsIff(abc, worker, times, noise, i, times, noise, j);
      }
    } else {
      var p, q := SomeRestart(times);
      var quiet: nat -> Noise := _ => Noise(_ => 0, _ => 0);
      SameIdsIff(abc, worker, times, quiet, p, times, quiet, q);
    }
    if forall i :: 0 <= i < |times| ==> times[i] > 0 {
      AfterTheEpoch(times);
    }
  }

  lemma SomeRestart(times: seq<Word>) returns (p: nat, q: nat)
    requires |times| < MODULUS && !NeverRestarts(times)
    ensures p < q < |times| && InStay(times, p) == InStay(times, q)
  {
    var i: nat, j: nat, k: nat :| Returns(times, i, j, k) && !Harmless(times, i, k);
    p, q := RestartRepeats(times, i, j, k);
  }

  lemma AfterTheEpoch(times: seq<Word>)
    requires forall i :: 0 <= i < |times| ==> times[i] > 0
    ensures NeverRestarts(times) <==> NeverReturns(times)
  {
    if NeverRestarts(times) {
      forall i, j, k | 0 <= i < j < k < |times| && times[i] == times[k]
        ensures times[j] == times[i]
      {
        assert Returns(times, i, j, k) ==> Harmless(times, i, k);
      }
    }
  }

  /** In one run or in two: different readings give different ids, and equal ones
      equal ids for some random bits. */
  lemma SameIdsIff(abc: seq<char>, worker: Word, times: seq<Word>, noise: nat -> Noise, i: nat,
                   times': seq<Word>, noise': nat -> Noise, j: nat)
    requires IsAlphabet(abc) && worker < Pow2(5) && Encodable(times) && Encodable(times')
    requires i < |times| < MODULUS && j < |times'| < MODULUS
    ensures InStay(times, i) != InStay(times', j) ==>
      Ids(abc, worker, times, noise, i) != Ids(abc, worker, times', noise', j)
    ensures InStay(times, i) == InStay(times', j) && noise(i) == noise'(j) ==>
      Ids(abc, worker, times, noise, i) == Ids(abc, worker, times', noise', j)
  {
    hide Pow2, IsAlphabet, Id, Readings, InStay;
    ReadingIsInStay(times, i);
    ReadingIsInStay(times', j);
    MillisecondIs(times, i);
    MillisecondIs(times', j);
    IdDetermines(abc, worker, InStay(times, i), noise(i));
    IdDetermines(abc, worker, InStay(times', j), noise'(j));
  }

  lemma MillisecondIs(times: seq<Word>, i: nat)
    requires i < |times| < MODULUS
    ensures InStay(times, i).ms == times[i]
  {}

  // ---------- Restarts ----------

  /** An id of the one run equals an id of the other, for some random bits. */
  ghost predicate RunsMeet(abc: seq<char>, worker: Word, times: seq<Word>, times': seq<Word>)
    requires IsAlphabet(abc)
  {
    exists noise: nat -> Noise, noise': nat -> Noise, i: nat, j: nat ::
      i < |times| && j < |times'| && Ids(abc, worker, times, noise, i) == Ids(abc, worker, times', noise', j)
  }

  predicate ShareMillisecond(times: seq<Word>, times': seq<Word>)
  {
    exists i, j :: 0 <= i < |times| && 0 <= j < |times'| && times[i] == times'[j]
  }

  /** Two runs of fresh generators of one worker, such as before and after a
      restart, never return the same id if they share no millisecond; after the
      epoch's own, if and only if. */
  lemma RestartsNeverCollideIff(abc: seq<char>, worker: Word, times: seq<Word>, times': seq<Word>)
    requires IsAlphabet(abc) && worker < Pow2(5)
    requires Encodable(times) && Encodable(times') && |times| < MODULUS && |times'| < MODULUS
    ensures !ShareMillisecond(times, times') ==> !RunsMeet(abc, worker, times, times')
    ensures (forall i :: 0 <= i < |times| ==> times[i] > 0) ==>
      (RunsMeet(abc, worker, times, times') <==> ShareMillisecond(times, times'))
  {
    hide Pow2, IsAlphabet, Ids, Encodable, InStay;
    if noise: nat -> Noise, noise': nat -> Noise, i: nat, j: nat :|
      i < |times| && j < |times'| && Ids(abc, worker, times, noise, i) == Ids(abc, worker, times', noise', j)
    {
      SameIdsIff(abc, worker, times, noise, i, times', noise', j);
      MillisecondIs(times, i);
      MillisecondIs(times', j);
    }
    if i, j :| 0 <= i < |times| && 0 <= j < |times'| && times[i] == times'[j] && times[i] > 0 {
      BeginningOfStay(times, i);
      BeginningOfStay(times', j);
      var quiet: nat -> Noise := _ => Noise(_ => 0, _ => 0);
      SameIdsIff(abc, worker, times, quiet, StayBegan(times, i), times', quiet, StayBegan(times', j));
    }
  }

  /** A restart after the last millisecond used, on clocks that do not run
      backwards: no id comes twice. */
  lemma RestartNeverCollides(abc: seq<char>, worker: Word, times: seq<Word>, times': seq<Word>)
    requires IsAlphabet(abc) && worker < Pow2(5)
    requires Encodable(times) && Encodable(times') && |times| < MODULUS && |times'| < MODULUS
    requires Ascending(times) && Ascending(times') && times != [] && times' != []
    requires times[|times| - 1] < times'[0]
    ensures NeverCollides(abc, worker, times) && NeverCollides(abc, worker, times')
    ensures !RunsMeet(abc, worker, times, times')
  {
    hide Pow2, IsAlphabet;
    MonotoneClockNeverCollides(abc, worker, times);
    MonotoneClockNeverCollides(abc, worker, times');
    RestartsNeverCollideIff(abc, worker, times, times');
  }
}
