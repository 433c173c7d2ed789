/** When the service renews its own certificate, and why it never lapses
    (internal/certrenewal/renewal.go). Time is in nanoseconds, the threshold a
    fraction p/q; a pass takes as long as its calls do. */
module RenewalTiming {
  import opened Results
  import opened Storage

  const MIN_SLEEP := MINUTE
  const RETRY_INTERVAL := MINUTE
  const DEFAULT_DURATION := 8760 * 60 * MINUTE

  /** The part of a Renewer that decides when. */
  datatype Policy = Policy(requested: int, p: int, q: int) {
    predicate Valid() { requested > 0 && 0 < p < q }
  }

  /** `New` replaces a useless duration or threshold by its default. */
  function NewPolicy(duration: int, p: int, q: int): (r: Policy)
    requires q > 0
    ensures r.Valid()
  {
    var requested := if duration <= 0 then DEFAULT_DURATION else duration;
    if p <= 0 || p >= q then Policy(requested, 66, 100) else Policy(requested, p, q)
  }

  function RenewAt(crt: Certificate, r: Policy): int
    requires r.Valid()
  {
    var lifetime := crt.notAfter - crt.notBefore;
    if lifetime <= 0 then crt.notAfter else crt.notBefore + lifetime * r.p / r.q
  }

  function SleepFor(d: int): (wait: int)
    ensures wait >= MIN_SLEEP && wait >= d
  {
    if d < MIN_SLEEP then MIN_SLEEP else d
  }

  /** The wait after an issuance whose certificate cannot be read. */
  function BlindWait(r: Policy): (wait: int)
    requires r.Valid()
    ensures wait >= MIN_SLEEP
  {
    SleepFor(r.requested * r.p / r.q)
  }

  /** The renewal point lies within the window, before its end. */
  lemma RenewAtIsInside(crt: Certificate, r: Policy)
    requires r.Valid() && crt.notBefore < crt.notAfter
    ensures crt.notBefore <= RenewAt(crt, r) < crt.notAfter
  {
    FractionBelow(crt.notAfter - crt.notBefore, r.p, r.q);
  }

  /** At the renewal point the threshold of the lifetime has elapsed, and not a
      nanosecond more. */
  lemma RenewAtIsThreshold(crt: Certificate, r: Policy)
    requires r.Valid() && crt.notBefore < crt.notAfter
    ensures
      var elapsed := RenewAt(crt, r) - crt.notBefore;
      elapsed * r.q <= (crt.notAfter - crt.notBefore) * r.p < (elapsed + 1) * r.q
  {
    var x := (crt.notAfter - crt.notBefore) * r.p;
    FloorIs(x, r.q);
  }

  lemma FloorIs(x: int, q: int)
    requires q > 0
    ensures x / q * q <= x < (x / q + 1) * q
  {
    assert x == x / q * q + x % q;
  }

  /** Whether, in the nanosecond that begins at `t`, p/q of the window are over;
      a certificate that is born expired has its end instead. */
  predicate Elapsed(crt: Certificate, r: Policy, t: int)
  {
    if crt.notBefore < crt.notAfter then (t + 1 - crt.notBefore) * r.q > (crt.notAfter - crt.notBefore) * r.p
    else t >= crt.notAfter
  }

  lemma DueIff(crt: Certificate, r: Policy, t: int)
    requires r.Valid()
    ensures RenewAt(crt, r) <= t <==> Elapsed(crt, r, t)
  {
    if crt.notBefore < crt.notAfter {
      RenewAtIsThreshold(crt, r);
      var x, y, l := RenewAt(crt, r) - crt.notBefore, t - crt.notBefore, (crt.notAfter - crt.notBefore) * r.p;
      hide RenewAt;
      MultiplesOrder(x, y, l, r.q);
      assert t + 1 - crt.notBefore == y + 1;
    }
  }

  /** A certificate that is not due is looked at again when it is, or a minute
      later. */
  lemma CurrentWait(crt: Certificate, r: Policy, t: int)
    requires r.Valid() && RenewAt(crt, r) - t > 0
    ensures
      var wait := SleepFor(RenewAt(crt, r) - t);
      && !Elapsed(crt, r, t) && Elapsed(crt, r, t + wait)
      && (wait > 60_000_000_000 ==> !Elapsed(crt, r, t + wait - 1))
  {
    hide RenewAt, Elapsed;
    var wait := SleepFor(RenewAt(crt, r) - t);
    DueIff(crt, r, t);
    DueIff(crt, r, t + wait);
    DueIff(crt, r, t + wait - 1);
  }

  lemma MultiplesOrder(x: int, y: int, l: int, q: int)
    requires q > 0 && x * q <= l < (x + 1) * q
    ensures x <= y <==> (y + 1) * q > l
  {
    if x <= y {
      ProductsOrder(x + 1, y + 1, q);
    } else {
      ProductsOrder(y + 1, x, q);
    }
  }

  lemma ProductsOrder(a: int, b: int, q: int)
    requires q > 0 && a <= b
    ensures a * q <= b * q
  {}

  /** Usable settings are kept; the defaults are a year and 0.66. */
  lemma SettingsAre(duration: int, p: int, q: int)
    requires q > 0
    ensures
      var r := NewPolicy(duration, p, q);
      && r.requested == (if duration > 0 then duration else 8760 * 3600 * 1_000_000_000)
      && (if 0 < p < q then r.p == p && r.q == q else r.p * 100 == r.q * 66)
  {}

  /** Waits: the time left, but at least a minute; a minute after a failure. */
  lemma WaitsAre(d: int, r: Policy)
    requires r.Valid()
    ensures SleepFor(d) == if d > 60_000_000_000 then d else 60_000_000_000
    ensures RETRY_INTERVAL == 60_000_000_000
    ensures BlindWait(r) == 60_000_000_000
      || (BlindWait(r) * r.q <= r.requested * r.p < (BlindWait(r) + 1) * r.q)
  {
    FloorIs(r.requested * r.p, r.q);
  }

  lemma FractionBelow(x: int, p: int, q: int)
    requires x > 0 && 0 < p < q
    ensures 0 <= x * p / q < x
  {
    assert 0 < x * p < x * q;
    QuotientBetween(x * p, x, q);
  }

  lemma QuotientBetween(a: int, x: int, q: int)
    requires q > 0 && 0 <= a < x * q
    ensures 0 <= a / q < x
  {
    SmallerFactor(a / q, x, q);
  }

  lemma SmallerFactor(y: int, x: int, q: int)
    requires q > 0 && y * q < x * q
    ensures y < x
  {}

  // ---------- One pass ----------

  /** What the API server and the signer would answer during a pass; `Misreports`
      is an issuance that stores its certificate and then reports an error. */
  datatype Reply = ReadFails | IssueFails | Misreports(data: CertData) | Grants(data: CertData)

  /** A pass from outside: the answers, how long the read took and how long what
      followed it. */
  datatype Turn = Turn(reply: Reply, read: nat, rest: nat)

  function UsableIn(data: CertData): Option<Certificate>
  {
    if data.Readable? then Some(data.cert) else None
  }

  /** The stored certificate (None if there is no usable one) and the wait that
      a pass leaves behind. Whether the certificate is due is judged after the
      read, the wait after an issuance at its end. */
  function Pass(r: Policy, stored: Option<Certificate>, now: int, turn: Turn): (Option<Certificate>, int)
    requires r.Valid()
  {
    if turn.reply.ReadFails? then (stored, RETRY_INTERVAL)
    else if stored.Some? && RenewAt(stored.value, r) - (now + turn.read) > 0 then
      (stored, SleepFor(RenewAt(stored.value, r) - (now + turn.read)))
    else
      match turn.reply
      case IssueFails => (stored, RETRY_INTERVAL)
      case Misreports(data) => (UsableIn(data), RETRY_INTERVAL)
      case Grants(Readable(crt, _)) => (Some(crt), SleepFor(RenewAt(crt, r) - (now + turn.read + turn.rest)))
      case Grants(Unreadable(_)) => (None, BlindWait(r))
  }

  /** The start of a pass. */
  datatype Moment = Moment(stored: Option<Certificate>, now: int)

  function Next(r: Policy, m: Moment, turn: Turn): (m': Moment)
    requires r.Valid()
    ensures m'.now >= m.now + MINUTE
  {
    var (stored, wait) := Pass(r, m.stored, m.now, turn);
    Moment(stored, m.now + turn.read + turn.rest + wait)
  }

  /** The start of pass `i` of `Run`. */
  function Timeline(r: Policy, m: Moment, turns: seq<Turn>, i: nat): Moment
    requires r.Valid() && i <= |turns|
  {
    if i == 0 then m else Next(r, Timeline(r, m, turns, i - 1), turns[i - 1])
  }

  /** Every pass waits at least a minute, so those that start within `n` minutes
      of the first are the first `n + 1`. */
  lemma {:induction false} PassesAreAMinuteApart(r: Policy, m: Moment, turns: seq<Turn>, i: nat, n: nat)
    requires r.Valid() && i <= |turns|
    ensures Timeline(r, m, turns, i).now >= m.now + i * MINUTE
    ensures Timeline(r, m, turns, i).now <= m.now + n * MINUTE ==> i < n + 1
    decreases i
  {
    if i > 0 {
      PassesAreAMinuteApart(r, m, turns, i - 1, n);
    }
  }

  // ---------- The certificate never lapses ----------

  /** The pass finds nothing usable, or a certificate that is due. */
  predicate Due(r: Policy, m: Moment, turn: Turn)
    requires r.Valid()
  {
    m.stored.Some? ==> RenewAt(m.stored.value, r) <= m.now + turn.read
  }

  /** The pass stores a certificate. */
  predicate Stores(r: Policy, m: Moment, turn: Turn)
    requires r.Valid()
  {
    Due(r, m, turn) && (turn.reply.Grants? || turn.reply.Misreports?)
  }

  /** The pass ends in an error: of the read, or of the issuance if it comes to
      that. */
  predicate Fails(r: Policy, m: Moment, turn: Turn)
    requires r.Valid()
  {
    turn.reply.ReadFails? || (Due(r, m, turn) && !turn.reply.Grants?)
  }

  /** How many passes in a row have failed just before pass `i`. */
  function FailuresBefore(r: Policy, m: Moment, turns: seq<Turn>, i: nat): nat
    requires r.Valid() && i <= |turns|
  {
    if i == 0 || !Fails(r, Timeline(r, m, turns, i - 1), turns[i - 1]) then 0
    else 1 + FailuresBefore(r, m, turns, i - 1)
  }

  ghost predicate AtMostInARow(r: Policy, m: Moment, turns: seq<Turn>, k: nat)
    requires r.Valid()
  {
    forall i :: 0 <= i <= |turns| ==> FailuresBefore(r, m, turns, i) <= k
  }

  /** No pass takes longer than `d`. */
  ghost predicate AllWithin(turns: seq<Turn>, d: nat)
  {
    forall i :: 0 <= i < |turns| ==> turns[i].read + turns[i].rest <= d
  }

  /** A failing pass and the wait after it take at most this long. */
  function Round(d: nat): (t: nat)
    ensures t == MINUTE + d
  {
    MINUTE + d
  }

  /** A certificate whose issuance ends at `end` leaves room for `k` failing
      passes and one more to replace it: counted from its renewal point, and
      from the earliest next pass. When passes take no time, that is more than k
      minutes after its renewal point, and more than k + 1 from its issuance. */
  predicate Roomy(r: Policy, crt: Certificate, end: int, k: nat, d: nat)
    requires r.Valid()
  {
    RenewAt(crt, r) + k * Round(d) + d < crt.notAfter && end + MINUTE + k * Round(d) + d < crt.notAfter
  }

  /** After a misreported issuance the next pass comes early, and may find the
      certificate just short of its renewal point: one round more after that. */
  predicate RoomyEnough(r: Policy, reply: Reply, end: int, k: nat, d: nat)
    requires r.Valid() && (reply.Grants? || reply.Misreports?)
  {
    && reply.data.Readable? && Roomy(r, reply.data.cert, end, k, d)
    && (reply.Misreports? ==> RenewAt(reply.data.cert, r) + (k + 1) * Round(d) + d < reply.data.cert.notAfter)
  }

  ghost predicate GrantsAreRoomy(r: Policy, m: Moment, turns: seq<Turn>, k: nat, d: nat)
    requires r.Valid()
  {
    forall i :: 0 <= i < |turns| && Stores(r, Timeline(r, m, turns, i), turns[i]) ==>
      RoomyEnough(r, turns[i].reply, Timeline(r, m, turns, i).now + turns[i].read + turns[i].rest, k, d)
  }

  predicate Expired(crt: Certificate, t: int) { t >= crt.notAfter }

  /** What pass `i` leaves stored is not expired at any instant from the start of
      that pass until the next is over, and so until it is replaced. */
  ghost predicate ValidThrough(r: Policy, m: Moment, turns: seq<Turn>, i: nat, d: nat)
    requires r.Valid() && i < |turns|
  {
    var stored := Timeline(r, m, turns, i + 1).stored;
    && stored.Some?
    && forall t :: Timeline(r, m, turns, i).now <= t <= Timeline(r, m, turns, i + 1).now + d ==>
         !Expired(stored.value, t)
  }

  /** At a pass with `f` failures just behind it: what is left of the window
      covers the failures still allowed if the certificate is due, and a round
      more than those from its renewal point if it is not. */
  predicate Covered(r: Policy, m: Moment, k: nat, f: nat, d: nat)
    requires r.Valid()
  {
    && m.stored.Some? && f <= k
    && var due := RenewAt(m.stored.value, r);
       if due <= m.now then m.now + (k - f) * Round(d) + d < m.stored.value.notAfter
       else due + (k + 1) * Round(d) + d < m.stored.value.notAfter
  }

  /** More failures allowed need more room. */
  lemma RoundsGrow(a: nat, b: nat, round: nat)
    requires a <= b
    ensures 0 <= a * round <= b * round
    ensures (a + 1) * round == a * round + round
  {}

  lemma GrantCovers(r: Policy, m: Moment, turn: Turn, k: nat, d: nat)
    requires r.Valid() && Due(r, m, turn) && turn.reply.Grants?
    requires RoomyEnough(r, turn.reply, m.now + turn.read + turn.rest, k, d)
    ensures Covered(r, Next(r, m, turn), k, 0, d)
  {
    hide RenewAt;
  }

  lemma MisreportCovers(r: Policy, m: Moment, turn: Turn, k: nat, f: nat, d: nat)
    requires r.Valid() && Due(r, m, turn) && turn.reply.Misreports? && f <= k
    requires RoomyEnough(r, turn.reply, m.now + turn.read + turn.rest, k, d)
    ensures Covered(r, Next(r, m, turn), k, f, d)
  {
    hide RenewAt;
    RoundsGrow(k - f, k, Round(d));
  }

  /** A pass that stores nothing, whether it fails or finds nothing to do. */
  lemma IdleCovers(r: Policy, m: Moment, turn: Turn, k: nat, f: nat, f': nat, d: nat)
    requires r.Valid() && !Stores(r, m, turn) && turn.read + turn.rest <= d
    requires Covered(r, m, k, f, d) && f' <= k && f' == if Fails(r, m, turn) then f + 1 else 0
    ensures Covered(r, Next(r, m, turn), k, f', d)
  {
    hide RenewAt;
    var due := RenewAt(m.stored.value, r);
    RoundsGrow(k - f', k, Round(d));
    RoundsGrow(k, k, Round(d));
    assert Next(r, m, turn).stored == m.stored;
    if due <= m.now {
      RoundsGrow(k - f - 1, k - f, Round(d));
      assert Next(r, m, turn).now <= m.now + Round(d);
    } else if Fails(r, m, turn) {
      assert Next(r, m, turn).now <= m.now + Round(d);
    } else {
      assert Next(r, m, turn).now <= due + Round(d);
    }
  }

  lemma {:induction false} AlwaysCovered(r: Policy, m: Moment, turns: seq<Turn>, k: nat, d: nat, i: nat)
    requires r.Valid() && 0 < i <= |turns| && Stores(r, m, turns[0])
    requires AtMostInARow(r, m, turns, k) && AllWithin(turns, d) && GrantsAreRoomy(r, m, turns, k, d)
    ensures Covered(r, Timeline(r, m, turns, i), k, FailuresBefore(r, m, turns, i), d)
    decreases i
  {
    hide RenewAt, RoomyEnough, Next, Covered, Due;
    var before, turn := Timeline(r, m, turns, i - 1), turns[i - 1];
    if i > 1 {
      AlwaysCovered(r, m, turns, k, d, i - 1);
    }
    assert FailuresBefore(r, m, turns, i) <= k;
    if Stores(r, before, turn) {
      if turn.reply.Grants? {
        GrantCovers(r, before, turn, k, d);
      } else {
        MisreportCovers(r, before, turn, k, FailuresBefore(r, m, turns, i), d);
      }
    } else {
      IdleCovers(r, before, turn, k, FailuresBefore(r, m, turns, i - 1), FailuresBefore(r, m, turns, i), d);
    }
  }

  /** From the first issuance on, the stored certificate is never expired, if no
      pass takes longer than `d`, at most `k` of them fail in a row, and every
      certificate that is stored leaves room for `k` failures. */
  lemma CertificateNeverLapses(r: Policy, m: Moment, turns: seq<Turn>, k: nat, d: nat, i: nat)
    requires r.Valid() && i < |turns| && Stores(r, m, turns[0])
    requires AtMostInARow(r, m, turns, k) && AllWithin(turns, d) && GrantsAreRoomy(r, m, turns, k, d)
    ensures ValidThrough(r, m, turns, i, d)
  {
    hide RenewAt, AtMostInARow, AllWithin, GrantsAreRoomy, Timeline, Stores;
    AlwaysCovered(r, m, turns, k, d, i + 1);
    RoundsGrow(k - FailuresBefore(r, m, turns, i + 1), k + 1, Round(d));
  }

  // ---------- The room asked for is exactly what is needed ----------

  function Repeat(turn: Turn, k: nat): (ts: seq<Turn>)
    ensures |ts| == k && forall i :: 0 <= i < k ==> ts[i] == turn
  {
    seq(k, _ => turn)
  }

  /** An issuance, then `k` passes that fail after `d`. */
  function GrantThenFailures(grant: Turn, k: nat, d: nat): (ts: seq<Turn>)
    ensures |ts| == k + 1
  {
    [grant] + Repeat(Turn(ReadFails, d, 0), k)
  }

  lemma {:induction false} AfterFailures(r: Policy, m: Moment, crt: Certificate, grant: Turn, k: nat, d: nat, i: nat)
    requires r.Valid() && i <= k && Due(r, m, grant)
    requires grant.reply.Grants? && grant.reply.data.Readable? && grant.reply.data.cert == crt
    ensures
      var end := m.now + grant.read + grant.rest;
      Timeline(r, m, GrantThenFailures(grant, k, d), i + 1)
        == Moment(Some(crt), end + SleepFor(RenewAt(crt, r) - end) + i * Round(d))
    decreases i
  {
    hide RenewAt;
    var turns := GrantThenFailures(grant, k, d);
    if i == 0 {
      assert Timeline(r, m, turns, 0) == m;
    } else {
      AfterFailures(r, m, crt, grant, k, d, i - 1);
      assert turns[i] == Turn(ReadFails, d, 0);
      RoundsGrow(i - 1, i, Round(d));
    }
  }

  /** A grant outlives `k` failing passes that take `d` each, until one more that
      takes as long is over, if and only if it leaves that room. */
  lemma RoomIsExact(r: Policy, m: Moment, grant: Turn, k: nat, d: nat)
    requires r.Valid() && Due(r, m, grant) && grant.reply.Grants? && grant.reply.data.Readable?
    ensures
      var crt, end := grant.reply.data.cert, m.now + grant.read + grant.rest;
      var over := Timeline(r, m, GrantThenFailures(grant, k, d), k + 1).now + d;
      !Expired(crt, over) <==> Roomy(r, crt, end, k, d)
  {
    AfterFailures(r, m, grant.reply.data.cert, grant, k, d, k);
    hide RenewAt, Timeline;
  }
}
