/** The renewer's pass over the store (internal/certrenewal/renewal.go): read
    the certificate, issue if it is missing or due, keep the annotations true. */
module Renewal {
  import opened Results
  import opened Storage
  import opened SecretStore
  import opened Cluster
  import opened Interleavings
  import opened RenewalTiming

  /** What becomes of one issuance: nothing, a certificate, or a certificate that
      is stored although an error is reported. */
  datatype Signing =
    | Refused
    | Signed(cert: CertData, privateKey: string)
    | Misreported(cert: CertData, privateKey: string)

  /** It keeps the session credential of one username current. */
  datatype Renewer = Renewer(k: Key, policy: Policy) {
    predicate Valid() { policy.Valid() && !IsStepUpSecretName(k.name) }
  }

  /** `New`: there must be a username; useless settings become the defaults. */
  function NewRenewer(dns: string -> string, namespace: string, username: string, duration: int, p: int, q: int)
    : (r: Option<Renewer>)
    requires q > 0
    ensures r.Some? <==> username != ""
    ensures r.Some? ==> r.value.Valid() && r.value.k == Key(namespace, ClientConfigSecretName(dns, username))
    ensures r.Some? && duration > 0 ==> r.value.policy.requested == duration
    ensures r.Some? && 0 < p < q ==> r.value.policy.p == p && r.value.policy.q == q
  {
    NameFamiliesAreDisjoint(dns, username, username);
    if username == "" then None
    else Some(Renewer(Key(namespace, ClientConfigSecretName(dns, username)), NewPolicy(duration, p, q)))
  }

  /** `current`: a missing Secret and an unreadable certificate are alike. */
  function Usable(w: World, k: Key): Option<Certificate>
  {
    if k in w.store && w.store[k].cert.Readable? then Some(w.store[k].cert.cert) else None
  }

  /** Nobody else acts; calls may still fail. */
  ghost predicate Alone(schedule: seq<Slot>)
  {
    forall i :: 0 <= i < |schedule| ==> schedule[i].ops == []
  }

  /** What a pass is answered, by the calls it makes when alone. */
  function ReplyOf(schedule: seq<Slot>, signing: Signing): Reply
  {
    if schedule != [] && schedule[0].fails then ReadFails
    else if signing.Refused? || (|schedule| > 1 && schedule[1].fails) then IssueFails
    else if signing.Misreported? then Misreports(signing.cert)
    else Grants(signing.cert)
  }

  /** Under every name, the same certificate and key. */
  ghost predicate SameCredentials(w: World, w': World)
  {
    w'.now == w.now && w'.store.Keys == w.store.Keys &&
    forall k :: k in w.store ==> w'.store[k].cert == w.store[k].cert && w'.store[k].privateKey == w.store[k].privateKey
  }

  // ---------- What the renewer may do itself ----------

  function SyncSteps(k: Key): Op -> bool
  {
    (op: Op) => op.SyncWrite? && op.k == k
  }

  /** Sync its own Secret, or store what was signed. */
  predicate Renews(op: Op, k: Key, signing: Signing)
  {
    || (op.SyncWrite? && op.k == k)
    || (!signing.Refused? && op == Issue(k, signing.cert, signing.privateKey))
  }

  function RenewSteps(k: Key, signing: Signing): Op -> bool
  {
    (op: Op) => Renews(op, k, signing)
  }

  /** Over many passes, also wait. */
  function RunSteps(k: Key, signings: seq<Signing>): Op -> bool
  {
    (op: Op) => op.TimePasses? || exists i :: 0 <= i < |signings| && Renews(op, k, signings[i])
  }

  lemma SyncSpares(origin: map<Key, Secret>, w: World, s: seq<Slot>, w': World, s': seq<Slot>, k: Key)
    requires Invariant(origin, w) && Acts(w, s, w', s', SyncSteps(k))
    ensures SparedStay(w, s, w', {})
  {
    hide Invariant, Acts;
    ActorsSpare(origin, w, s, w', s', SyncSteps(k), {});
  }

  lemma RenewSpares(origin: map<Key, Secret>, w: World, s: seq<Slot>, w': World, s': seq<Slot>,
                    k: Key, signings: seq<Signing>)
    requires Invariant(origin, w) && Acts(w, s, w', s', RunSteps(k, signings))
    ensures SparedStay(w, s, w', {k})
  {
    hide Invariant, Acts;
    forall op, k' | RunSteps(k, signings)(op) && WritesCredential(op, k')
      ensures k' in {k}
    {
      var i :| 0 <= i < |signings| && Renews(op, k, signings[i]);
    }
    ActorsSpare(origin, w, s, w', s', RunSteps(k, signings), {k});
  }

  lemma SyncIsRenewal(k: Key, signing: Signing)
    ensures forall op :: SyncSteps(k)(op) ==> RenewSteps(k, signing)(op)
  {}

  lemma PassIsInRun(k: Key, signings: seq<Signing>, i: nat)
    requires i < |signings|
    ensures forall op :: RenewSteps(k, signings[i])(op) ==> RunSteps(k, signings)(op)
  {}

  lemma AloneIsUnchanged(w: World, schedule: seq<Slot>)
    requires Alone(schedule)
    ensures AfterOthers(w, schedule) == w
    ensures schedule != [] ==> Alone(schedule[1..])
  {}

  lemma SyncIsStep(origin: map<Key, Secret>, w: World, k: Key, sec: Secret)
    requires Invariant(origin, w) && (k, sec) in w.history && CanUpdate(w, k, sec)
    requires Stale(sec.annotations, WantedAnnotations(sec.cert))
    ensures
      var w' := Update(w, k, sec, sec.annotations + WantedAnnotations(sec.cert));
      Invariant(origin, w') && SameCredentials(w, w') && w' == Apply(w, SyncWrite(k, sec))
      && k in w'.store && w'.store[k].annotations == sec.annotations + WantedAnnotations(sec.cert)
  {
    hide Stale, WantedAnnotations, IdentityAnnotations, PutAnnotations, MissingAnnotations, LastCredential;
    hide AllTruthful, CredentialsAreLast, RemovalsAreRightful;
    var op := SyncWrite(k, sec);
    ReadIsStored(w, k, sec);
    assert Apply(w, op) == Update(w, k, sec, sec.annotations + WantedAnnotations(sec.cert));
    hide Invariant, Apply, VersionsIdentify;
    StepKeepsInvariant(origin, w, op);
  }

  /** What is in order for `syncAnnotations`: everything wanted is there, but
      for the groups of a certificate without any, which may be missing. */
  lemma InOrderIff(have: Annotations, data: CertData)
    requires data.Readable? && ValidGroups(data.cert.groups)
    ensures !Stale(have, WantedAnnotations(data)) <==>
      && NotBefore in have && have[NotBefore] == Instant(data.cert.notBefore)
      && NotAfter in have && have[NotAfter] == Instant(data.cert.notAfter)
      && Strategy in have && have[Strategy] == Text("self")
      && (Groups in have ==> have[Groups] == Text(JoinGroups(data.cert.groups)))
      && (Groups !in have ==> JoinGroups(data.cert.groups) == "")
  {
    var want := WantedAnnotations(data);
    assert want.Keys == {NotBefore, NotAfter, Strategy, Groups};
    assert want[Strategy] == Text("self") && want[Groups] == Text(JoinGroups(data.cert.groups));
    assert forall a :: a in want && a !in have ==> Annotation(have, a) == Text("");
  }

  /** While such a certificate stays current its missing groups annotation stays
      missing; the next issuance, whose write starts from nothing, brings it. */
  lemma MissingGroupsComeBack(have: Annotations, data: CertData, next: CertData)
    requires data.Readable? && JoinGroups(data.cert.groups) == "" && ValidGroups(data.cert.groups)
    requires Groups !in have && !Stale(have[Groups := Text("")], WantedAnnotations(data))
    requires next.Readable? && ValidGroups(next.cert.groups)
    ensures Synced(have, data) == have && Groups !in Synced(have, data)
    ensures Groups in Synced(map[], next) && Synced(map[], next)[Groups] == Text(JoinGroups(next.cert.groups))
  {
    forall a | a in WantedAnnotations(data)
      ensures Annotation(have, a) == WantedAnnotations(data)[a]
    {
      assert Annotation(have[Groups := Text("")], a) == WantedAnnotations(data)[a];
    }
    SyncingSettles(map[], next);
  }

  lemma SyncedIsFresh(have: Annotations, want: Annotations)
    ensures !Stale(have + want, want)
  {}

  /** The annotations once synced. */
  function Synced(have: Annotations, data: CertData): Annotations
  {
    if Stale(have, WantedAnnotations(data)) then have + WantedAnnotations(data) else have
  }

  /** Syncing leaves nothing to sync, keeps every other annotation, and writes
      everything on a Secret that has none. */
  lemma SyncingSettles(have: Annotations, data: CertData)
    ensures !Stale(Synced(have, data), WantedAnnotations(data))
    ensures Synced(Synced(have, data), data) == Synced(have, data)
    ensures forall a :: a in have && a !in WantedAnnotations(data) ==>
      a in Synced(have, data) && Synced(have, data)[a] == have[a]
    ensures Synced(map[], data) == WantedAnnotations(data)
  {
    SyncedIsFresh(have, WantedAnnotations(data));
    if data.Readable? {
      assert NotBefore in WantedAnnotations(data) && Annotation(map[], NotBefore) != WantedAnnotations(data)[NotBefore];
      assert Stale(map[], WantedAnnotations(data));
    }
    assert map[] + WantedAnnotations(data) == WantedAnnotations(data);
  }

  /** `syncAnnotations`: its errors are swallowed. It never touches a
      credential, calls nobody when nothing differs, and alone it leaves the
      annotations as wanted. */
  method SyncAnnotations(c: ApiServer, k: Key, sec: Secret, ghost origin: map<Key, Secret>)
    requires Invariant(origin, c.w) && (k, sec) in c.w.history && !IsStepUpSecretName(k.name)
    modifies c
    ensures Alone(old(c.schedule)) ==> Alone(c.schedule)
    ensures Spares(old(c.schedule), k) ==> Spares(c.schedule, k) && Credential(c.w, k) == Credential(old(c.w), k)
    ensures Invariant(origin, c.w) && Extends(old(c.w), c.w)
    ensures Acts(old(c.w), old(c.schedule), c.w, c.schedule, SyncSteps(k))
    ensures SparedStay(old(c.w), old(c.schedule), c.w, {})
    ensures !Stale(sec.annotations, WantedAnnotations(sec.cert)) ==> c.w == old(c.w) && c.schedule == old(c.schedule)
    ensures Alone(old(c.schedule)) ==> SameCredentials(old(c.w), c.w)
    ensures old(c.schedule) == [] && k in old(c.w.store) && old(c.w.store)[k] == sec ==>
      k in c.w.store && c.w.store[k].annotations == Synced(sec.annotations, sec.cert)
  {
    hide Invariant, Run, WantedAnnotations, Stale, Spares, Credential, IsStepUpSecretName, Acts, SparedStay, Apply;
    ghost var w0, s0, own := c.w, c.schedule, SyncSteps(k);
    ActsNot(w0, s0, own);
    var want := WantedAnnotations(sec.cert);
    var stale := false;
    var keys := want.Keys;
    while keys != {} && !stale
      invariant keys <= want.Keys
      invariant stale ==> exists a :: a in want && Annotation(sec.annotations, a) != want[a]
      invariant forall a :: a in want.Keys - keys ==> stale || Annotation(sec.annotations, a) == want[a]
      decreases |keys|
    {
      var a :| a in keys;
      if Annotation(sec.annotations, a) != want[a] {
        stale := true;
      }
      keys := keys - {a};
    }
    assert stale == Stale(sec.annotations, want) by { StaleMeans(sec.annotations, want); }
    if !stale {
      SyncSpares(origin, w0, s0, c.w, c.schedule, k);
      return;
    }
    OthersKeep(origin, c.w, c.schedule);
    OthersExtend(c.w, c.schedule);
    ghost var seen := AfterOthers(c.w, c.schedule);
    if Alone(c.schedule) {
      AloneIsUnchanged(c.w, c.schedule);
    }
    if Spares(c.schedule, k) {
      OthersSpare(origin, c.w, c.schedule, k);
    }
    ActsOthers(w0, s0, own);
    ActsOwn(w0, s0, SyncWrite(k, sec), own);
    var answer := c.UpdateSecret(k, sec, sec.annotations + want);
    if answer == Done {
      SyncIsStep(origin, seen, k, sec);
      SameCredentialsAt(seen, c.w, k);
    }
    SyncSpares(origin, w0, s0, c.w, c.schedule, k);
  }

  lemma SameCredentialsAt(w: World, w': World, k: Key)
    requires SameCredentials(w, w')
    ensures Credential(w', k) == Credential(w, k)
  {}

  lemma StaleMeans(have: Annotations, want: Annotations)
    ensures Stale(have, want) <==> exists a :: a in want && Annotation(have, a) != want[a]
  {}

  /** `annotate`: reads back whatever is stored by now, and syncs that. */
  method Annotate(c: ApiServer, k: Key, ghost origin: map<Key, Secret>)
    requires Invariant(origin, c.w) && !IsStepUpSecretName(k.name)
    modifies c
    ensures Alone(old(c.schedule)) ==> Alone(c.schedule)
    ensures Spares(old(c.schedule), k) ==> Spares(c.schedule, k) && Credential(c.w, k) == Credential(old(c.w), k)
    ensures Invariant(origin, c.w) && Extends(old(c.w), c.w)
    ensures Acts(old(c.w), old(c.schedule), c.w, c.schedule, SyncSteps(k))
    ensures Alone(old(c.schedule)) ==> SameCredentials(old(c.w), c.w)
    ensures old(c.schedule) == [] && k in old(c.w.store) ==>
      k in c.w.store && c.w.store[k].annotations == Synced(old(c.w.store)[k].annotations, old(c.w.store)[k].cert)
  {
    hide Invariant, Run, WantedAnnotations, Stale, Spares, Credential, IsStepUpSecretName, Acts, SparedStay;
    ghost var w0, s0, own := c.w, c.schedule, SyncSteps(k);
    ActsOthers(w0, s0, own);
    OthersKeep(origin, c.w, c.schedule);
    if Alone(c.schedule) {
      AloneIsUnchanged(c.w, c.schedule);
    }
    if Spares(c.schedule, k) {
      OthersSpare(origin, c.w, c.schedule, k);
    }
    var sec := c.Get(k);
    if sec.Err? {
      return;
    }
    StoredIsHistory(origin, c.w, k);
    ghost var w1, s1 := c.w, c.schedule;
    SyncAnnotations(c, k, sec.value, origin);
    ActsThen(w0, s0, w1, s1, c.w, c.schedule, own);
  }

  lemma StoredIsHistory(origin: map<Key, Secret>, w: World, k: Key)
    requires Invariant(origin, w) && k in w.store
    ensures (k, w.store[k]) in w.history
  {}

  lemma IssueIsStep(origin: map<Key, Secret>, w: World, k: Key, cert: CertData, privateKey: string)
    requires Invariant(origin, w) && !IsStepUpSecretName(k.name)
    ensures
      var w' := Apply(w, Issue(k, cert, privateKey));
      && Invariant(origin, w') && w'.now == w.now
      && k in w'.store && w'.store[k].cert == cert && w'.store[k].privateKey == privateKey
      && w'.store[k].annotations == map[]
  {
    hide Invariant, IsStepUpSecretName;
    StepKeepsInvariant(origin, w, Issue(k, cert, privateKey));
  }

  lemma UsableIs(w: World, k: Key)
    ensures Usable(w, k) ==
      if Credential(w, k).Some? && Credential(w, k).value.0.Readable? then Some(Credential(w, k).value.0.cert) else None
  {}

  /** `issue`: a certificate the service cannot parse is stored all the same,
      and checked again when what was requested would be due. */
  method IssueCertificate(c: ApiServer, r: Renewer, signing: Signing, ghost origin: map<Key, Secret>)
    returns (wait: int, failed: bool)
    requires Invariant(origin, c.w) && r.Valid()
    modifies c
    ensures Alone(old(c.schedule)) ==> Alone(c.schedule) && c.w.now == old(c.w.now)
    ensures Invariant(origin, c.w) && Extends(old(c.w), c.w)
    ensures wait >= MINUTE && (failed ==> wait == RETRY_INTERVAL)
    ensures failed <==> !signing.Signed? || (old(c.schedule) != [] && old(c.schedule)[0].fails)
    ensures Acts(old(c.w), old(c.schedule), c.w, c.schedule, RenewSteps(r.k, signing))
    ensures Spares(old(c.schedule), r.k) ==>
      && Spares(c.schedule, r.k)
      && (Usable(c.w, r.k), wait) ==
           if signing.Refused? || (old(c.schedule) != [] && old(c.schedule)[0].fails) then
             (Usable(old(c.w), r.k), RETRY_INTERVAL)
           else if signing.Misreported? then (UsableIn(signing.cert), RETRY_INTERVAL)
           else if signing.cert.Readable? then
             (Some(signing.cert.cert), SleepFor(RenewAt(signing.cert.cert, r.policy) - c.w.now))
           else (None, BlindWait(r.policy))
    ensures old(c.schedule) == [] && !failed ==>
      r.k in c.w.store && c.w.store[r.k].cert == signing.cert && c.w.store[r.k].privateKey == signing.privateKey &&
      c.w.store[r.k].annotations == WantedAnnotations(signing.cert)
  {
    hide Invariant, Run, WantedAnnotations, Stale, RenewAt, Synced, Apply, Spares, IsStepUpSecretName, Usable;
    hide SleepFor, BlindWait, Acts, SparedStay;
    ghost var w0, s0, own := c.w, c.schedule, RenewSteps(r.k, signing);
    ActsOthers(w0, s0, own);
    OthersKeep(origin, c.w, c.schedule);
    if Alone(c.schedule) {
      AloneIsUnchanged(c.w, c.schedule);
    }
    if Spares(c.schedule, r.k) {
      OthersSpare(origin, c.w, c.schedule, r.k);
    }
    UsableIs(c.w, r.k);
    if signing.Refused? {
      // The refusal takes its time too.
      var _ := c.Others();
      UsableIs(c.w, r.k);
      return RETRY_INTERVAL, true;
    }
    IssueIsStep(origin, AfterOthers(c.w, c.schedule), r.k, signing.cert, signing.privateKey);
    ActsOwn(w0, s0, Issue(r.k, signing.cert, signing.privateKey), own);
    var answer := c.IssueSecret(r.k, signing.cert, signing.privateKey);
    UsableIs(c.w, r.k);
    if answer == Failed || signing.Misreported? {
      return RETRY_INTERVAL, true;
    }
    SyncingSettles(map[], signing.cert);
    ghost var w1, s1 := c.w, c.schedule;
    Annotate(c, r.k, origin);
    ActsMore(w1, s1, c.w, c.schedule, SyncSteps(r.k), own);
    ActsThen(w0, s0, w1, s1, c.w, c.schedule, own);
    UsableIs(c.w, r.k);
    match signing.cert {
      case Unreadable(_) =>
        return BlindWait(r.policy), false;
      case Readable(crt, _) =>
        return SleepFor(RenewAt(crt, r.policy) - c.w.now), false;
    }
  }

  lemma ReplyMeans(schedule: seq<Slot>, signing: Signing)
    ensures ReplyOf(schedule, signing).ReadFails? <==> schedule != [] && schedule[0].fails
    ensures !ReplyOf(schedule, signing).ReadFails? ==>
      ReplyOf(schedule, signing)
        == if signing.Refused? || (|schedule| > 1 && schedule[1].fails) then IssueFails
           else if signing.Misreported? then Misreports(signing.cert)
           else Grants(signing.cert)
  {}

  lemma PassMeans(r: Policy, stored: Option<Certificate>, now: int, turn: Turn)
    requires r.Valid()
    ensures turn.reply.ReadFails? ==> Pass(r, stored, now, turn) == (stored, RETRY_INTERVAL)
    ensures !turn.reply.ReadFails? && stored.Some? && RenewAt(stored.value, r) > now + turn.read ==>
      Pass(r, stored, now, turn) == (stored, SleepFor(RenewAt(stored.value, r) - (now + turn.read)))
    ensures !turn.reply.ReadFails? && (stored.None? || RenewAt(stored.value, r) <= now + turn.read) ==>
      Pass(r, stored, now, turn)
        == if turn.reply.IssueFails? then (stored, RETRY_INTERVAL)
           else if turn.reply.Misreports? then (UsableIn(turn.reply.data), RETRY_INTERVAL)
           else if turn.reply.data.Readable? then
             (Some(turn.reply.data.cert), SleepFor(RenewAt(turn.reply.data.cert, r) - (now + turn.read + turn.rest)))
           else (None, BlindWait(r))
  {}

  /** `current`: the Secret if its certificate can be used, nothing if there is
      none, or a failed read. */
  method Current(c: ApiServer, r: Renewer, ghost origin: map<Key, Secret>) returns (current: Result<Option<Secret>, ()>)
    requires Invariant(origin, c.w) && r.Valid()
    modifies c
    ensures Invariant(origin, c.w) && Extends(old(c.w), c.w)
    ensures c.schedule == if old(c.schedule) == [] then [] else old(c.schedule)[1..]
    ensures c.w == AfterOthers(old(c.w), old(c.schedule))
    ensures Alone(old(c.schedule)) ==> Alone(c.schedule) && c.w.now == old(c.w.now)
    ensures current.Err? <==> old(c.schedule) != [] && old(c.schedule)[0].fails
    ensures Spares(old(c.schedule), r.k) ==> Spares(c.schedule, r.k) && Usable(c.w, r.k) == Usable(old(c.w), r.k)
    ensures current.Ok? && current.value.None? ==> Usable(c.w, r.k).None?
    ensures current.Ok? && current.value.Some? ==>
      var sec := current.value.value;
      (r.k, sec) in c.w.history && sec.cert.Readable? && Usable(c.w, r.k) == Some(sec.cert.cert)
  {
    hide Invariant, Run, Spares, IsStepUpSecretName, AfterOthers;
    OthersKeep(origin, c.w, c.schedule);
    if Alone(c.schedule) {
      AloneIsUnchanged(c.w, c.schedule);
    }
    if Spares(c.schedule, r.k) {
      OthersSpare(origin, c.w, c.schedule, r.k);
    }
    var sec := c.Get(r.k);
    if sec.Err? && sec.error == Failed {
      return Err(());
    }
    if sec.Err? || sec.value.cert.Unreadable? {
      return Ok(None);
    }
    StoredIsHistory(origin, c.w, r.k);
    return Ok(Some(sec.value));
  }

  /** `Ensure`. Every wait is at least a minute, whatever happens; and while
      nobody else writes the credential, the pass is the `Pass` of
      RenewalTiming, `turn` being how it went. */
  method Ensure(c: ApiServer, r: Renewer, signing: Signing, ghost origin: map<Key, Secret>)
    returns (wait: int, failed: bool, ghost turn: Turn)
    requires Invariant(origin, c.w) && r.Valid()
    modifies c
    ensures Alone(old(c.schedule)) ==> Alone(c.schedule) && turn.read == turn.rest == 0
    ensures Invariant(origin, c.w) && Extends(old(c.w), c.w)
    ensures Acts(old(c.w), old(c.schedule), c.w, c.schedule, RenewSteps(r.k, signing))
    ensures wait >= MINUTE && (failed ==> wait == RETRY_INTERVAL)
    ensures turn.reply == ReplyOf(old(c.schedule), signing) && c.w.now == old(c.w.now) + turn.read + turn.rest
    ensures Spares(old(c.schedule), r.k) ==>
      && Spares(c.schedule, r.k)
      && (Usable(c.w, r.k), wait) == Pass(r.policy, Usable(old(c.w), r.k), old(c.w.now), turn)
    ensures Spares(old(c.schedule), r.k) && Usable(old(c.w), r.k).Some? && !turn.reply.ReadFails? ==>
      var crt, read := Usable(old(c.w), r.k).value, old(c.w.now) + turn.read;
      && (!Elapsed(crt, r.policy, read) ==>
            && !failed && Acts(old(c.w), old(c.schedule), c.w, c.schedule, SyncSteps(r.k))
            && Usable(c.w, r.k) == Some(crt) && Elapsed(crt, r.policy, read + wait)
            && (wait > 60_000_000_000 ==> !Elapsed(crt, r.policy, read + wait - 1)))
      && (Elapsed(crt, r.policy, read) && turn.reply.Grants? ==> !failed && Usable(c.w, r.k) == UsableIn(signing.cert))
  {
    hide Invariant, RenewAt, Spares, IsStepUpSecretName, Usable, Credential, Pass, SleepFor, BlindWait;
    hide AfterOthers, ReplyOf, WantedAnnotations, Stale, Synced, Acts, SparedStay, Apply;
    ghost var w0, s0, own := c.w, c.schedule, RenewSteps(r.k, signing);
    ActsOthers(w0, s0, own);
    ActsOthers(w0, s0, SyncSteps(r.k));
    hide Elapsed, SyncSteps, RenewSteps, Tail;
    ReplyMeans(c.schedule, signing);
    ghost var start, reply := c.w.now, ReplyOf(c.schedule, signing);
    var current := Current(c, r, origin);
    ghost var read, w1, s1 := c.w.now, c.w, c.schedule;
    PassMeans(r.policy, Usable(c.w, r.k), start, Turn(reply, read - start, 0));
    if current.Err? {
      return RETRY_INTERVAL, true, Turn(reply, read - start, 0);
    }
    if current.value.Some? {
      var sec := current.value.value;
      var due := RenewAt(sec.cert.cert, r.policy);
      DueIff(sec.cert.cert, r.policy, c.w.now);
      if due - c.w.now > 0 {
        wait := SleepFor(due - c.w.now);
        CurrentWait(sec.cert.cert, r.policy, c.w.now);
        UsableIs(c.w, r.k);
        SyncAnnotations(c, r.k, sec, origin);
        SyncIsRenewal(r.k, signing);
        ActsMore(w1, s1, c.w, c.schedule, SyncSteps(r.k), own);
        ActsThen(w0, s0, w1, s1, c.w, c.schedule, own);
        ActsThen(w0, s0, w1, s1, c.w, c.schedule, SyncSteps(r.k));
        UsableIs(c.w, r.k);
        turn := Turn(reply, read - start, c.w.now - read);
        PassMeans(r.policy, Usable(c.w, r.k), start, turn);
        return wait, false, turn;
      }
    }
    ghost var stored := Usable(c.w, r.k);
    wait, failed := IssueCertificate(c, r, signing, origin);
    ActsThen(w0, s0, w1, s1, c.w, c.schedule, own);
    turn := Turn(reply, read - start, c.w.now - read);
    PassMeans(r.policy, stored, start, turn);
  }

  /** The first pass of `Run` starts when the wait is over. */
  function FirstPass(w: World, r: Renewer, firstWait: nat): Moment
  {
    Moment(Usable(w, r.k), w.now + firstWait)
  }

  /** `Run`, for as many passes as there are answers of the signer: sleep out
      the wait, then `Ensure`; `turns` is how the passes went. While nobody else
      writes the credential, the store holds what the timeline says, and if the
      turns are as `CertificateNeverLapses` asks, a certificate that lasts until
      the next pass is over. */
  method RunPasses(c: ApiServer, r: Renewer, firstWait: nat, signings: seq<Signing>, ghost origin: map<Key, Secret>)
    returns (wait: int, ghost turns: seq<Turn>)
    requires Invariant(origin, c.w) && r.Valid() && Spares(c.schedule, r.k)
    modifies c
    ensures Invariant(origin, c.w) && wait >= 0 && |turns| == |signings|
    ensures forall i :: 0 <= i < |turns| && (turns[i].reply.Grants? || turns[i].reply.Misreports?) ==>
      !signings[i].Refused? && signings[i].cert == turns[i].reply.data
    ensures Acts(old(c.w), old(c.schedule), c.w, c.schedule, RunSteps(r.k, signings))
    ensures SparedStay(old(c.w), old(c.schedule), c.w, {r.k})
    ensures Moment(Usable(c.w, r.k), c.w.now + wait)
      == Timeline(r.policy, FirstPass(old(c.w), r, firstWait), turns, |turns|)
    ensures forall k: nat, d: nat ::
      StaysCurrent(r.policy, FirstPass(old(c.w), r, firstWait), turns, k, d) ==>
        && Usable(c.w, r.k).Some?
        && !Expired(Usable(c.w, r.k).value, c.w.now) && !Expired(Usable(c.w, r.k).value, c.w.now + wait + d)
  {
    hide Invariant, Pass, Spares, Usable, IsStepUpSecretName, Acts, SparedStay, Apply, RunSteps, RenewSteps;
    wait, turns := firstWait, [];
    ghost var w0, s0, own := c.w, c.schedule, RunSteps(r.k, signings);
    ActsNot(w0, s0, own);
    ghost var first := FirstPass(c.w, r, firstWait);
    for i := 0 to |signings|
      invariant Invariant(origin, c.w) && Spares(c.schedule, r.k) && wait >= 0 && |turns| == i
      invariant forall j :: 0 <= j < i && (turns[j].reply.Grants? || turns[j].reply.Misreports?) ==>
        !signings[j].Refused? && signings[j].cert == turns[j].reply.data
      invariant Acts(w0, s0, c.w, c.schedule, own)
      invariant Moment(Usable(c.w, r.k), c.w.now + wait) == Timeline(r.policy, first, turns, i)
      invariant i > 0 ==> c.w.now >= Timeline(r.policy, first, turns, i - 1).now
    {
      ghost var start := Moment(Usable(c.w, r.k), c.w.now + wait);
      ghost var w1, s1 := c.w, c.schedule;
      Sleep(c, r.k, wait, origin);
      WaitingActs(w1, s1, wait, r.k, signings);
      ActsThen(w0, s0, w1, s1, c.w, c.schedule, own);
      ghost var w2, s2 := c.w, c.schedule;
      var failed;
      ghost var turn;
      wait, failed, turn := Ensure(c, r, signings[i], origin);
      PassIsInRun(r.k, signings, i);
      ActsMore(w2, s2, c.w, c.schedule, RenewSteps(r.k, signings[i]), own);
      ActsThen(w0, s0, w2, s2, c.w, c.schedule, own);
      TimelineExtends(r.policy, first, turns, turn, i);
      assert Moment(Usable(c.w, r.k), c.w.now + wait) == Next(r.policy, start, turn);
      turns := turns + [turn];
    }
    RenewSpares(origin, w0, s0, c.w, c.schedule, r.k, signings);
    forall k: nat, d: nat | StaysCurrent(r.policy, first, turns, k, d)
      ensures ValidThrough(r.policy, first, turns, |turns| - 1, d)
    {
      CertificateNeverLapses(r.policy, first, turns, k, d, |turns| - 1);
    }
  }

  /** What `CertificateNeverLapses` asks of a run. */
  ghost predicate StaysCurrent(policy: Policy, first: Moment, turns: seq<Turn>, k: nat, d: nat)
    requires policy.Valid()
  {
    && turns != [] && Stores(policy, first, turns[0])
    && AtMostInARow(policy, first, turns, k) && AllWithin(turns, d) && GrantsAreRoomy(policy, first, turns, k, d)
  }

  lemma WaitingActs(w: World, s: seq<Slot>, wait: nat, k: Key, signings: seq<Signing>)
    ensures Acts(w, s, Apply(w, TimePasses(wait)), s, RunSteps(k, signings))
  {
    ActsAtOnce(w, s, TimePasses(wait), RunSteps(k, signings));
  }

  method Sleep(c: ApiServer, ghost k: Key, wait: nat, ghost origin: map<Key, Secret>)
    requires Invariant(origin, c.w)
    modifies c
    ensures Invariant(origin, c.w) && c.schedule == old(c.schedule)
    ensures c.w == old(c.w).(now := old(c.w.now) + wait) && Usable(c.w, k) == Usable(old(c.w), k)
    ensures c.w == Apply(old(c.w), TimePasses(wait))
  {
    hide Invariant;
    StepKeepsInvariant(origin, c.w, TimePasses(wait));
    c.w := Apply(c.w, TimePasses(wait));
  }

  lemma {:induction false} TimelineExtends(r: Policy, m: Moment, turns: seq<Turn>, turn: Turn, i: nat)
    requires r.Valid() && i <= |turns|
    ensures Timeline(r, m, turns + [turn], i) == Timeline(r, m, turns, i)
    ensures i == |turns| ==> Timeline(r, m, turns + [turn], i + 1) == Next(r, Timeline(r, m, turns, i), turn)
  {
    hide Next;
    if i > 0 {
      TimelineExtends(r, m, turns, turn, i - 1);
    }
  }
}
