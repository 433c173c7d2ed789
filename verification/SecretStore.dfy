/** The credential Secrets as one store with many writers: every actor's calls
    to the API server are atomic steps of one state machine, in any order.

    A write gives the object a fresh version. A replace without a version
    succeeds whenever the name exists; an update with a version, and a delete
    with a UID and a version, succeed only on exactly what was read. */
module SecretStore {
  import opened Results
  import opened Storage

  datatype Key = Key(namespace: string, name: string)

  datatype Secret = Secret(uid: nat, version: nat, cert: CertData, privateKey: string, annotations: Annotations)

  /** What the API server did. */
  datatype Event =
    | CredentialWritten(k: Key, cert: CertData, privateKey: string)
    | AnnotationsWritten(k: Key)
    | SecretRemoved(k: Key, was: Secret, at: int, grace: int)

  /** `history` holds every content any name ever had, and so every snapshot an
      actor can be holding. */
  datatype World = World(
    store: map<Key, Secret>,
    nextVersion: nat,
    nextUid: nat,
    now: int,
    history: set<(Key, Secret)>,
    log: seq<Event>)

  // ---------- The API server ----------

  function Stored(w: World, k: Key, s: Secret, e: Event): World
  {
    w.(store := w.store[k := s], nextVersion := w.nextVersion + 1, nextUid := w.nextUid + 1,
       history := w.history + {(k, s)}, log := w.log + [e])
  }

  predicate CanCreate(w: World, k: Key) { k !in w.store }

  function Create(w: World, k: Key, cert: CertData, privateKey: string, ann: Annotations): World
    requires CanCreate(w, k)
  {
    Stored(w, k, Secret(w.nextUid, w.nextVersion, cert, privateKey, ann), CredentialWritten(k, cert, privateKey))
  }

  predicate CanReplace(w: World, k: Key) { k in w.store }

  function Replace(w: World, k: Key, cert: CertData, privateKey: string, ann: Annotations): World
    requires CanReplace(w, k)
  {
    Stored(w, k, Secret(w.store[k].uid, w.nextVersion, cert, privateKey, ann), CredentialWritten(k, cert, privateKey))
  }

  /** The conditional update: `read` is what the caller read, `ann` the
      annotations it writes back with it. */
  predicate CanUpdate(w: World, k: Key, read: Secret)
  {
    k in w.store && w.store[k].uid == read.uid && w.store[k].version == read.version
  }

  function Update(w: World, k: Key, read: Secret, ann: Annotations): World
    requires CanUpdate(w, k, read)
  {
    Stored(w, k, read.(version := w.nextVersion, annotations := ann), AnnotationsWritten(k))
  }

  predicate CanDelete(w: World, k: Key, uid: nat, version: nat)
  {
    k in w.store && w.store[k].uid == uid && w.store[k].version == version
  }

  /** The grace period is the deleter's own; the log only remembers it. */
  function Delete(w: World, k: Key, uid: nat, version: nat, grace: int): World
    requires CanDelete(w, k, uid, version)
  {
    w.(store := w.store - {k}, log := w.log + [SecretRemoved(k, w.store[k], w.now, grace)])
  }

  // ---------- What the actors write ----------

  /** What `syncAnnotations` wants on a Secret: the window, and the identity
      unless it cannot be derived. Nothing for an unreadable certificate. */
  function WantedAnnotations(data: CertData): Annotations
  {
    match IdentityAnnotations("self", data)
    case Ok(identity) => CertValidityAnnotations(data) + identity
    case Err(_) => CertValidityAnnotations(data)
  }

  /** An annotation that is not there reads as the empty text. */
  function Annotation(have: Annotations, k: AnnotationKey): AnnotationValue
  {
    if k in have then have[k] else Text("")
  }

  /** Whether some wanted annotation reads differently. */
  predicate Stale(have: Annotations, want: Annotations)
  {
    exists k :: k in want && Annotation(have, k) != want[k]
  }

  /** What the backfill adds: the identity annotations that are not there. */
  function MissingAnnotations(read: Secret, strategy: string): Result<Annotations, IdentityError>
  {
    if Strategy in read.annotations && Groups in read.annotations then Ok(map[])
    else
      match IdentityAnnotations(strategy, read.cert)
      case Err(e) => Err(e)
      case Ok(want) => Ok(map k | k in want && k !in read.annotations :: want[k])
  }

  predicate ExpiredFor(data: CertData, grace: int, now: int)
  {
    data.Readable? && now >= data.cert.notAfter + grace
  }

  // ---------- Steps ----------

  /** One step of any actor. A step that acts on an earlier read carries what
      was read; the sweeper also carries when it judged it. The renewer issues
      under its own session name only. */
  datatype Op =
    | TimePasses(d: nat)
    | LoginCreate(k: Key, strategy: string, cert: CertData, privateKey: string)
    | LoginReplace(k: Key, strategy: string, cert: CertData, privateKey: string)
    | Issue(k: Key, cert: CertData, privateKey: string)
    | SyncWrite(k: Key, read: Secret)
    | BackfillWrite(k: Key, read: Secret, strategy: string)
    | SweepDelete(k: Key, read: Secret, grace: int, judgedAt: int)

  predicate Lands(w: World, op: Op)
  {
    match op
    case TimePasses(_) => true
    case LoginCreate(k, strategy, cert, _) => PutAnnotations(strategy, cert).Ok? && CanCreate(w, k)
    case LoginReplace(k, strategy, cert, _) => PutAnnotations(strategy, cert).Ok? && CanReplace(w, k)
    case Issue(k, _, _) => !IsStepUpSecretName(k.name)
    case SyncWrite(k, read) =>
      (k, read) in w.history && Stale(read.annotations, WantedAnnotations(read.cert)) && CanUpdate(w, k, read)
    case BackfillWrite(k, read, strategy) =>
      && (k, read) in w.history && CanUpdate(w, k, read)
      && MissingAnnotations(read, strategy).Ok? && MissingAnnotations(read, strategy).value != map[]
    case SweepDelete(k, read, grace, judgedAt) =>
      && (k, read) in w.history && IsStepUpSecretName(k.name) && grace > 0
      && judgedAt <= w.now && ExpiredFor(read.cert, grace, judgedAt) && CanDelete(w, k, read.uid, read.version)
  }

  /** A step that does not land is refused and changes nothing. */
  function Apply(w: World, op: Op): World
  {
    if !Lands(w, op) then w
    else
      match op
      case TimePasses(d) => w.(now := w.now + d)
      case LoginCreate(k, strategy, cert, privateKey) =>
        Create(w, k, cert, privateKey, PutAnnotations(strategy, cert).value)
      case LoginReplace(k, strategy, cert, privateKey) =>
        Replace(w, k, cert, privateKey, PutAnnotations(strategy, cert).value)
      case Issue(k, cert, privateKey) =>
        if k in w.store then Replace(w, k, cert, privateKey, map[]) else Create(w, k, cert, privateKey, map[])
      case SyncWrite(k, read) => Update(w, k, read, read.annotations + WantedAnnotations(read.cert))
      case BackfillWrite(k, read, strategy) =>
        Update(w, k, read, read.annotations + MissingAnnotations(read, strategy).value)
      case SweepDelete(k, read, grace, _) => Delete(w, k, read.uid, read.version, grace)
  }

  /** An interleaving is any sequence of steps. */
  function Run(w: World, ops: seq<Op>): World
    decreases |ops|
  {
    if ops == [] then w else Run(Apply(w, ops[0]), ops[1..])
  }

  /** Time and the log only grow, and no snapshot is forgotten. */
  ghost predicate Extends(w: World, w': World)
  {
    w.log <= w'.log && w.history <= w'.history && w.now <= w'.now
  }

  lemma {:induction false} RunExtends(w: World, ops: seq<Op>)
    ensures Extends(w, Run(w, ops))
    decreases |ops|
  {
    if ops != [] {
      hide PutAnnotations, WantedAnnotations, MissingAnnotations, Lands;
      assert Extends(w, Apply(w, ops[0]));
      RunExtends(Apply(w, ops[0]), ops[1..]);
    }
  }

  // ---------- Invariants ----------

  /** A version identifies a content. */
  ghost predicate VersionsIdentify(w: World)
  {
    && (forall h :: h in w.history ==> h.1.version < w.nextVersion)
    && (forall h, h' :: h in w.history && h' in w.history && h.1.version == h'.1.version ==> h == h')
    && (forall k :: k in w.store ==> (k, w.store[k]) in w.history)
  }

  ghost predicate AllTruthful(w: World)
  {
    forall k :: k in w.store ==> Truthful(w.store[k].cert, w.store[k].annotations)
  }

  /** The credential of the last login or issuance that landed on `k`, from
      the events after a state in which `origin` was stored. */
  function LastCredential(origin: map<Key, Secret>, log: seq<Event>, k: Key): Option<(CertData, string)>
  {
    if log == [] then
      if k in origin then Some((origin[k].cert, origin[k].privateKey)) else None
    else
      match log[|log| - 1]
      case CredentialWritten(k', cert, privateKey) =>
        if k' == k then Some((cert, privateKey)) else LastCredential(origin, log[..|log| - 1], k)
      case _ => LastCredential(origin, log[..|log| - 1], k)
  }

  /** The event at `i` is the last credential written under `k`. */
  ghost predicate LastWriteAt(log: seq<Event>, k: Key, i: nat, cert: CertData, privateKey: string)
  {
    && i < |log| && log[i] == CredentialWritten(k, cert, privateKey)
    && forall j :: i < j < |log| && log[j].CredentialWritten? ==> log[j].k != k
  }

  lemma {:induction false} LastMeans(origin: map<Key, Secret>, log: seq<Event>, k: Key,
                                     cert: CertData, privateKey: string)
    ensures LastCredential(origin, log, k) == Some((cert, privateKey)) <==>
      || (exists i: nat :: LastWriteAt(log, k, i, cert, privateKey))
      || ((forall j :: 0 <= j < |log| && log[j].CredentialWritten? ==> log[j].k != k)
          && k in origin && origin[k].cert == cert && origin[k].privateKey == privateKey)
  {
    if log != [] {
      var n := |log| - 1;
      var init, e := log[..n], log[n];
      LastMeans(origin, init, k, cert, privateKey);
      if e.CredentialWritten? && e.k == k {
        if e == CredentialWritten(k, cert, privateKey) {
          assert LastWriteAt(log, k, n, cert, privateKey);
        }
      } else {
        forall i: nat
          ensures LastWriteAt(log, k, i, cert, privateKey) <==> LastWriteAt(init, k, i, cert, privateKey)
        {
          assert forall j :: 0 <= j < n ==> init[j] == log[j];
        }
        assert forall j :: 0 <= j < n ==> init[j] == log[j];
      }
    }
  }

  /** Everything stored is the last credential written under its name. */
  ghost predicate CredentialsAreLast(origin: map<Key, Secret>, w: World)
  {
    forall k :: k in w.store ==> LastCredential(origin, w.log, k) == Some((w.store[k].cert, w.store[k].privateKey))
  }

  /** What a removal took was a step-up credential whose certificate had, at
      that instant, been expired for the grace period. */
  predicate RightfulRemoval(e: Event)
  {
    e.SecretRemoved? ==> IsStepUpSecretName(e.k.name) && e.grace > 0 && ExpiredFor(e.was.cert, e.grace, e.at)
  }

  ghost predicate RemovalsAreRightful(w: World)
  {
    forall i :: 0 <= i < |w.log| ==> RightfulRemoval(w.log[i])
  }

  ghost predicate Invariant(origin: map<Key, Secret>, w: World)
  {
    VersionsIdentify(w) && AllTruthful(w) && CredentialsAreLast(origin, w) && RemovalsAreRightful(w)
  }

  lemma StoredKeepsVersions(w: World, k: Key, s: Secret, e: Event)
    requires VersionsIdentify(w) && s.version == w.nextVersion
    ensures VersionsIdentify(Stored(w, k, s, e))
  {}

  /** What was read at a version is what is stored at that version. */
  lemma ReadIsStored(w: World, k: Key, read: Secret)
    requires VersionsIdentify(w) && (k, read) in w.history && k in w.store && w.store[k].version == read.version
    ensures w.store[k] == read
  {
    assert (k, w.store[k]) in w.history;
  }

  lemma StepKeepsVersions(w: World, op: Op)
    requires VersionsIdentify(w)
    ensures VersionsIdentify(Apply(w, op))
  {
    hide PutAnnotations, WantedAnnotations, MissingAnnotations;
    if Lands(w, op) && !op.TimePasses? && !op.SweepDelete? {
      var w' := Apply(w, op);
      var s, e := w'.store[op.k], w'.log[|w.log|];
      assert w' == Stored(w, op.k, s, e);
      hide VersionsIdentify, Stored;
      StoredKeepsVersions(w, op.k, s, e);
    }
  }

  lemma PutIsTruthful(strategy: string, data: CertData)
    requires PutAnnotations(strategy, data).Ok?
    ensures Truthful(data, PutAnnotations(strategy, data).value)
  {}

  lemma SyncIsTruthful(data: CertData, ann: Annotations)
    requires Truthful(data, ann)
    ensures Truthful(data, ann + WantedAnnotations(data))
  {}

  lemma BackfillIsTruthful(read: Secret, strategy: string)
    requires Truthful(read.cert, read.annotations) && MissingAnnotations(read, strategy).Ok?
    ensures Truthful(read.cert, read.annotations + MissingAnnotations(read, strategy).value)
  {}

  /** From any state where they hold, every step keeps the annotations true. */
  lemma StepKeepsTruth(w: World, op: Op)
    requires VersionsIdentify(w) && AllTruthful(w)
    ensures AllTruthful(Apply(w, op))
  {
    if Lands(w, op) {
      hide PutAnnotations, WantedAnnotations, MissingAnnotations, Truthful;
      match op {
        case LoginCreate(_, strategy, cert, _) => PutIsTruthful(strategy, cert);
        case LoginReplace(_, strategy, cert, _) => PutIsTruthful(strategy, cert);
        case SyncWrite(k, read) =>
          ReadIsStored(w, k, read);
          SyncIsTruthful(read.cert, read.annotations);
        case BackfillWrite(k, read, strategy) =>
          ReadIsStored(w, k, read);
          BackfillIsTruthful(read, strategy);
        case Issue(_, cert, _) => NothingIsTruthful(cert);
        case TimePasses(_) =>
        case SweepDelete(_, _, _, _) =>
      }
    }
  }

  lemma NothingIsTruthful(data: CertData)
    ensures Truthful(data, map[])
  {}

  lemma LastAfter(origin: map<Key, Secret>, log: seq<Event>, e: Event, k: Key)
    ensures LastCredential(origin, log + [e], k) ==
      if e.CredentialWritten? && e.k == k then Some((e.cert, e.privateKey)) else LastCredential(origin, log, k)
  {
    assert (log + [e])[..|log|] == log;
  }

  /** A conditional annotation write leaves every credential as it is: it never
      brings an older one back. */
  lemma AnnotationWritesKeepCredentials(w: World, op: Op, k: Key)
    requires VersionsIdentify(w) && (op.SyncWrite? || op.BackfillWrite?)
    ensures k in Apply(w, op).store <==> k in w.store
    ensures k in w.store ==>
      && Apply(w, op).store[k].uid == w.store[k].uid
      && Apply(w, op).store[k].cert == w.store[k].cert
      && Apply(w, op).store[k].privateKey == w.store[k].privateKey
  {
    hide WantedAnnotations, MissingAnnotations;
    if Lands(w, op) {
      ReadIsStored(w, op.k, op.read);
    }
  }

  lemma StepKeepsCredentials(origin: map<Key, Secret>, w: World, op: Op)
    requires VersionsIdentify(w) && CredentialsAreLast(origin, w)
    ensures CredentialsAreLast(origin, Apply(w, op))
  {
    hide PutAnnotations, WantedAnnotations, MissingAnnotations, LastCredential, VersionsIdentify;
    if Lands(w, op) && !op.TimePasses? {
      var w' := Apply(w, op);
      var e := w'.log[|w.log|];
      assert w'.log == w.log + [e];
      forall k | k in w'.store
        ensures LastCredential(origin, w'.log, k) == Some((w'.store[k].cert, w'.store[k].privateKey))
      {
        LastAfter(origin, w.log, e, k);
        if op.SyncWrite? || op.BackfillWrite? {
          AnnotationWritesKeepCredentials(w, op, k);
        }
      }
    }
  }

  /** At the instant of every removal the stored certificate, which the version
      ties to the one judged, had been expired for the grace period. */
  lemma StepKeepsRemovals(w: World, op: Op)
    requires VersionsIdentify(w) && RemovalsAreRightful(w)
    ensures RemovalsAreRightful(Apply(w, op))
  {
    hide PutAnnotations, WantedAnnotations, MissingAnnotations, VersionsIdentify;
    if Lands(w, op) && op.SweepDelete? {
      ReadIsStored(w, op.k, op.read);
    }
  }

  lemma StepKeepsInvariant(origin: map<Key, Secret>, w: World, op: Op)
    requires Invariant(origin, w)
    ensures Invariant(origin, Apply(w, op))
  {
    hide Apply, VersionsIdentify, AllTruthful, CredentialsAreLast, RemovalsAreRightful;
    StepKeepsVersions(w, op);
    StepKeepsTruth(w, op);
    StepKeepsCredentials(origin, w, op);
    StepKeepsRemovals(w, op);
  }

  /** In every interleaving: certificate and key stay together and are those of
      the last login or issuance; annotations describe the certificate beside
      them; removals take only long expired step-up credentials. */
  lemma {:induction false} EveryInterleavingKeepsInvariant(origin: map<Key, Secret>, w: World, ops: seq<Op>)
    requires Invariant(origin, w)
    ensures Invariant(origin, Run(w, ops))
    decreases |ops|
  {
    if ops != [] {
      hide Apply, Invariant;
      StepKeepsInvariant(origin, w, ops[0]);
      EveryInterleavingKeepsInvariant(origin, Apply(w, ops[0]), ops[1..]);
    }
  }

  /** The invariant holds when the service starts, over any Secrets whose
      annotations are true: what is stored is then where credentials come from. */
  lemma InvariantAtStart(w: World)
    requires VersionsIdentify(w) && AllTruthful(w) && w.log == []
    ensures Invariant(w.store, w)
  {}

  /** A Secret under a name that is no step-up name is never deleted. */
  lemma {:induction false} SessionSecretsStay(w: World, ops: seq<Op>, k: Key)
    requires k in w.store && !IsStepUpSecretName(k.name)
    ensures k in Run(w, ops).store
    decreases |ops|
  {
    if ops != [] {
      SessionSecretStays(w, ops[0], k);
      SessionSecretsStay(Apply(w, ops[0]), ops[1..], k);
    }
  }

  lemma SessionSecretStays(w: World, op: Op, k: Key)
    requires k in w.store && !IsStepUpSecretName(k.name)
    ensures k in Apply(w, op).store
  {
    hide PutAnnotations, WantedAnnotations, MissingAnnotations, IsStepUpSecretName;
  }

  /** `Put` is a create and, if the name was taken, an unconditional replace.
      For a session credential the replace always finds the name, whatever
      happened in between, so one of the two calls lands. */
  lemma SessionPutLands(dns: string -> string, namespace: string, username: string,
                        strategy: string, cert: CertData, privateKey: string, w: World, between: seq<Op>)
    requires PutAnnotations(strategy, cert).Ok?
    ensures
      var k := Key(namespace, ClientConfigSecretName(dns, username));
      Lands(w, LoginCreate(k, strategy, cert, privateKey))
      || Lands(Run(w, between), LoginReplace(k, strategy, cert, privateKey))
  {
    hide PutAnnotations;
    var k := Key(namespace, ClientConfigSecretName(dns, username));
    NameFamiliesAreDisjoint(dns, username, username);
    if k in w.store {
      SessionSecretsStay(w, between, k);
    }
  }

  /** Both calls of a `Put` fail, for what others do in between. */
  ghost predicate MissesBoth(w: World, between: seq<Op>, k: Key, strategy: string, cert: CertData, privateKey: string)
  {
    && !Lands(w, LoginCreate(k, strategy, cert, privateKey))
    && !Lands(Run(w, between), LoginReplace(k, strategy, cert, privateKey))
  }

  /** Others can make both calls of a recordable `Put` miss if and only if it
      replaces a step-up credential: the sweep may delete that name in between.
      The login then fails, and nothing of it is stored. */
  lemma BothCallsCanMissIff(w: World, k: Key, strategy: string, cert: CertData, privateKey: string)
    requires PutAnnotations(strategy, cert).Ok?
    ensures (exists between :: MissesBoth(w, between, k, strategy, cert, privateKey))
       <==> k in w.store && IsStepUpSecretName(k.name)
  {
    hide PutAnnotations, IsStepUpSecretName, Run, Apply;
    if between :| MissesBoth(w, between, k, strategy, cert, privateKey) {
      if !IsStepUpSecretName(k.name) {
        SessionSecretsStay(w, between, k);
      }
    }
    if k in w.store && IsStepUpSecretName(k.name) {
      var between := RewriteExpireAndSweep(w, k, strategy, cert, privateKey);
      assert MissesBoth(w, between, k, strategy, cert, privateKey);
    }
  }

  /** A concurrent login rewrites the step-up credential, which then expires and
      is swept. */
  lemma RewriteExpireAndSweep(w: World, k: Key, strategy: string, cert: CertData, privateKey: string)
    returns (between: seq<Op>)
    requires k in w.store && IsStepUpSecretName(k.name) && PutAnnotations(strategy, cert).Ok?
    ensures k !in Run(w, between).store
  {
    hide IsStepUpSecretName;
    var rewrite := LoginReplace(k, strategy, cert, privateKey);
    var w1 := Apply(w, rewrite);
    var due := cert.cert.notAfter + 5 * MINUTE;
    var pass := TimePasses(if due > w.now then due - w.now else 0);
    var w2 := Apply(w1, pass);
    var sweep := SweepDelete(k, w1.store[k], 5 * MINUTE, w2.now);
    between := [rewrite, pass, sweep];
    assert Lands(w2, sweep);
    assert between[1..] == [pass, sweep] && [pass, sweep][1..] == [sweep] && [sweep][1..] == [];
    assert Run(w, between) == Run(w1, [pass, sweep]) == Run(w2, [sweep]) == Run(Apply(w2, sweep), []);
  }

  predicate TookRightfully(e: Event, k: Key)
  {
    e.SecretRemoved? && e.k == k && RightfulRemoval(e)
  }

  /** A name that vanishes was taken by a removal, and rightfully. */
  lemma {:induction false} VanishedWasRemoved(w: World, ops: seq<Op>, k: Key)
    requires VersionsIdentify(w) && RemovalsAreRightful(w) && k in w.store && k !in Run(w, ops).store
    ensures exists i ::
      |w.log| <= i < |Run(w, ops).log| && TookRightfully(Run(w, ops).log[i], k)
    decreases |ops|
  {
    hide PutAnnotations, WantedAnnotations, MissingAnnotations, IsStepUpSecretName, VersionsIdentify;
    var w' := Apply(w, ops[0]);
    StepKeepsVersions(w, ops[0]);
    StepKeepsRemovals(w, ops[0]);
    assert |w.log| <= |w'.log|;
    if k in w'.store {
      VanishedWasRemoved(w', ops[1..], k);
    } else {
      RunExtends(w', ops[1..]);
      var i := |w.log|;
      assert TookRightfully(w'.log[i], k);
      assert Run(w, ops).log[i] == w'.log[i];
    }
  }
}
