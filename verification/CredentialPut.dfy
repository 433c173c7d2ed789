/** Storing an issued credential: secretStore.Put
    (internal/helpers/kube/config/storage/storage.go) as its two calls. */
module CredentialPut {
  import opened Results
  import opened Storage
  import opened SecretStore
  import opened Cluster
  import opened Interleavings

  datatype AuthInfo = AuthInfo(strategy: string, cert: CertData, privateKey: string, stepUp: bool)

  datatype PutError = Identity(why: IdentityError) | Api(answer: Answer)

  function PutKey(dns: string -> string, namespace: string, name: string, stepUp: bool): Key
  {
    Key(namespace, if stepUp then StepUpSecretName(dns, name) else ClientConfigSecretName(dns, name))
  }

  lemma PutKeyMeans(dns: string -> string, namespace: string, name: string)
    ensures PutKey(dns, namespace, name, false) == Key(namespace, dns(name) + "-clientconfig")
    ensures PutKey(dns, namespace, name, true) == Key(namespace, dns(name) + "-clientconfig-stepup")
  {
    assert dns(name) + "-clientconfig" + "-stepup" == dns(name) + "-clientconfig-stepup";
  }

  /** The Secret under `k` is exactly the one `nfo` asks for, and that write is
      the latest thing the server did. */
  ghost predicate JustStored(w: World, k: Key, nfo: AuthInfo)
  {
    && k in w.store
    && w.store[k].cert == nfo.cert && w.store[k].privateKey == nfo.privateKey
    && PutAnnotations(nfo.strategy, nfo.cert) == Ok(w.store[k].annotations)
    && w.log != [] && w.log[|w.log| - 1] == CredentialWritten(k, nfo.cert, nfo.privateKey)
  }

  /** Every other Secret is as it was. */
  ghost predicate OnlyChanged(w: World, w': World, k: Key)
  {
    w'.store - {k} == w.store - {k}
  }

  /** Just stored, in full. */
  lemma JustStoredMeans(w: World, k: Key, nfo: AuthInfo)
    requires JustStored(w, k, nfo)
    ensures k in w.store && w.store[k].cert == nfo.cert && w.store[k].privateKey == nfo.privateKey
    ensures nfo.cert.Readable? && w.store[k].annotations == map[
      NotBefore := Instant(nfo.cert.cert.notBefore), NotAfter := Instant(nfo.cert.cert.notAfter),
      Strategy := Text(nfo.strategy), Groups := Text(JoinGroups(nfo.cert.cert.groups))]
  {
    RecordedIs(nfo.strategy, nfo.cert);
  }

  /** The Secret under `k`, if any, is as it was. */
  predicate Unchanged(w: World, w': World, k: Key)
  {
    if k in w.store then k in w'.store && w'.store[k] == w.store[k] else k !in w'.store
  }

  /** The Secrets of other users, and this user's other one, have other names. */
  lemma OtherUsersAreSpared(dns: string -> string, namespace: string, name: string, stepUp: bool,
                            w: World, s: seq<Slot>, w': World)
    ensures SparedStay(w, s, w', {PutKey(dns, namespace, name, stepUp)}) ==>
      forall other: string ::
        (dns(other) != dns(name) || stepUp) && Spares(s, PutKey(dns, namespace, other, false)) ==>
          Credential(w', PutKey(dns, namespace, other, false)) == Credential(w, PutKey(dns, namespace, other, false))
    ensures OnlyChanged(w, w', PutKey(dns, namespace, name, stepUp)) ==>
      forall other: string, stepUp': bool :: dns(other) != dns(name) || stepUp' != stepUp ==>
        Unchanged(w, w', PutKey(dns, namespace, other, stepUp'))
  {
    hide Spares, Credential, ClientConfigSecretName, StepUpSecretName, IsStepUpSecretName;
    var k := PutKey(dns, namespace, name, stepUp);
    forall other: string
      ensures !IsStepUpSecretName(PutKey(dns, namespace, other, false).name)
      ensures dns(other) != dns(name) || stepUp ==> PutKey(dns, namespace, other, false) != k
      ensures forall stepUp': bool :: dns(other) != dns(name) || stepUp' != stepUp ==>
        PutKey(dns, namespace, other, stepUp') != k
    {
      NameFamiliesAreDisjoint(dns, other, name);
      NameFamiliesAreDisjoint(dns, name, other);
      NamesTellUsersApart(dns, other, name);
    }
    if OnlyChanged(w, w', k) {
      hide OnlyChanged, Unchanged, PutKey;
      forall other: string, stepUp': bool | dns(other) != dns(name) || stepUp' != stepUp
        ensures Unchanged(w, w', PutKey(dns, namespace, other, stepUp'))
      {
        ChangedElsewhere(w, w', k, PutKey(dns, namespace, other, stepUp'));
      }
    }
  }

  lemma ChangedElsewhere(w: World, w': World, k: Key, k': Key)
    requires OnlyChanged(w, w', k) && k' != k
    ensures Unchanged(w, w', k')
  {
    assert k' in w.store <==> k' in w.store - {k};
    assert k' in w'.store <==> k' in w'.store - {k};
  }

  function CreateStep(k: Key, nfo: AuthInfo): Op
  {
    LoginCreate(k, nfo.strategy, nfo.cert, nfo.privateKey)
  }

  function ReplaceStep(k: Key, nfo: AuthInfo): Op
  {
    LoginReplace(k, nfo.strategy, nfo.cert, nfo.privateKey)
  }

  /** All that a `Put` of `nfo` may do itself. */
  function PutSteps(k: Key, nfo: AuthInfo): Op -> bool
  {
    (op: Op) => op == CreateStep(k, nfo) || op == ReplaceStep(k, nfo)
  }

  lemma LoginWriteIsStep(origin: map<Key, Secret>, w: World, k: Key, nfo: AuthInfo)
    requires Invariant(origin, w) && PutAnnotations(nfo.strategy, nfo.cert).Ok?
    ensures
      var ann := PutAnnotations(nfo.strategy, nfo.cert).value;
      if k in w.store then
        var w' := Replace(w, k, nfo.cert, nfo.privateKey, ann);
        Invariant(origin, w') && JustStored(w', k, nfo) && w' == Apply(w, ReplaceStep(k, nfo))
      else
        var w' := Create(w, k, nfo.cert, nfo.privateKey, ann);
        Invariant(origin, w') && JustStored(w', k, nfo) && w' == Apply(w, CreateStep(k, nfo))
  {
    hide Invariant, PutAnnotations;
    StepKeepsInvariant(origin, w, LoginReplace(k, nfo.strategy, nfo.cert, nfo.privateKey));
    StepKeepsInvariant(origin, w, LoginCreate(k, nfo.strategy, nfo.cert, nfo.privateKey));
  }

  /** `Put`. A credential whose identity cannot be recorded is refused before
      any call. Success means exactly this Secret is stored, and failure that
      nothing of it is: among the others' steps, `Put` takes no step of its own
      then. A session credential can only be lost to a call that fails, never to
      another writer. */
  method Put(c: ApiServer, dns: string -> string, namespace: string, name: string, nfo: AuthInfo,
             ghost origin: map<Key, Secret>)
    returns (r: Result<(), PutError>)
    requires Invariant(origin, c.w)
    modifies c
    ensures Invariant(origin, c.w) && old(c.w.log) <= c.w.log
    ensures r.Ok? ==> JustStored(c.w, PutKey(dns, namespace, name, nfo.stepUp), nfo)
    ensures PutAnnotations(nfo.strategy, nfo.cert).Err? ==>
      r == Err(Identity(PutAnnotations(nfo.strategy, nfo.cert).error)) && c.w == old(c.w)
    ensures r.Err? && PutAnnotations(nfo.strategy, nfo.cert).Ok? ==>
      r.error == Api(Failed) || (r.error == Api(NotFound) && nfo.stepUp)
    ensures var k := PutKey(dns, namespace, name, nfo.stepUp);
      && Acts(old(c.w), old(c.schedule), c.w, c.schedule, if r.Ok? then PutSteps(k, nfo) else NoStep())
      && SparedStay(old(c.w), old(c.schedule), c.w, if r.Ok? then {k} else {})
    ensures r.Ok? ==>
      var k := PutKey(dns, namespace, name, nfo.stepUp);
      k in c.w.store && c.w.store[k].cert == nfo.cert && c.w.store[k].privateKey == nfo.privateKey
      && nfo.cert.Readable? && c.w.store[k].annotations == map[
           NotBefore := Instant(nfo.cert.cert.notBefore), NotAfter := Instant(nfo.cert.cert.notAfter),
           Strategy := Text(nfo.strategy), Groups := Text(JoinGroups(nfo.cert.cert.groups))]
    ensures forall other: string ::
      (dns(other) != dns(name) || nfo.stepUp) && Spares(old(c.schedule), PutKey(dns, namespace, other, false)) ==>
        Credential(c.w, PutKey(dns, namespace, other, false))
          == Credential(old(c.w), PutKey(dns, namespace, other, false))
    ensures old(c.schedule) == [] && PutAnnotations(nfo.strategy, nfo.cert).Ok? ==> r.Ok?
    ensures old(c.schedule) == [] ==>
      c.schedule == [] && OnlyChanged(old(c.w), c.w, PutKey(dns, namespace, name, nfo.stepUp))
    ensures old(c.schedule) == [] ==>
      forall other: string, stepUp: bool :: dns(other) != dns(name) || stepUp != nfo.stepUp ==>
        Unchanged(old(c.w), c.w, PutKey(dns, namespace, other, stepUp))
  {
    hide Invariant, PutAnnotations, IsStepUpSecretName, Apply, ClientConfigSecretName, StepUpSecretName;
    hide Acts, SparedStay, WritesCredential, Spares, Credential, Unchanged;
    RecordedIs(nfo.strategy, nfo.cert);
    var k := PutKey(dns, namespace, name, nfo.stepUp);
    ghost var w0, s0 := c.w, c.schedule;
    var ann := PutAnnotations(nfo.strategy, nfo.cert);
    if ann.Err? {
      NothingPut(origin, w0, s0, c.w, c.schedule);
      SparedMore(w0, s0, c.w, k);
      OtherUsersAreSpared(dns, namespace, name, nfo.stepUp, w0, s0, c.w);
      return Err(Identity(ann.error));
    }
    OthersKeep(origin, c.w, c.schedule);
    LoginWriteIsStep(origin, AfterOthers(c.w, c.schedule), k, nfo);
    ActsOthers(w0, s0, NoStep());
    ActsOwn(w0, s0, CreateStep(k, nfo), PutSteps(k, nfo));
    var created := c.CreateSecret(k, nfo.cert, nfo.privateKey, ann.value);
    if created == Done {
      OnlyPut(origin, w0, s0, c.w, c.schedule, k, nfo);
    OtherUsersAreSpared(dns, namespace, name, nfo.stepUp, w0, s0, c.w);
      return Ok(());
    }
    if created != AlreadyExists {
      NothingPut(origin, w0, s0, c.w, c.schedule);
      SparedMore(w0, s0, c.w, k);
      OtherUsersAreSpared(dns, namespace, name, nfo.stepUp, w0, s0, c.w);
      return Err(Api(created));
    }
    if !nfo.stepUp {
      NameFamiliesAreDisjoint(dns, name, name);
      if c.schedule != [] {
        SessionSecretsStay(c.w, c.schedule[0].ops, k);
      }
    }
    ghost var w1, s1 := c.w, c.schedule;
    OthersKeep(origin, c.w, c.schedule);
    LoginWriteIsStep(origin, AfterOthers(c.w, c.schedule), k, nfo);
    ActsOthers(w0, s0, PutSteps(k, nfo));
    ActsOthers(w1, s1, NoStep());
    ActsOwn(w1, s1, ReplaceStep(k, nfo), PutSteps(k, nfo));
    var replaced := c.ReplaceSecret(k, nfo.cert, nfo.privateKey, ann.value);
    if replaced != Done {
      ActsThen(w0, s0, w1, s1, c.w, c.schedule, NoStep());
      NothingPut(origin, w0, s0, c.w, c.schedule);
      SparedMore(w0, s0, c.w, k);
      OtherUsersAreSpared(dns, namespace, name, nfo.stepUp, w0, s0, c.w);
      return Err(Api(replaced));
    }
    ActsThen(w0, s0, w1, s1, c.w, c.schedule, PutSteps(k, nfo));
    OnlyPut(origin, w0, s0, c.w, c.schedule, k, nfo);
    OtherUsersAreSpared(dns, namespace, name, nfo.stepUp, w0, s0, c.w);
    return Ok(());
  }

  lemma SparedMore(w: World, s: seq<Slot>, w': World, k: Key)
    ensures SparedStay(w, s, w', {}) ==> SparedStay(w, s, w', {k})
  {
    hide Spares, Credential, IsStepUpSecretName;
  }

  /** A `Put` that takes no step touches no session credential. */
  lemma NothingPut(origin: map<Key, Secret>, w: World, s: seq<Slot>, w': World, s': seq<Slot>)
    requires Invariant(origin, w)
    ensures w == w' && s == s' ==> Acts(w, s, w', s', NoStep())
    ensures Acts(w, s, w', s', NoStep()) ==> SparedStay(w, s, w', {})
  {
    hide Invariant, Acts;
    ActsNot(w, s, NoStep());
    if Acts(w, s, w', s', NoStep()) {
      ActorsSpare(origin, w, s, w', s', NoStep(), {});
    }
  }

  lemma OnlyPut(origin: map<Key, Secret>, w: World, s: seq<Slot>, w': World, s': seq<Slot>, k: Key, nfo: AuthInfo)
    requires Invariant(origin, w) && Acts(w, s, w', s', PutSteps(k, nfo))
    ensures SparedStay(w, s, w', {k})
  {
    hide Invariant, Acts;
    ActorsSpare(origin, w, s, w', s', PutSteps(k, nfo), {k});
  }
}
