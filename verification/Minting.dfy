/** Minting client certificates and storing them
    (internal/helpers/kube/config/build.go). A certificate signing request is
    answered by a signer outside the model: it signs the subject it was asked
    for, for a lifetime of its own choice, or nothing. */
module Minting {
  import opened Results
  import opened Storage
  import opened SecretStore
  import opened Cluster
  import opened Interleavings
  import opened CredentialPut
  import opened UserInfo

  /** What the cluster offers to one issuance. */
  datatype Signing = Signing(ca: Option<string>, hostPort: Option<string>, answer: Signed)

  datatype Signed =
    | NothingSent
    | NothingSigned
    | Certified(notBefore: int, notAfter: int, serial: nat, privateKey: string)

  /** A signing request that was sent. */
  datatype Request = Request(name: string, groups: seq<string>, duration: int, stepUp: bool)

  datatype MintError = GroupsRefused | CaUnavailable | NotInCluster | NotCertified | NotStored(why: PutError)

  datatype Kubeconfig = Kubeconfig(user: string, cert: CertData, privateKey: string, ca: string, server: string)

  /** All an issuance needs from the cluster is there, or was found earlier. */
  predicate Offered(signing: Signing, ca: string, url: string)
  {
    (ca != "" || signing.ca.Some?) && (url != "" || signing.hostPort.Some?) && signing.answer.Certified?
  }

  /** What `checkGroups` is to admit. */
  predicate Mintable(groups: seq<string>, stepUp: bool)
  {
    ValidGroups(groups) && if stepUp then !NoneReserved(groups) else NoneReserved(groups)
  }

  ghost predicate AllMintable(requests: seq<Request>)
  {
    forall i :: 0 <= i < |requests| ==> Mintable(requests[i].groups, requests[i].stepUp)
  }

  /** An identity built by `NewDefaultUser` is refused for a separator in a
      group and for nothing else; adding a step-up group changes nothing in
      that, and makes it a step-up identity and no longer a session one. */
  lemma GuardedIdentitiesAreMintable(asserted: seq<string>, level: int)
    ensures Mintable(Kept(asserted), false) <==> ValidGroups(Kept(asserted))
    ensures Mintable(Kept(asserted) + [StepUpGroup(level)], true) <==> ValidGroups(Kept(asserted))
    ensures !Mintable(Kept(asserted), true)
    ensures !Mintable(Kept(asserted) + [StepUpGroup(level)], false)
  {
    hide IsReserved, Kept, StepUpGroup;
    var up := Kept(asserted) + [StepUpGroup(level)];
    SplitIsExact(asserted);
    StepUpGroupIsReserved(level);
    StepUpGroupIsOneLine(level);
    assert up[|up| - 1] == StepUpGroup(level);
    assert forall i :: 0 <= i < |Kept(asserted)| ==> up[i] == Kept(asserted)[i];
  }

  lemma {:induction false} DecimalIsOneLine(n: nat)
    ensures '\n' !in Decimal(n)
  {
    assert '\n' !in "0123456789";
    if n >= 10 {
      DecimalIsOneLine(n / 10);
    }
  }

  lemma StepUpGroupIsOneLine(level: int)
    ensures '\n' !in StepUpGroup(level)
  {
    hide Decimal;
    if level < 0 { DecimalIsOneLine(-level); } else { DecimalIsOneLine(level); }
    assert '\n' !in RESERVED_GROUP_PREFIX && '\n' !in "-";
  }

  /** How one group list is read: reserved groups are counted, and the first
      one ends it for a session. */
  method CheckGroups(user: DefaultUser, stepUp: bool) returns (ok: bool)
    ensures ok <==> Mintable(user.groups, stepUp)
  {
    if !ValidGroups(user.groups) {
      return false;
    }
    var reserved := 0;
    for i := 0 to |user.groups|
      invariant reserved > 0 <==> !NoneReserved(user.groups[..i])
      invariant !stepUp ==> reserved == 0
    {
      assert user.groups[..i + 1] == user.groups[..i] + [user.groups[i]];
      assert NoneReserved(user.groups[..i + 1]) <==> NoneReserved(user.groups[..i]) && !IsReserved(user.groups[i]) by {
        if NoneReserved(user.groups[..i + 1]) {
          assert user.groups[..i + 1][i] == user.groups[i];
          assert forall j :: 0 <= j < i ==> user.groups[..i][j] == user.groups[..i + 1][j];
        }
      }
      if !IsReserved(user.groups[i]) {
        continue;
      }
      if !stepUp {
        assert IsReserved(user.groups[i]);
        return false;
      }
      reserved := reserved + 1;
    }
    assert user.groups[..|user.groups|] == user.groups;
    return !(stepUp && reserved == 0);
  }

  class Generator {
    var caData: string
    var kubernetesURL: string
    var certDuration: int
    var requests: seq<Request>

    constructor (caData: string, kubernetesURL: string, certDuration: int)
      ensures this.caData == caData && this.kubernetesURL == kubernetesURL && this.certDuration == certDuration
      ensures requests == []
    {
      this.caData, this.kubernetesURL, this.certDuration := caData, kubernetesURL, certDuration;
      requests := [];
    }

    /** The credential `issue` is to leave in the store. */
    function Credential(strategy: string, user: DefaultUser, signed: Signed, stepUp: bool): AuthInfo
      reads user
      requires signed.Certified?
    {
      AuthInfo(strategy,
               Readable(Certificate(user.name, user.groups, signed.notBefore, signed.notAfter), signed.serial),
               signed.privateKey, stepUp)
    }

    /** Mints a certificate for exactly the groups of `user`, and stores it. */
    method Issue(c: ApiServer, dns: string -> string, namespace: string, strategy: string, user: DefaultUser,
                 duration: int, stepUp: bool, signing: Signing, ghost origin: map<Key, Secret>)
      returns (r: Result<AuthInfo, MintError>)
      requires Invariant(origin, c.w)
      modifies this`caData, this`kubernetesURL, this`requests, c
      ensures Invariant(origin, c.w) && old(c.w.log) <= c.w.log
      ensures requests == old(requests)
           || requests == old(requests) + [Request(user.name, user.groups, duration, stepUp)]
      ensures requests == old(requests) ==> r.Err? && c.w == old(c.w) && c.schedule == old(c.schedule)
      ensures var k := PutKey(dns, namespace, user.name, stepUp);
        && Acts(old(c.w), old(c.schedule), c.w, c.schedule, if r.Ok? then PutSteps(k, r.value) else NoStep())
        && SparedStay(old(c.w), old(c.schedule), c.w, if r.Ok? then {k} else {})
      ensures r.Ok? ==>
        && (old(caData) != "" || signing.ca.Some?) && (old(kubernetesURL) != "" || signing.hostPort.Some?)
        && signing.answer.Certified? && r.value == Credential(strategy, user, signing.answer, stepUp)
        && JustStored(c.w, PutKey(dns, namespace, user.name, stepUp), r.value)
        && caData == (if old(caData) != "" then old(caData) else signing.ca.value)
        && kubernetesURL
             == (if old(kubernetesURL) != "" then old(kubernetesURL) else "https://" + signing.hostPort.value)
        && r.value.strategy == strategy && r.value.stepUp == stepUp && r.value.privateKey == signing.answer.privateKey
        && r.value.cert.Readable?
        && r.value.cert.cert.commonName == user.name && r.value.cert.cert.groups == user.groups
        && r.value.cert.cert.notBefore == signing.answer.notBefore
        && r.value.cert.cert.notAfter == signing.answer.notAfter
      ensures old(c.schedule) == [] ==>
        c.schedule == [] && OnlyChanged(old(c.w), c.w, PutKey(dns, namespace, user.name, stepUp))
      ensures old(c.schedule) == [] ==>
        (r.Ok? <==> Offered(signing, old(caData), old(kubernetesURL)) && strategy != "" && ValidGroups(user.groups))
    {
      hide Invariant, ClientConfigSecretName, StepUpSecretName, ValidGroups, Acts, SparedStay, PutSteps;
      NothingPut(origin, c.w, c.schedule, c.w, c.schedule);
      if caData == "" {
        if signing.ca.None? {
          return Err(CaUnavailable);
        }
        caData := signing.ca.value;
      }
      if kubernetesURL == "" {
        if signing.hostPort.None? {
          return Err(NotInCluster);
        }
        kubernetesURL := "https://" + signing.hostPort.value;
      }
      if signing.answer.NothingSent? {
        return Err(NotCertified);
      }
      requests := requests + [Request(user.name, user.groups, duration, stepUp)];
      if signing.answer.NothingSigned? {
        return Err(NotCertified);
      }
      var nfo := Credential(strategy, user, signing.answer, stepUp);
      var stored := Put(c, dns, namespace, user.name, nfo, origin);
      if stored.Err? {
        return Err(NotStored(stored.error));
      }
      return Ok(nfo);
    }

    /** A session credential: nothing is sent for an identity that is not
        mintable. */
    method Generate(c: ApiServer, dns: string -> string, namespace: string, strategy: string, user: DefaultUser,
                    signing: Signing, ghost origin: map<Key, Secret>)
      returns (r: Result<Kubeconfig, MintError>, notAfter: int)
      requires Invariant(origin, c.w) && AllMintable(requests)
      modifies this`caData, this`kubernetesURL, this`requests, c
      ensures Invariant(origin, c.w) && AllMintable(requests)
      ensures !Mintable(user.groups, false) ==>
        r == Err(GroupsRefused) && requests == old(requests) && c.w == old(c.w) && c.schedule == old(c.schedule)
      ensures requests == old(requests)
           || requests == old(requests) + [Request(user.name, user.groups, certDuration, false)]
      ensures requests == old(requests) ==> r.Err? && c.w == old(c.w)
      ensures var k := PutKey(dns, namespace, user.name, false);
        && (r.Ok? ==> signing.answer.Certified?)
        && Acts(old(c.w), old(c.schedule), c.w, c.schedule,
                if r.Ok? then PutSteps(k, Credential(strategy, user, signing.answer, false)) else NoStep())
        && SparedStay(old(c.w), old(c.schedule), c.w, if r.Ok? then {k} else {})
      ensures r.Ok? ==>
        && signing.answer.Certified? && notAfter == signing.answer.notAfter
        && r.value == Kubeconfig(user.name, Credential(strategy, user, signing.answer, false).cert,
                                 signing.answer.privateKey, caData, kubernetesURL)
        && JustStored(c.w, PutKey(dns, namespace, user.name, false), Credential(strategy, user, signing.answer, false))
      ensures r.Ok? ==>
        && (old(caData) != "" || signing.ca.Some?) && (old(kubernetesURL) != "" || signing.hostPort.Some?)
        && r.value.ca == (if old(caData) != "" then old(caData) else signing.ca.value)
        && r.value.server
             == (if old(kubernetesURL) != "" then old(kubernetesURL) else "https://" + signing.hostPort.value)
      ensures old(c.schedule) == [] ==>
        && OnlyChanged(old(c.w), c.w, PutKey(dns, namespace, user.name, false))
        && (r.Ok? <==>
              Offered(signing, old(caData), old(kubernetesURL)) && strategy != "" && Mintable(user.groups, false))
    {
      hide Invariant, ClientConfigSecretName, StepUpSecretName, JustStored, Acts, SparedStay, PutSteps;
      NothingPut(origin, c.w, c.schedule, c.w, c.schedule);
      notAfter := 0;
      var ok := CheckGroups(user, false);
      if !ok {
        return Err(GroupsRefused), notAfter;
      }
      var issued := Issue(c, dns, namespace, strategy, user, certDuration, false, signing, origin);
      if issued.Err? {
        return Err(issued.error), notAfter;
      }
      notAfter := issued.value.cert.cert.notAfter;
      r := Ok(Kubeconfig(user.name, issued.value.cert, issued.value.privateKey, caData, kubernetesURL));
    }

    /** A step-up credential, under a name of its own. */
    method GenerateStepUp(c: ApiServer, dns: string -> string, namespace: string, strategy: string, user: DefaultUser,
                          ttl: int, signing: Signing, ghost origin: map<Key, Secret>)
      returns (r: Result<int, MintError>)
      requires Invariant(origin, c.w) && AllMintable(requests)
      modifies this`caData, this`kubernetesURL, this`requests, c
      ensures Invariant(origin, c.w) && AllMintable(requests)
      ensures !Mintable(user.groups, true) ==>
        r == Err(GroupsRefused) && requests == old(requests) && c.w == old(c.w) && c.schedule == old(c.schedule)
      ensures requests == old(requests)
           || requests == old(requests) + [Request(user.name, user.groups, ttl, true)]
      ensures requests == old(requests) ==> r.Err? && c.w == old(c.w)
      ensures var k := PutKey(dns, namespace, user.name, true);
        && (r.Ok? ==> signing.answer.Certified?)
        && Acts(old(c.w), old(c.schedule), c.w, c.schedule,
                if r.Ok? then PutSteps(k, Credential(strategy, user, signing.answer, true)) else NoStep())
        && SparedStay(old(c.w), old(c.schedule), c.w, if r.Ok? then {k} else {})
      ensures r.Ok? ==>
        && signing.answer.Certified? && r.value == signing.answer.notAfter
        && JustStored(c.w, PutKey(dns, namespace, user.name, true), Credential(strategy, user, signing.answer, true))
        && requests == old(requests) + [Request(user.name, user.groups, ttl, true)]
      ensures old(c.schedule) == [] ==>
        && OnlyChanged(old(c.w), c.w, PutKey(dns, namespace, user.name, true))
        && (r.Ok? <==>
              Offered(signing, old(caData), old(kubernetesURL)) && strategy != "" && Mintable(user.groups, true))
    {
      hide Invariant, ClientConfigSecretName, StepUpSecretName, JustStored, Acts, SparedStay, PutSteps;
      NothingPut(origin, c.w, c.schedule, c.w, c.schedule);
      var ok := CheckGroups(user, true);
      if !ok {
        return Err(GroupsRefused);
      }
      var issued := Issue(c, dns, namespace, strategy, user, ttl, true, signing, origin);
      if issued.Err? {
        return Err(issued.error);
      }
      return Ok(issued.value.cert.cert.notAfter);
    }
  }
}
