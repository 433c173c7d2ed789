/** The OIDC login and the step-up login, from the request to the minted
    credential (internal/routes/auth/oidc/login.go, stepup.go). What the outside
    answers is an input, and so every property holds for every answer. */
module OidcLogin {
  import opened Results
  import opened Storage
  import opened Durations
  import opened SecretStore
  import opened Cluster
  import opened Interleavings
  import opened CredentialPut
  import opened UserInfo
  import opened Minting
  import opened OidcClaims
  import opened LoginAnswer
  import RestAction

  // ---------- Step-up policy (stepup.go) ----------

  const STEP_UP_LEVEL: int := 2
  const DEFAULT_MAX_AGE: Duration := 5 * MINUTE
  const DEFAULT_TTL: Duration := 15 * MINUTE
  const MIN_TTL: Duration := 10 * MINUTE

  datatype StepUpSpec = StepUpSpec(acrValues: seq<string>, maxAge: Option<Duration>, ttl: Option<Duration>)

  datatype StepUpConfig = StepUpConfig(acrValues: seq<string>, maxAge: Duration, ttl: Duration)

  function ResolveStepUp(spec: Option<StepUpSpec>): Option<StepUpConfig>
  {
    match spec
    case None => None
    case Some(s) =>
      Some(StepUpConfig(s.acrValues,
                        if s.maxAge.Some? then s.maxAge.value else DEFAULT_MAX_AGE,
                        if s.ttl.Some? then s.ttl.value else DEFAULT_TTL))
  }

  /** Unicode's White_Space. */
  predicate IsSpace(c: char)
  {
    var n := c as int;
    || 9 <= n <= 13 || n == 0x20 || n == 0x85 || n == 0xA0 || n == 0x1680
    || 0x2000 <= n <= 0x200A || n == 0x2028 || n == 0x2029 || n == 0x202F || n == 0x205F || n == 0x3000
  }

  predicate ProperAcr(v: string)
  {
    v != "" && forall i :: 0 <= i < |v| ==> !IsSpace(v[i])
  }

  /** A step-up policy that can grant anything, and only to a token that names
      an assurance level. */
  predicate Proper(cfg: StepUpConfig)
  {
    && cfg.acrValues != [] && cfg.maxAge > 0 && cfg.ttl >= MIN_TTL
    && forall i :: 0 <= i < |cfg.acrValues| ==> ProperAcr(cfg.acrValues[i])
  }

  function CheckStepUp(cfg: Option<StepUpConfig>, tok: IdToken, now: int): Option<Cause>
  {
    if cfg.None? then Some(StepUpNotEnabled)
    else if !Proper(cfg.value) then Some(StepUpMisconfigured)
    else if tok.acr !in cfg.value.acrValues then Some(InsufficientAssurance)
    else if tok.authTime == ZERO_TIME then Some(StaleAuthentication)
    else if Sub(now, tok.authTime) > cfg.value.maxAge then Some(StaleAuthentication)
    else None
  }

  /** The ID token's own claims prove a step-up. An `auth_time` in the future
      passes, one of year 1 does not, and the greatest `maxAge` sets no limit. */
  predicate Proves(cfg: Option<StepUpConfig>, claims: Claims, now: int)
  {
    && cfg.Some? && Proper(cfg.value)
    && Given(claims, "acr") && claims["acr"].Str? && claims["acr"].text in cfg.value.acrValues
    && Given(claims, "auth_time") && claims["auth_time"].Num?
    && var at := Truncated(claims["auth_time"].number) * SECOND;
       && at != ZERO_TIME
       && (now <= at + cfg.value.maxAge || cfg.value.maxAge == MAX_DURATION)
  }

  /** Whatever UserInfo or a RESTAction said, a step-up is decided by the ID
      token: `tok` is any identity that kept the token's acr and auth time. */
  lemma StepUpIsProvedByTheToken(cfg: Option<StepUpConfig>, claims: Claims, tok: IdToken, now: int)
    requires tok.acr == StringOf(claims, "acr") && tok.authTime == AuthTimeOf(claims)
    ensures CheckStepUp(cfg, tok, now).None? <==> Proves(cfg, claims, now)
  {
    if cfg.Some? && Proper(cfg.value) && tok.acr in cfg.value.acrValues {
      var i :| 0 <= i < |cfg.value.acrValues| && cfg.value.acrValues[i] == tok.acr;
      assert ProperAcr(tok.acr);
    }
  }

  /** A policy left to its defaults is proper exactly if its values are, admits
      nothing older than five minutes and grants fifteen; one that sets its
      limits is held to them; without a spec there is none. */
  lemma LimitsHold(acrValues: seq<string>, maxAge: Duration, ttl: Duration, tok: IdToken, now: int)
    ensures ResolveStepUp(None).None?
    ensures var cfg := ResolveStepUp(Some(StepUpSpec(acrValues, None, None)));
      && (cfg.Some? && Proper(cfg.value) <==> acrValues != [] && forall v :: v in acrValues ==> ProperAcr(v))
      && cfg.value.acrValues == acrValues
      && cfg.value.maxAge == 300 * 1_000_000_000 && cfg.value.ttl == 900 * 1_000_000_000
      && (CheckStepUp(cfg, tok, now).None? ==> now <= tok.authTime + 300 * 1_000_000_000)
    ensures var cfg := ResolveStepUp(Some(StepUpSpec(acrValues, Some(maxAge), Some(ttl))));
      && cfg == Some(StepUpConfig(acrValues, maxAge, ttl))
      && (CheckStepUp(cfg, tok, now).None? ==>
            && maxAge > 0 && ttl >= 600 * 1_000_000_000 && tok.acr in acrValues && tok.acr != ""
            && (now <= tok.authTime + maxAge || maxAge == MAX_DURATION))
  {
    if tok.acr in acrValues && Proper(StepUpConfig(acrValues, maxAge, ttl)) {
      var i :| 0 <= i < |acrValues| && acrValues[i] == tok.acr;
      assert ProperAcr(acrValues[i]);
    }
    if forall i :: 0 <= i < |acrValues| ==> ProperAcr(acrValues[i]) {
      forall v | v in acrValues
        ensures ProperAcr(v)
      {
        var i :| 0 <= i < |acrValues| && acrValues[i] == v;
      }
    }
  }

  /** What makes an acr value improper. */
  lemma ImproperAcrs(v: string)
    ensures ProperAcr(v) <==> v != "" && forall i :: 0 <= i < |v| ==>
      v[i] as int !in {9, 10, 11, 12, 13, 0x20, 0x85, 0xA0, 0x1680, 0x2000, 0x2001, 0x2002, 0x2003, 0x2004, 0x2005,
                       0x2006, 0x2007, 0x2008, 0x2009, 0x200A, 0x2028, 0x2029, 0x202F, 0x205F, 0x3000}
  {}

  // ---------- Who is admitted (login.go) ----------

  predicate Admitted(allowed: seq<string>, groups: seq<string>)
  {
    allowed == [] || exists i :: 0 <= i < |groups| && groups[i] in allowed
  }

  method CheckAllowedGroups(allowed: seq<string>, user: DefaultUser) returns (ok: bool)
    ensures ok <==> Admitted(allowed, user.groups)
  {
    if allowed == [] {
      return true;
    }
    for i := 0 to |user.groups|
      invariant forall j :: 0 <= j < i ==> user.groups[j] !in allowed
    {
      if user.groups[i] in allowed {
        return true;
      }
    }
    return false;
  }

  /** A reserved group admits nobody: it is as if it were not listed, except
      that a list of nothing else still admits no one. */
  lemma ReservedGroupsAdmitNobody(allowed: seq<string>, asserted: seq<string>)
    requires allowed != []
    ensures Admitted(allowed, Kept(asserted)) <==> exists g :: g in asserted && g in Kept(allowed)
  {
    hide Kept, IsReserved;
    if i :| 0 <= i < |Kept(asserted)| && Kept(asserted)[i] in allowed {
      var g := Kept(asserted)[i];
      KeptMembers(asserted, g);
      KeptMembers(allowed, g);
    }
    if g :| g in asserted && g in Kept(allowed) {
      KeptMembers(allowed, g);
      KeptMembers(asserted, g);
      assert g in Kept(asserted);
    }
  }

  // ---------- authenticate ----------

  datatype OidcConfig = OidcConfig(
    issuer: string,
    clientID: string,
    userInfoURL: string,
    restAction: Option<Key>,
    stepUp: Option<StepUpSpec>,
    allowedGroups: seq<string>)

  /** A login request, and all that the outside answers to it. Each answer map
      comes with the order in which Go happens to iterate it. */
  datatype Login = Login(
    name: string,
    code: string,
    config: Option<OidcConfig>,
    token: Option<TokenAnswer>,
    userInfo: Option<Claims>,
    resolved: Option<Claims>,
    legacy: Option<Claims>,
    uid: string,
    now: int)

  /** The identity the identity provider answers for. */
  function Answered(l: Login): IdToken
    requires l.config.Some? && l.token.Some? && l.token.value.claims.Some?
    requires Asks(l.token.value.claims.value, l.config.value.userInfoURL) ==> l.userInfo.Some?
  {
    var m := l.token.value.claims.value;
    TokenIdentity(m, l.token.value.accessToken, if Asks(m, l.config.value.userInfoURL) then l.userInfo.value else map[])
  }

  lemma AnsweredIs(l: Login)
    requires Exchanged(l)
    ensures
      var m := l.token.value.claims.value;
      Answered(l) == TokenIdentity(m, l.token.value.accessToken,
                                   if Asks(m, l.config.value.userInfoURL) then l.userInfo.value else map[])
      && Answered(l).acr == StringOf(m, "acr") && Answered(l).authTime == AuthTimeOf(m)
  {}

  predicate Exchanged(l: Login)
  {
    && l.name != "" && l.code != "" && l.config.Some? && l.token.Some?
    && Reads(l.token.value, l.config.value.issuer, l.config.value.clientID, l.config.value.userInfoURL,
             l.now, l.userInfo)
  }

  /** The RESTAction's answer suffices without the fallback. */
  predicate ResolvedAtOnce(l: Login)
  {
    l.resolved.Some? && Usable(l.resolved.value) && OnlyKnownKeys(l.resolved.value)
  }

  predicate NeedsFallback(l: Login)
    requires l.config.Some?
  {
    l.config.value.restAction.Some? && !ResolvedAtOnce(l)
  }

  /** The identity completed by the RESTAction, if there is one. */
  function Completed(l: Login): IdToken
    requires Exchanged(l)
  {
    if l.config.value.restAction.None? then Answered(l)
    else if ResolvedAtOnce(l) then Merged(Answered(l), l.resolved.value)
    else if l.legacy.Some? then Merged(Answered(l), l.legacy.value)
    else Answered(l)
  }

  /** The user name the login ends in. */
  function UserName(l: Login, dns: string -> string): string
    requires Exchanged(l)
  {
    dns(Completed(l).preferredUsername)
  }

  /** The answer that is merged into the identity, if there is a RESTAction: its
      own if that is all known fields and well typed, or else the fallback's. */
  function MergedAnswer(l: Login): Option<Claims>
    requires l.config.Some?
  {
    if l.config.value.restAction.None? then None else if ResolvedAtOnce(l) then l.resolved else l.legacy
  }

  /** Who logs in: the name is the converted preferred user name, which the
      merged answer gives, or else the identity provider. */
  ghost predicate NamedFor(name: string, l: Login, dns: string -> string)
    requires Exchanged(l)
  {
    exists asked, user ::
      && name == dns(user)
      && ComesFrom(asked, l.token.value.claims.value, l.config.value.userInfoURL, l.userInfo, "preferred_username")
      && (match MergedAnswer(l)
          case None => user == asked
          case Some(answer) => Overrides(user, asked, answer, "preferredUsername"))
  }

  /** With which groups: those the merged answer gives, or else the ID token,
      without the reserved ones. */
  ghost predicate GroupedFor(groups: seq<string>, l: Login)
    requires Exchanged(l)
  {
    exists asserted ::
      && groups == Kept(asserted)
      && (match MergedAnswer(l)
          case Some(answer) =>
            if "groups" in answer && answer["groups"] != Null then ListComesFrom(asserted, answer, "groups")
            else ListComesFrom(asserted, l.token.value.claims.value, "groups")
          case None => ListComesFrom(asserted, l.token.value.claims.value, "groups"))
  }

  lemma CompletedMeans(l: Login, dns: string -> string)
    requires Exchanged(l) && (MergedAnswer(l).Some? ==> Usable(MergedAnswer(l).value))
    ensures NamedFor(UserName(l, dns), l, dns) && GroupedFor(Kept(Completed(l).groups), l)
  {
    var c := l.config.value;
    TokenIdentityMeans(l.token.value, c.issuer, c.clientID, c.userInfoURL, l.now, l.userInfo);
    ReadsAsked(l);
    hide TokenIdentity, ComesFrom, ListComesFrom, Overrides, Reads, Kept, ResolvedAtOnce;
    var was, answer := Answered(l), MergedAnswer(l);
    if answer.Some? {
      MergedMeans(was, answer.value);
      hide Merged;
    }
    assert NamedFor(UserName(l, dns), l, dns) by {
      assert ComesFrom(was.preferredUsername, l.token.value.claims.value, c.userInfoURL, l.userInfo,
                       "preferred_username");
      assert UserName(l, dns) == dns(Completed(l).preferredUsername);
    }
    assert GroupedFor(Kept(Completed(l).groups), l) by {
      assert ListComesFrom(was.groups, l.token.value.claims.value, "groups");
    }
  }

  /** The cluster as the fallback finds it can carry it out. */
  ghost predicate FallbackWorks(l: Login, dns: string -> string, secrets: map<Key, RestAction.Data>,
                                restActions: map<Key, seq<RestAction.Stage>>)
    requires Exchanged(l) && l.config.value.restAction.Some?
  {
    var ref := l.config.value.restAction.value;
    && l.legacy.Some? && Usable(l.legacy.value)
    && ref in restActions && RestAction.Resolvable(secrets, restActions[ref], dns(Answered(l).email))
  }

  /** Go's iteration of a map: some order. */
  method KeysInSomeOrder(answer: Claims) returns (order: seq<string>)
    ensures Iterates(order, answer)
  {
    order := [];
    var left := answer.Keys;
    while left != {}
      invariant left <= answer.Keys
      invariant forall key :: key in order <==> key in answer && key !in left
      invariant forall i, j :: 0 <= i < j < |order| ==> order[i] != order[j]
    {
      var key :| key in left;
      order, left := order + [key], left - {key};
    }
  }

  /** The RESTAction's part in `authenticate`: the identity it completes, if it
      can. */
  method Complete(l: Login, answered: IdToken, dns: string -> string, objects: RestAction.Objects)
    returns (r: Option<IdToken>)
    requires Exchanged(l) && answered == Answered(l)
    modifies objects
    ensures r.Some? ==> r.value == Completed(l) && (MergedAnswer(l).Some? ==> Usable(MergedAnswer(l).value))
    ensures r.Some? ==> r.value.acr == answered.acr && r.value.authTime == answered.authTime
    ensures r.None? ==> NeedsFallback(l)
    ensures NeedsFallback(l) && RestAction.Quiet(old(objects.fates)) ==>
      (r.Some? <==> FallbackWorks(l, dns, old(objects.secrets), old(objects.restActions)))
    ensures r.Some? && NeedsFallback(l) ==> (
      var ref, copyUser := l.config.value.restAction.value, dns(Answered(l).email);
      && ref in old(objects.restActions)
      && var stages := old(objects.restActions)[ref];
         objects.secrets == old(objects.secrets) && objects.restActions == old(objects.restActions) <==>
           RestAction.NamesFree(old(objects.secrets), stages, copyUser)
           && RestAction.CopyOf(ref, copyUser) !in old(objects.restActions))
    ensures !NeedsFallback(l) ==>
      objects.secrets == old(objects.secrets) && objects.restActions == old(objects.restActions)
  {
    hide Merged, Usable, OnlyKnownKeys, Reads, RestAction.Resolvable, RestAction.NamesFree, RestAction.CopyOf;
    hide Iterates, Overrides, ListComesFrom, TokenIdentity, Answered;
    var cfg := l.config.value;
    if cfg.restAction.None? {
      return Some(answered);
    }
    var usable := false;
    if l.resolved.Some? {
      var order := KeysInSomeOrder(l.resolved.value);
      usable := CheckKeys(l.resolved.value, order);
    }
    var answer: Claims;
    if usable {
      answer := l.resolved.value;
    } else {
      var outcome, _ :=
        objects.LegacyResolve(cfg.restAction.value, dns(answered.email), answered.bearerToken, l.legacy);
      if !outcome.Answer? {
        return None;
      }
      answer := outcome.status;
    }
    var order := KeysInSomeOrder(answer);
    var merged, ok := UpdateConfig(answered, answer, order);
    return if ok then Some(merged) else None;
  }

  /** What `authenticate` gives: the identity after the merge, and the user. */
  method Authenticate(l: Login, dns: string -> string, objects: RestAction.Objects)
    returns (r: Result<IdToken, Cause>, user: DefaultUser)
    modifies objects
    ensures fresh(user)
    ensures r.Ok? ==> Exchanged(l) && (MergedAnswer(l).Some? ==> Usable(MergedAnswer(l).value))
    ensures r.Ok? ==> NamedFor(user.name, l, dns) && GroupedFor(user.groups, l)
    ensures r.Ok? ==>
      && r.value == Completed(l)
      && r.value.acr == StringOf(l.token.value.claims.value, "acr")
      && r.value.authTime == AuthTimeOf(l.token.value.claims.value)
      && user.name == dns(r.value.preferredUsername) && user.id == l.uid
      && user.groups == Kept(r.value.groups) && user.dropped == Dropped(r.value.groups)
      && Admitted(l.config.value.allowedGroups, user.groups)
    ensures Exchanged(l) && !Admitted(l.config.value.allowedGroups, Kept(Completed(l).groups)) ==> r.Err?
    ensures Exchanged(l) && NeedsFallback(l) && RestAction.Quiet(old(objects.fates)) ==>
      (r.Ok? <==>
        && FallbackWorks(l, dns, old(objects.secrets), old(objects.restActions))
        && Admitted(l.config.value.allowedGroups, Kept(Completed(l).groups)))
    ensures Exchanged(l) && r.Err? ==> r.error in {RESTActionFailed, GroupNotAllowed}
    ensures Exchanged(l) && r.Err? ==>
      (r.error == RESTActionFailed ==> NeedsFallback(l))
      && (r.error == GroupNotAllowed ==> !Admitted(l.config.value.allowedGroups, Kept(Completed(l).groups)))
    ensures Exchanged(l) && !NeedsFallback(l) ==>
      (r.Ok? <==> Admitted(l.config.value.allowedGroups, Kept(Completed(l).groups)))
    ensures r.Ok? && NeedsFallback(l) ==> (
      var ref, copyUser := l.config.value.restAction.value, dns(Answered(l).email);
      && ref in old(objects.restActions)
      && var stages := old(objects.restActions)[ref];
         objects.secrets == old(objects.secrets) && objects.restActions == old(objects.restActions) <==>
           RestAction.NamesFree(old(objects.secrets), stages, copyUser)
           && RestAction.CopyOf(ref, copyUser) !in old(objects.restActions))
    ensures !(Exchanged(l) && NeedsFallback(l)) ==>
      objects.secrets == old(objects.secrets) && objects.restActions == old(objects.restActions)
  {
    hide Usable, OnlyKnownKeys, Reads, Completed, Answered, MergedAnswer, NeedsFallback, FallbackWorks;
    hide Kept, Dropped, Admitted, NamedFor, GroupedFor, ComesFrom, ListComesFrom, TokenIdentity;
    hide RestAction.NamesFree, RestAction.CopyOf, RestAction.Quiet;
    user := new DefaultUser("", "", [], map[], []);
    if l.name == "" {
      return Err(MissingConfigName), user;
    }
    if l.code == "" {
      return Err(MissingAuthorizationCode), user;
    }
    if l.config.None? {
      return Err(ConfigFailed), user;
    }
    var cfg := l.config.value;
    if l.token.None? {
      return Err(CodeExchangeFailed), user;
    }
    var login := DoLogin(l.token.value, cfg.issuer, cfg.clientID, cfg.userInfoURL, l.now, l.userInfo);
    if login.Err? {
      return Err(login.error), user;
    }
    ReadsAsked(l);
    AnsweredIs(l);
    var completed := Complete(l, login.value, dns, objects);
    if completed.None? {
      return Err(RESTActionFailed), user;
    }
    var tok := completed.value;
    user := NewDefaultUser(dns(tok.preferredUsername), l.uid, tok.groups,
                           map["name" := tok.name, "avatarUrl" := tok.avatarURL, "email" := tok.email]);
    CompletedMeans(l, dns);
    var admitted := CheckAllowedGroups(cfg.allowedGroups, user);
    if !admitted {
      return Err(GroupNotAllowed), user;
    }
    return Ok(tok), user;
  }

  lemma ReadsAsked(l: Login)
    requires Exchanged(l)
    ensures Asks(l.token.value.claims.value, l.config.value.userInfoURL) ==> l.userInfo.Some?
    ensures l.token.value.claims.Some?
  {
  }

  // ---------- The handlers ----------

  /** The identity provider, the RESTAction and the cluster's objects let the
      login through. */
  ghost predicate LetsThrough(l: Login, dns: string -> string, secrets: map<Key, RestAction.Data>,
                              restActions: map<Key, seq<RestAction.Stage>>)
  {
    && Exchanged(l)
    && (NeedsFallback(l) ==> FallbackWorks(l, dns, secrets, restActions))
    && Admitted(l.config.value.allowedGroups, Kept(Completed(l).groups))
    && ValidGroups(Kept(Completed(l).groups))
  }

  /** Every request carries the reserved groups its kind of login grants, and
      no other. */
  ghost predicate Levelled(requests: seq<Request>)
  {
    forall i :: 0 <= i < |requests| ==>
      Dropped(requests[i].groups) == if requests[i].stepUp then ["krateo:loa:2"] else []
  }

  lemma OneMoreIsLevelled(requests: seq<Request>, asserted: seq<string>, r: Request)
    requires Levelled(requests)
    requires r.groups == Kept(asserted) + if r.stepUp then ["krateo:loa:2"] else []
    ensures Levelled(requests + [r])
  {
    hide IsReserved, Kept, Dropped;
    KeptFixesTheUnreserved(asserted);
    KeptOfConcat(Kept(asserted), if r.stepUp then ["krateo:loa:2"] else []);
    LevelTwo();
    forall i | 0 <= i < |requests + [r]|
      ensures Dropped((requests + [r])[i].groups) == if (requests + [r])[i].stepUp then ["krateo:loa:2"] else []
    {
    }
  }

  lemma GrantsStayLevelled(requests: seq<Request>, asserted: seq<string>, name: string, duration: int)
    requires Levelled(requests)
    ensures Levelled(requests + [Request(name, Kept(asserted), duration, false)])
    ensures Levelled(requests + [Request(name, Kept(asserted) + ["krateo:loa:2"], duration, true)])
  {
    hide Levelled, Kept;
    assert Kept(asserted) + [] == Kept(asserted);
    OneMoreIsLevelled(requests, asserted, Request(name, Kept(asserted), duration, false));
    OneMoreIsLevelled(requests, asserted, Request(name, Kept(asserted) + ["krateo:loa:2"], duration, true));
  }

  function SignedFor(name: string, groups: seq<string>, signed: Signed, stepUp: bool): AuthInfo
    requires signed.Certified?
  {
    AuthInfo("oidc", Readable(Certificate(name, groups, signed.notBefore, signed.notAfter), signed.serial),
             signed.privateKey, stepUp)
  }

  /** Who is answered: the token, if any, is for exactly these groups and no
      longer than the certificate. */
  predicate Answers(r: Response, name: string, groups: seq<string>, requested: Duration, notAfter: int, signer: Signer)
  {
    && r.username == name && r.groups == groups
    && (r.token.Some? <==> signer.Signer?)
    && (signer.Signer? ==> r.token == Some(Token(name, groups, TokenDuration(requested, notAfter, signer.now))))
  }

  /** The signed certificate and its key are what is stored for the login. */
  ghost predicate StoredFor(w: World, l: Login, dns: string -> string, namespace: string, signed: Signed, stepUp: bool)
    requires Exchanged(l)
  {
    var groups := Kept(Completed(l).groups) + if stepUp then ["krateo:loa:2"] else [];
    && signed.Certified?
    && JustStored(w, PutKey(dns, namespace, UserName(l, dns), stepUp),
                  SignedFor(UserName(l, dns), groups, signed, stepUp))
  }

  /** What is stored for a login, in full. */
  lemma StoredForMeans(w: World, l: Login, dns: string -> string, namespace: string, signed: Signed, stepUp: bool)
    requires Exchanged(l) && StoredFor(w, l, dns, namespace, signed, stepUp)
    ensures
      var name, kept := dns(Completed(l).preferredUsername), Kept(Completed(l).groups);
      var k := Key(namespace, dns(name) + if stepUp then "-clientconfig-stepup" else "-clientconfig");
      && k in w.store && w.store[k].cert.Readable? && w.store[k].privateKey == signed.privateKey
      && w.store[k].cert.cert
           == Certificate(name, if stepUp then kept + ["krateo:loa:2"] else kept, signed.notBefore, signed.notAfter)
      && w.store[k].annotations == map[
           NotBefore := Instant(signed.notBefore), NotAfter := Instant(signed.notAfter), Strategy := Text("oidc"),
           Groups := Text(JoinGroups(if stepUp then kept + ["krateo:loa:2"] else kept))]
  {
    hide Completed, Kept, JustStored, JoinGroups;
    var name, kept := dns(Completed(l).preferredUsername), Kept(Completed(l).groups);
    var groups := kept + if stepUp then ["krateo:loa:2"] else [];
    assert groups == if stepUp then kept + ["krateo:loa:2"] else kept;
    JustStoredMeans(w, PutKey(dns, namespace, name, stepUp), SignedFor(name, groups, signed, stepUp));
    assert dns(name) + "-clientconfig" + "-stepup" == dns(name) + "-clientconfig-stepup";
  }

  /** To do nothing is within what any one `Put` may do. */
  lemma NothingIsLittle(origin: map<Key, Secret>, w: World, s: seq<Slot>, w': World, s': seq<Slot>)
    requires Invariant(origin, w)
    ensures Acts(w, s, w', s', NoStep()) ==>
      forall k, nfo :: Acts(w, s, w', s', PutSteps(k, nfo)) && SparedStay(w, s, w', {k})
  {
    hide Invariant, Acts;
    if Acts(w, s, w', s', NoStep()) {
      forall k, nfo
        ensures Acts(w, s, w', s', PutSteps(k, nfo)) && SparedStay(w, s, w', {k})
      {
        ActsMore(w, s, w', s', NoStep(), PutSteps(k, nfo));
        OnlyPut(origin, w, s, w', s', k, nfo);
      }
    }
  }

  /** GET /oidc/login. A failure after the certificate was stored answers
      IssuanceFailed, and leaves it stored. */
  method SessionLogin(l: Login, dns: string -> string, namespace: string, signing: Signing,
                      jwtDuration: Duration, signer: Signer,
                      objects: RestAction.Objects, gen: Generator, c: ApiServer, ghost origin: map<Key, Secret>)
    returns (r: Result<Response, Cause>)
    requires Invariant(origin, c.w) && AllMintable(gen.requests)
    modifies objects, gen`caData, gen`kubernetesURL, gen`requests, c
    ensures Invariant(origin, c.w) && AllMintable(gen.requests)
    ensures gen.requests == old(gen.requests) ==> r.Err? && c.w == old(c.w)
    ensures gen.requests != old(gen.requests) ==>
      && Exchanged(l)
      && gen.requests
           == old(gen.requests) + [Request(UserName(l, dns), Kept(Completed(l).groups), gen.certDuration, false)]
      && NamedFor(UserName(l, dns), l, dns) && GroupedFor(Kept(Completed(l).groups), l)
      && (r.Err? ==> r.error == IssuanceFailed)
    ensures Levelled(old(gen.requests)) ==> Levelled(gen.requests)
    ensures old(c.schedule) == [] && RestAction.Quiet(old(objects.fates)) ==>
      (r.Ok? <==>
        && LetsThrough(l, dns, old(objects.secrets), old(objects.restActions))
        && Offered(signing, old(gen.caData), old(gen.kubernetesURL))
        && (signer.Signer? ==> signer.works))
    ensures old(c.schedule) == [] && RestAction.Quiet(old(objects.fates)) ==>
      (LetsThrough(l, dns, old(objects.secrets), old(objects.restActions))
       && Offered(signing, old(gen.caData), old(gen.kubernetesURL))
       ==> StoredFor(c.w, l, dns, namespace, signing.answer, false))
    ensures r.Ok? ==> StoredFor(c.w, l, dns, namespace, signing.answer, false)
    ensures r.Ok? ==>
      var nfo := SignedFor(UserName(l, dns), Kept(Completed(l).groups), signing.answer, false);
      && r.value.data
           == Some(Kubeconfig(UserName(l, dns), nfo.cert, nfo.privateKey, gen.caData, gen.kubernetesURL))
      && Answers(r.value, UserName(l, dns), Kept(Completed(l).groups), jwtDuration, signing.answer.notAfter, signer)
    ensures old(c.schedule) == [] && Exchanged(l) ==>
      OnlyChanged(old(c.w), c.w, PutKey(dns, namespace, UserName(l, dns), false))
    ensures Exchanged(l) && signing.answer.Certified? ==>
      var k := PutKey(dns, namespace, UserName(l, dns), false);
      var nfo := SignedFor(UserName(l, dns), Kept(Completed(l).groups), signing.answer, false);
      && Acts(old(c.w), old(c.schedule), c.w, c.schedule, PutSteps(k, nfo))
      && SparedStay(old(c.w), old(c.schedule), c.w, {k})
    ensures !(Exchanged(l) && signing.answer.Certified?) ==>
      Acts(old(c.w), old(c.schedule), c.w, c.schedule, NoStep())
  {
    hide Invariant, AllMintable, Completed, Kept, Dropped, Admitted, JustStored, FallbackWorks, Reads;
    hide Levelled, ValidGroups, Mintable, IsReserved;
    hide Acts, SparedStay, PutSteps, NamedFor, GroupedFor, Usable;
    ghost var w0, s0 := c.w, c.schedule;
    NothingPut(origin, w0, s0, c.w, c.schedule);
    NothingIsLittle(origin, w0, s0, c.w, c.schedule);
    var tok, user := Authenticate(l, dns, objects);
    if tok.Err? {
      return Err(tok.error);
    }
    GuardedIdentitiesAreMintable(tok.value.groups, STEP_UP_LEVEL);
    if Levelled(gen.requests) {
      GrantsStayLevelled(gen.requests, tok.value.groups, user.name, gen.certDuration);
    }
    var generated, notAfter := gen.Generate(c, dns, namespace, "oidc", user, signing, origin);
    NothingIsLittle(origin, w0, s0, c.w, c.schedule);
    if generated.Err? {
      return Err(IssuanceFailed);
    }
    assert Kept(tok.value.groups) + [] == Kept(tok.value.groups);
    var answer := Success(user, Some(generated.value), jwtDuration, notAfter, signer);
    if answer.None? {
      return Err(IssuanceFailed);
    }
    return Ok(answer.value);
  }

  /** POST /oidc/stepup, and `now` when the step-up is judged. A certificate is
      asked for only if the validated ID token proves the step-up, whatever
      UserInfo and the RESTAction answered. The private key is not answered. */
  method StepUpLogin(l: Login, now: int, dns: string -> string, namespace: string, signing: Signing, signer: Signer,
                     objects: RestAction.Objects, gen: Generator, c: ApiServer, ghost origin: map<Key, Secret>)
    returns (r: Result<Response, Cause>)
    requires Invariant(origin, c.w) && AllMintable(gen.requests)
    modifies objects, gen`caData, gen`kubernetesURL, gen`requests, c
    ensures Invariant(origin, c.w) && AllMintable(gen.requests)
    ensures gen.requests == old(gen.requests) ==> r.Err? && c.w == old(c.w)
    ensures gen.requests != old(gen.requests) ==>
      && Exchanged(l)
      && Accepted(l.token.value.claims.value, l.config.value.issuer, l.config.value.clientID, l.now)
      && Proves(ResolveStepUp(l.config.value.stepUp), l.token.value.claims.value, now)
      && gen.requests == old(gen.requests)
           + [Request(UserName(l, dns), Kept(Completed(l).groups) + ["krateo:loa:2"],
                      ResolveStepUp(l.config.value.stepUp).value.ttl, true)]
      && NamedFor(UserName(l, dns), l, dns) && GroupedFor(Kept(Completed(l).groups), l)
      && (r.Err? ==> r.error == IssuanceFailed)
    ensures Levelled(old(gen.requests)) ==> Levelled(gen.requests)
    ensures old(c.schedule) == [] && RestAction.Quiet(old(objects.fates)) ==>
      (r.Ok? <==>
        && LetsThrough(l, dns, old(objects.secrets), old(objects.restActions))
        && Proves(ResolveStepUp(l.config.value.stepUp), l.token.value.claims.value, now)
        && Offered(signing, old(gen.caData), old(gen.kubernetesURL))
        && (signer.Signer? ==> signer.works))
    ensures old(c.schedule) == [] && RestAction.Quiet(old(objects.fates)) ==>
      (LetsThrough(l, dns, old(objects.secrets), old(objects.restActions))
       && Proves(ResolveStepUp(l.config.value.stepUp), l.token.value.claims.value, now)
       && Offered(signing, old(gen.caData), old(gen.kubernetesURL))
       ==> StoredFor(c.w, l, dns, namespace, signing.answer, true))
    ensures r.Ok? ==> StoredFor(c.w, l, dns, namespace, signing.answer, true)
    ensures r.Ok? ==>
      && r.value.data.None?
      && Answers(r.value, UserName(l, dns), Kept(Completed(l).groups) + ["krateo:loa:2"],
                 ResolveStepUp(l.config.value.stepUp).value.ttl, signing.answer.notAfter, signer)
    ensures old(c.schedule) == [] && Exchanged(l) ==>
      OnlyChanged(old(c.w), c.w, PutKey(dns, namespace, UserName(l, dns), true))
    ensures Exchanged(l) && signing.answer.Certified? ==>
      var k := PutKey(dns, namespace, UserName(l, dns), true);
      var nfo := SignedFor(UserName(l, dns), Kept(Completed(l).groups) + ["krateo:loa:2"], signing.answer, true);
      && Acts(old(c.w), old(c.schedule), c.w, c.schedule, PutSteps(k, nfo))
      && SparedStay(old(c.w), old(c.schedule), c.w, {k})
    ensures !(Exchanged(l) && signing.answer.Certified?) ==>
      Acts(old(c.w), old(c.schedule), c.w, c.schedule, NoStep())
  {
    hide Invariant, AllMintable, Completed, Kept, Dropped, Admitted, JustStored, FallbackWorks, Reads;
    hide Levelled, ValidGroups, Mintable, IsReserved, Proves, Accepted;
    hide Acts, SparedStay, PutSteps, NamedFor, GroupedFor, Usable;
    ghost var w0, s0 := c.w, c.schedule;
    NothingPut(origin, w0, s0, c.w, c.schedule);
    NothingIsLittle(origin, w0, s0, c.w, c.schedule);
    var tok, user := Authenticate(l, dns, objects);
    if tok.Err? {
      return Err(tok.error);
    }
    ReadsAccepted(l);
    var cfg := ResolveStepUp(l.config.value.stepUp);
    StepUpIsProvedByTheToken(cfg, l.token.value.claims.value, tok.value, now);
    var refused := CheckStepUp(cfg, tok.value, now);
    if refused.Some? {
      return Err(refused.value);
    }
    var up := NewStepUpUser(user, STEP_UP_LEVEL);
    LevelTwo();
    GuardedIdentitiesAreMintable(tok.value.groups, STEP_UP_LEVEL);
    if Levelled(gen.requests) {
      GrantsStayLevelled(gen.requests, tok.value.groups, user.name, cfg.value.ttl);
    }
    var notAfter := gen.GenerateStepUp(c, dns, namespace, "oidc", up, cfg.value.ttl, signing, origin);
    NothingIsLittle(origin, w0, s0, c.w, c.schedule);
    if notAfter.Err? {
      return Err(IssuanceFailed);
    }
    var answer := Success(up, None, cfg.value.ttl, notAfter.value, signer);
    if answer.None? {
      return Err(IssuanceFailed);
    }
    return Ok(answer.value);
  }

  lemma ReadsAccepted(l: Login)
    requires Exchanged(l)
    ensures l.token.value.claims.Some?
    ensures Accepted(l.token.value.claims.value, l.config.value.issuer, l.config.value.clientID, l.now)
  {
  }

  lemma LevelTwo()
    ensures StepUpGroup(STEP_UP_LEVEL) == "krateo:loa:2"
    ensures Dropped(["krateo:loa:2"]) == ["krateo:loa:2"] && Dropped([]) == []
  {
    assert Decimal(2) == "2";
    StepUpGroupIsReserved(STEP_UP_LEVEL);
    assert ["krateo:loa:2"][..0] == [];
  }
}
