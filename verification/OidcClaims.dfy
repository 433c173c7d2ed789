/** From an identity provider's answers to an identity: the ID token's checks
    and claims, and the merge of a RESTAction's answer
    (internal/routes/auth/oidc/idtoken.go, support.go). */
module OidcClaims {
  import opened Results
  import opened Storage
  import opened Durations

  datatype Json =
    | Null
    | Str(text: string)
    | Num(number: real)
    | Bool(flag: bool)
    | Arr(items: seq<Json>)
    | Obj(fields: map<string, Json>)

  type Claims = map<string, Json>

  /** Why a login fails: the causes of the API's answers. */
  datatype Cause =
    | MissingConfigName | MissingAuthorizationCode | ConfigFailed
    | CodeExchangeFailed | UserInfoFailed | RESTActionFailed
    | IDTokenInvalid | IssuerUnknown | IssuerMismatch | AudienceMismatch | TokenExpired
    | GroupNotAllowed
    | StepUpNotEnabled | StepUpMisconfigured | InsufficientAssurance | StaleAuthentication
    | IssuanceFailed

  // ---------- Reading one claim ----------

  /** Absent and null are the same: the claim is not there. */
  predicate Given(m: Claims, key: string)
  {
    key in m && m[key] != Null
  }

  predicate IsStringList(v: Json)
  {
    v.Arr? && forall i :: 0 <= i < |v.items| ==> v.items[i].Str?
  }

  function Strings(items: seq<Json>): (r: seq<string>)
    requires forall i :: 0 <= i < |items| ==> items[i].Str?
    ensures |r| == |items| && forall i :: 0 <= i < |items| ==> items[i] == Str(r[i])
  {
    seq(|items|, i requires 0 <= i < |items| => items[i].text)
  }

  /** The string under `key`, "" if there is none. */
  function StringOf(m: Claims, key: string): string
  {
    if key in m && m[key].Str? then m[key].text else ""
  }

  function StringsOf(m: Claims, key: string): seq<string>
  {
    if key in m && IsStringList(m[key]) then Strings(m[key].items) else []
  }

  predicate StringClaimReads(m: Claims, key: string)
  {
    Given(m, key) ==> m[key].Str?
  }

  predicate StringListClaimReads(m: Claims, key: string)
  {
    Given(m, key) ==> IsStringList(m[key])
  }

  method StringClaim(m: Claims, key: string) returns (v: string, ok: bool, failed: bool)
    ensures failed <==> !StringClaimReads(m, key)
    ensures ok <==> Given(m, key) && m[key].Str?
    ensures v == StringOf(m, key)
  {
    if key !in m || m[key] == Null {
      return "", false, false;
    }
    if !m[key].Str? {
      return "", false, true;
    }
    return m[key].text, true, false;
  }

  method StringListClaim(m: Claims, key: string) returns (v: seq<string>, ok: bool, failed: bool)
    ensures failed <==> !StringListClaimReads(m, key)
    ensures ok <==> Given(m, key) && IsStringList(m[key])
    ensures v == StringsOf(m, key)
  {
    if key !in m || m[key] == Null {
      return [], false, false;
    }
    if !m[key].Arr? {
      return [], false, true;
    }
    var read := ReadStrings(m[key].items);
    if read.None? {
      return [], false, true;
    }
    return read.value, true, false;
  }

  /** The strings of a list, or nothing if something in it is not one. */
  method ReadStrings(items: seq<Json>) returns (r: Option<seq<string>>)
    ensures r.Some? <==> IsStringList(Arr(items))
    ensures r.Some? ==> r.value == Strings(items)
  {
    var v: seq<string> := [];
    for i := 0 to |items|
      invariant |v| == i && forall j :: 0 <= j < i ==> items[j] == Str(v[j])
    {
      if !items[i].Str? {
        assert !IsStringList(Arr(items));
        return None;
      }
      v := v + [items[i].text];
    }
    return Some(v);
  }

  // ---------- Time in claims ----------

  /** A claim's number as whole seconds: the fraction is dropped, toward zero. */
  function Truncated(at: real): int
  {
    if at >= 0.0 then at.Floor else -((-at).Floor)
  }

  lemma TruncatedIsTowardZero(at: real)
    ensures at >= 0.0 ==> 0 <= Truncated(at) && Truncated(at) as real <= at < Truncated(at) as real + 1.0
    ensures at <= 0.0 ==> Truncated(at) <= 0 && Truncated(at) as real - 1.0 < at <= Truncated(at) as real
  {
  }

  // ---------- ID token validation (idtoken.go) ----------

  const CLOCK_SKEW: int := MINUTE

  function Audiences(m: Claims): Option<seq<string>>
  {
    if "aud" !in m then None
    else
      match m["aud"]
      case Str(aud) => Some([aud])
      case Arr(items) => if IsStringList(m["aud"]) then Some(Strings(items)) else None
      case _ => None
  }

  function ValidateIdToken(m: Claims, issuer: string, clientID: string, now: int): Option<Cause>
  {
    if issuer == "" then Some(IssuerUnknown)
    else if StringOf(m, "iss") != issuer then Some(IssuerMismatch)
    else if Audiences(m).None? then Some(IDTokenInvalid)
    else if clientID !in Audiences(m).value then Some(AudienceMismatch)
    else if |Audiences(m).value| > 1 && StringOf(m, "azp") != clientID then Some(AudienceMismatch)
    else if "exp" !in m || !m["exp"].Num? then Some(IDTokenInvalid)
    else if now > Truncated(m["exp"].number) * SECOND + CLOCK_SKEW then Some(TokenExpired)
    else None
  }

  /** The audience names the client: alone, or among others and then as the
      authorized party too. */
  predicate MeantFor(m: Claims, clientID: string)
  {
    && "aud" in m
    && (|| m["aud"] == Str(clientID)
        || (IsStringList(m["aud"]) && Str(clientID) in m["aud"].items
            && (|m["aud"].items| > 1 ==> StringOf(m, "azp") == clientID)))
  }

  predicate LiveAt(m: Claims, now: int)
  {
    "exp" in m && m["exp"].Num? && now <= Truncated(m["exp"].number) * SECOND + MINUTE
  }

  predicate Accepted(m: Claims, issuer: string, clientID: string, now: int)
  {
    && issuer != "" && "iss" in m && m["iss"] == Str(issuer)
    && MeantFor(m, clientID)
    && LiveAt(m, now)
  }

  /** OpenID Connect Core 1.0, section 3.1.3.7: what is accepted, whatever else
      the token says. */
  lemma AcceptedIff(m: Claims, issuer: string, clientID: string, now: int)
    ensures ValidateIdToken(m, issuer, clientID, now).None? <==> Accepted(m, issuer, clientID, now)
  {
    AudienceIff(m, clientID);
  }

  lemma RefusalCauses(m: Claims, issuer: string, clientID: string, now: int)
    ensures var why := ValidateIdToken(m, issuer, clientID, now);
      why.Some? ==> why.value !in {CodeExchangeFailed, UserInfoFailed}
  {
  }

  lemma AudienceIff(m: Claims, clientID: string)
    ensures MeantFor(m, clientID) <==>
      && Audiences(m).Some? && clientID in Audiences(m).value
      && (|Audiences(m).value| > 1 ==> StringOf(m, "azp") == clientID)
  {
    if "aud" in m && IsStringList(m["aud"]) {
      var items := m["aud"].items;
      var strings := Strings(items);
      if clientID in strings {
        var i :| 0 <= i < |strings| && strings[i] == clientID;
        assert items[i] == Str(clientID);
      }
      if Str(clientID) in items {
        var i :| 0 <= i < |items| && items[i] == Str(clientID);
        assert strings[i] == clientID;
      }
    }
  }

  /** A refusal names the first thing wrong: expiry only of a token that is
      otherwise in order, the audience only of the right issuer's token. */
  lemma RefusalSaysWhy(m: Claims, issuer: string, clientID: string, now: int)
    ensures var why := ValidateIdToken(m, issuer, clientID, now);
      && (why == Some(TokenExpired) <==>
            !LiveAt(m, now) && Accepted(m, issuer, clientID, Truncated(ExpiryOf(m)) * SECOND))
      && (why == Some(IssuerUnknown) <==> issuer == "")
      && (why == Some(IssuerMismatch) <==> issuer != "" && !("iss" in m && m["iss"] == Str(issuer)))
      && (why == Some(AudienceMismatch) ==>
            "aud" in m && (m["aud"].Str? || IsStringList(m["aud"])) && !MeantFor(m, clientID))
      && (why == Some(IDTokenInvalid) ==> !MeantFor(m, clientID) || !("exp" in m && m["exp"].Num?))
  {
    AcceptedIff(m, issuer, clientID, now);
    AcceptedIff(m, issuer, clientID, Truncated(ExpiryOf(m)) * SECOND);
    AudienceIff(m, clientID);
  }

  function ExpiryOf(m: Claims): real
  {
    if "exp" in m && m["exp"].Num? then m["exp"].number else 0.0
  }

  /** A token is accepted for one issuer only; once refused as expired it stays
      so; and no token with a single audience serves two clients. */
  lemma AcceptanceIsNarrow(m: Claims, issuer: string, clientID: string, now: int,
                           issuer': string, clientID': string, now': int)
    requires ValidateIdToken(m, issuer, clientID, now).None? && ValidateIdToken(m, issuer', clientID', now').None?
    ensures issuer == issuer'
    ensures forall t :: t <= now ==> ValidateIdToken(m, issuer, clientID, t).None?
    ensures clientID == clientID'
  {
    AcceptedIff(m, issuer, clientID, now);
    AcceptedIff(m, issuer', clientID', now');
    forall t | t <= now
      ensures ValidateIdToken(m, issuer, clientID, t).None?
    {
      AcceptedIff(m, issuer, clientID, t);
    }
    if IsStringList(m["aud"]) && |m["aud"].items| <= 1 {
      assert m["aud"].items[0] == Str(clientID);
    }
  }

  // ---------- The identity ----------

  datatype IdToken = IdToken(
    acr: string,
    authTime: int,
    bearerToken: string,
    name: string,
    email: string,
    preferredUsername: string,
    groups: seq<string>,
    avatarURL: string)

  // ---------- doLogin: the claims (support.go:163-239) ----------

  /** The token endpoint's answer; an ID token that does not decode is None. */
  datatype TokenAnswer = TokenAnswer(accessToken: string, claims: Option<Claims>)

  predicate AuthTimeReads(m: Claims)
  {
    Given(m, "auth_time") ==> m["auth_time"].Num?
  }

  function AuthTimeOf(m: Claims): int
  {
    if "auth_time" in m && m["auth_time"].Num? then Truncated(m["auth_time"].number) * SECOND else ZERO_TIME
  }

  const PROFILE := ["preferred_username", "name", "picture", "email"]

  predicate ProfileReads(m: Claims)
  {
    forall i :: 0 <= i < |PROFILE| ==> StringClaimReads(m, PROFILE[i])
  }

  predicate ProfileComplete(m: Claims)
  {
    forall i :: 0 <= i < |PROFILE| ==> Given(m, PROFILE[i])
  }

  /** UserInfo is asked only for what the token omits, and must answer it well. */
  predicate UserInfoCompletes(m: Claims, userInfo: Claims)
  {
    forall i :: 0 <= i < |PROFILE| ==> Given(m, PROFILE[i]) || StringClaimReads(userInfo, PROFILE[i])
  }

  function Profile(m: Claims, userInfo: Claims, key: string): string
  {
    if Given(m, key) then StringOf(m, key) else StringOf(userInfo, key)
  }

  predicate Asks(m: Claims, userInfoURL: string)
  {
    !ProfileComplete(m) && userInfoURL != ""
  }

  /** The ID token itself is in order. */
  predicate TokenReads(m: Claims, issuer: string, clientID: string, now: int)
  {
    && Accepted(m, issuer, clientID, now)
    && StringClaimReads(m, "acr") && AuthTimeReads(m) && ProfileReads(m) && StringListClaimReads(m, "groups")
  }

  /** The exchange ends in an identity. */
  predicate Reads(token: TokenAnswer, issuer: string, clientID: string, userInfoURL: string,
                  now: int, userInfo: Option<Claims>)
  {
    && token.claims.Some?
    && var m := token.claims.value;
       && TokenReads(m, issuer, clientID, now)
       && (Asks(m, userInfoURL) ==>
             token.accessToken != "" && userInfo.Some? && UserInfoCompletes(m, userInfo.value))
  }

  /** What the claims `m` prove and what completes them: only the profile can
      come from UserInfo. */
  function TokenIdentity(m: Claims, accessToken: string, userInfo: Claims): IdToken
  {
    IdToken(StringOf(m, "acr"), AuthTimeOf(m), accessToken,
            Profile(m, userInfo, "name"), Profile(m, userInfo, "email"), Profile(m, userInfo, "preferred_username"),
            StringsOf(m, "groups"), Profile(m, userInfo, "picture"))
  }

  /** `v` is the string the ID token gives for `key`; the one UserInfo gives, if
      the token omits it and UserInfo is there to be asked; or nothing. */
  predicate ComesFrom(v: string, m: Claims, userInfoURL: string, userInfo: Option<Claims>, key: string)
  {
    if key in m && m[key] != Null then m[key] == Str(v)
    else if userInfoURL != "" && userInfo.Some? && key in userInfo.value && userInfo.value[key] != Null then
      userInfo.value[key] == Str(v)
    else v == ""
  }

  /** `v` are the strings the list under `key` holds, or nothing. */
  predicate ListComesFrom(v: seq<string>, m: Claims, key: string)
  {
    if key in m && m[key] != Null then
      m[key].Arr? && |m[key].items| == |v| && forall i :: 0 <= i < |v| ==> m[key].items[i] == Str(v[i])
    else v == []
  }

  lemma StringsComeFrom(m: Claims, key: string)
    requires StringListClaimReads(m, key)
    ensures ListComesFrom(StringsOf(m, key), m, key)
  {}

  /** `profile` holds the profile's values while they are collected, in the
      order of PROFILE, and `missing` the places the token leaves open. */
  method DoLogin(token: TokenAnswer, issuer: string, clientID: string, userInfoURL: string,
                 now: int, userInfo: Option<Claims>)
    returns (r: Result<IdToken, Cause>)
    ensures r.Ok? <==> Reads(token, issuer, clientID, userInfoURL, now, userInfo)
    ensures r.Err? ==>
      (r.error in {CodeExchangeFailed, UserInfoFailed} <==>
         token.claims.Some? && TokenReads(token.claims.value, issuer, clientID, now))
    ensures token.claims.Some? && !Accepted(token.claims.value, issuer, clientID, now) ==>
      r.Err? && Some(r.error) == ValidateIdToken(token.claims.value, issuer, clientID, now)
    ensures r.Err? && r.error == CodeExchangeFailed ==> token.accessToken == ""
    ensures r.Ok? ==>
      var m := token.claims.value;
      r.value == TokenIdentity(m, token.accessToken, if Asks(m, userInfoURL) then userInfo.value else map[])
    ensures r.Ok? ==>
      var m := token.claims.value;
      && ComesFrom(r.value.preferredUsername, m, userInfoURL, userInfo, "preferred_username")
      && ComesFrom(r.value.name, m, userInfoURL, userInfo, "name")
      && ComesFrom(r.value.avatarURL, m, userInfoURL, userInfo, "picture")
      && ComesFrom(r.value.email, m, userInfoURL, userInfo, "email")
      && ListComesFrom(r.value.groups, m, "groups") && r.value.bearerToken == token.accessToken
      && (if "acr" in m && m["acr"] != Null then m["acr"] == Str(r.value.acr) else r.value.acr == "")
      && (if "auth_time" in m && m["auth_time"] != Null then
            m["auth_time"].Num? && r.value.authTime == Truncated(m["auth_time"].number) * 1_000_000_000
          else r.value.authTime == ZERO_TIME)
  {
    hide Accepted, ValidateIdToken, Strings, IsStringList, ComesFrom, ListComesFrom;
    hide ProfileReads, ProfileComplete, UserInfoCompletes;
    if token.claims.None? {
      return Err(IDTokenInvalid);
    }
    var m := token.claims.value;
    AcceptedIff(m, issuer, clientID, now);
    RefusalCauses(m, issuer, clientID, now);
    var refused := ValidateIdToken(m, issuer, clientID, now);
    if refused.Some? {
      return Err(refused.value);
    }
    var acr, _, acrFailed := StringClaim(m, "acr");
    if acrFailed {
      return Err(IDTokenInvalid);
    }
    var authTime := ZERO_TIME;
    if "auth_time" in m && m["auth_time"] != Null {
      if !m["auth_time"].Num? {
        return Err(IDTokenInvalid);
      }
      authTime := Truncated(m["auth_time"].number) * SECOND;
    }
    var profile: seq<string>, missing: seq<nat>, failed := [], [], false;
    profile, missing, failed := ReadProfile(m);
    if failed {
      return Err(IDTokenInvalid);
    }
    var groups, _, groupsFailed := StringListClaim(m, "groups");
    if groupsFailed {
      return Err(IDTokenInvalid);
    }
    ghost var answer: Claims := map[];
    if missing != [] && userInfoURL != "" {
      if token.accessToken == "" {
        return Err(CodeExchangeFailed);
      }
      if userInfo.None? {
        return Err(UserInfoFailed);
      }
      answer := userInfo.value;
      profile, failed := CompleteProfile(m, profile, missing, userInfo.value);
      if failed {
        return Err(UserInfoFailed);
      }
    }
    ProfileFields(m, answer, profile);
    TokenIdentityMeans(token, issuer, clientID, userInfoURL, now, userInfo);
    return Ok(IdToken(acr, authTime, token.accessToken, profile[1], profile[3], profile[0], groups, profile[2]));
  }

  /** Each field of the identity by its claim. */
  lemma TokenIdentityMeans(token: TokenAnswer, issuer: string, clientID: string, userInfoURL: string,
                           now: int, userInfo: Option<Claims>)
    requires Reads(token, issuer, clientID, userInfoURL, now, userInfo)
    ensures
      var m := token.claims.value;
      var tok := TokenIdentity(m, token.accessToken, if Asks(m, userInfoURL) then userInfo.value else map[]);
      && ComesFrom(tok.preferredUsername, m, userInfoURL, userInfo, "preferred_username")
      && ComesFrom(tok.name, m, userInfoURL, userInfo, "name")
      && ComesFrom(tok.avatarURL, m, userInfoURL, userInfo, "picture")
      && ComesFrom(tok.email, m, userInfoURL, userInfo, "email")
      && ListComesFrom(tok.groups, m, "groups") && tok.bearerToken == token.accessToken
      && (if "acr" in m && m["acr"] != Null then m["acr"] == Str(tok.acr) else tok.acr == "")
      && (if "auth_time" in m && m["auth_time"] != Null then
            m["auth_time"].Num? && tok.authTime == Truncated(m["auth_time"].number) * 1_000_000_000
          else tok.authTime == ZERO_TIME)
  {
    hide Accepted, IsStringList, Strings, ListComesFrom;
    var m := token.claims.value;
    StringsComeFrom(m, "groups");
    FieldComesFrom(m, userInfoURL, userInfo, 0);
    FieldComesFrom(m, userInfoURL, userInfo, 1);
    FieldComesFrom(m, userInfoURL, userInfo, 2);
    FieldComesFrom(m, userInfoURL, userInfo, 3);
    hide ComesFrom, Profile;
  }

  lemma FieldComesFrom(m: Claims, userInfoURL: string, userInfo: Option<Claims>, i: nat)
    requires i < |PROFILE| && ProfileReads(m)
    requires Asks(m, userInfoURL) ==> userInfo.Some? && UserInfoCompletes(m, userInfo.value)
    ensures ComesFrom(Profile(m, if Asks(m, userInfoURL) then userInfo.value else map[], PROFILE[i]),
                      m, userInfoURL, userInfo, PROFILE[i])
  {
    assert StringClaimReads(m, PROFILE[i]);
    if !Given(m, PROFILE[i]) && userInfoURL != "" {
      assert Asks(m, userInfoURL);
      assert Given(m, PROFILE[i]) || StringClaimReads(userInfo.value, PROFILE[i]);
    }
  }

  lemma ProfileFields(m: Claims, answer: Claims, profile: seq<string>)
    requires |profile| == |PROFILE|
    requires forall i :: 0 <= i < |PROFILE| ==> profile[i] == Profile(m, answer, PROFILE[i])
    ensures profile[0] == Profile(m, answer, "preferred_username") && profile[1] == Profile(m, answer, "name")
    ensures profile[2] == Profile(m, answer, "picture") && profile[3] == Profile(m, answer, "email")
  {
    assert PROFILE[0] == "preferred_username" && PROFILE[1] == "name";
    assert PROFILE[2] == "picture" && PROFILE[3] == "email";
  }

  method ReadProfile(m: Claims) returns (profile: seq<string>, missing: seq<nat>, failed: bool)
    ensures failed <==> !ProfileReads(m)
    ensures !failed ==>
      && |profile| == |PROFILE|
      && (forall i :: 0 <= i < |PROFILE| ==> profile[i] == StringOf(m, PROFILE[i]))
      && (forall i :: 0 <= i < |PROFILE| && !Given(m, PROFILE[i]) ==> profile[i] == "")
      && (forall i :: i in missing <==> 0 <= i < |PROFILE| && !Given(m, PROFILE[i]))
      && (missing == [] <==> ProfileComplete(m))
  {
    profile, missing := ["", "", "", ""], [];
    for i := 0 to |PROFILE|
      invariant |profile| == |PROFILE|
      invariant forall j :: 0 <= j < i ==> StringClaimReads(m, PROFILE[j]) && profile[j] == StringOf(m, PROFILE[j])
      invariant forall j :: i <= j < |PROFILE| ==> profile[j] == ""
      invariant forall j :: j in missing <==> 0 <= j < i && !Given(m, PROFILE[j])
    {
      var v, ok, failed := StringClaim(m, PROFILE[i]);
      if failed {
        return profile, missing, true;
      }
      if !ok {
        missing := missing + [i];
        continue;
      }
      profile := profile[i := v];
    }
    if missing != [] {
      assert missing[0] in missing;
    }
    return profile, missing, false;
  }

  method CompleteProfile(m: Claims, given: seq<string>, missing: seq<nat>, userInfo: Claims)
    returns (profile: seq<string>, failed: bool)
    requires |given| == |PROFILE|
    requires forall i :: 0 <= i < |PROFILE| ==> given[i] == StringOf(m, PROFILE[i])
    requires forall i :: i in missing <==> 0 <= i < |PROFILE| && !Given(m, PROFILE[i])
    ensures failed <==> !UserInfoCompletes(m, userInfo)
    ensures !failed ==> |profile| == |PROFILE|
    ensures !failed ==> forall i :: 0 <= i < |PROFILE| ==> profile[i] == Profile(m, userInfo, PROFILE[i])
  {
    profile := given;
    for k := 0 to |missing|
      invariant |profile| == |PROFILE|
      invariant forall i :: 0 <= i < |PROFILE| && i in missing[..k] ==>
        StringClaimReads(userInfo, PROFILE[i]) && profile[i] == StringOf(userInfo, PROFILE[i])
      invariant forall i :: 0 <= i < |PROFILE| && i !in missing[..k] ==> profile[i] == given[i]
    {
      var i := missing[k];
      assert i in missing && missing[..k + 1] == missing[..k] + [i];
      var v, ok, bad := StringClaim(userInfo, PROFILE[i]);
      if bad {
        assert !UserInfoCompletes(m, userInfo);
        return profile, true;
      }
      if ok {
        profile := profile[i := v];
      }
    }
    assert missing[..|missing|] == missing;
    return profile, false;
  }

  // ---------- Merging a RESTAction's answer (support.go:337-427) ----------

  const STRING_KEYS := {"name", "email", "preferredUsername", "avatarURL"}
  const KEYS := STRING_KEYS + {"groups"}

  predicate WellTyped(answer: Claims, key: string)
  {
    && (key in STRING_KEYS ==> StringClaimReads(answer, key))
    && (key == "groups" ==> StringListClaimReads(answer, key))
  }

  /** Each of the five fields that is given has its type. */
  predicate Usable(answer: Claims)
  {
    forall key :: key in KEYS ==> WellTyped(answer, key)
  }

  predicate OnlyKnownKeys(answer: Claims)
  {
    forall key :: key in answer && answer[key] != Null ==> key in KEYS
  }

  function Replaced(current: string, answer: Claims, key: string): string
  {
    if Given(answer, key) then StringOf(answer, key) else current
  }

  /** The identity with each given field replaced: no order is mentioned, and
      nothing a step-up relies on is a field. */
  function Merged(tok: IdToken, answer: Claims): (r: IdToken)
    ensures r.acr == tok.acr && r.authTime == tok.authTime && r.bearerToken == tok.bearerToken
  {
    tok.(name := Replaced(tok.name, answer, "name"),
         email := Replaced(tok.email, answer, "email"),
         preferredUsername := Replaced(tok.preferredUsername, answer, "preferredUsername"),
         groups := if Given(answer, "groups") then StringsOf(answer, "groups") else tok.groups,
         avatarURL := Replaced(tok.avatarURL, answer, "avatarURL"))
  }

  /** `v` is the string the answer gives for `key`, or else what there was. */
  predicate Overrides(v: string, was: string, answer: Claims, key: string)
  {
    if key in answer && answer[key] != Null then answer[key] == Str(v) else v == was
  }

  /** Each field of the merge by its key, and no other field. */
  lemma MergedMeans(tok: IdToken, answer: Claims)
    requires Usable(answer)
    ensures
      var r := Merged(tok, answer);
      && Overrides(r.name, tok.name, answer, "name")
      && Overrides(r.email, tok.email, answer, "email")
      && Overrides(r.preferredUsername, tok.preferredUsername, answer, "preferredUsername")
      && Overrides(r.avatarURL, tok.avatarURL, answer, "avatarURL")
      && (if "groups" in answer && answer["groups"] != Null then ListComesFrom(r.groups, answer, "groups")
          else r.groups == tok.groups)
  {
    assert WellTyped(answer, "name") && WellTyped(answer, "email") && WellTyped(answer, "preferredUsername");
    assert WellTyped(answer, "avatarURL") && WellTyped(answer, "groups");
    StringsComeFrom(answer, "groups");
    hide Strings, IsStringList, ListComesFrom;
  }

  /** The five keys and their types. */
  lemma KeysAre(answer: Claims)
    ensures Usable(answer) <==>
      && (forall key :: key in {"name", "email", "preferredUsername", "avatarURL"} && key in answer ==>
            answer[key].Str? || answer[key] == Null)
      && ("groups" in answer ==> IsStringList(answer["groups"]) || answer["groups"] == Null)
    ensures OnlyKnownKeys(answer) <==>
      forall key :: key in answer && answer[key] != Null ==>
        key in {"name", "email", "preferredUsername", "avatarURL", "groups"}
  {
    hide IsStringList;
    forall key
      ensures WellTyped(answer, key) <==>
        && (key in {"name", "email", "preferredUsername", "avatarURL"} && key in answer ==>
              answer[key].Str? || answer[key] == Null)
        && (key == "groups" && key in answer ==> IsStringList(answer[key]) || answer[key] == Null)
    {
    }
    if Usable(answer) {
      forall key | key in {"name", "email", "preferredUsername", "avatarURL"} && key in answer
        ensures answer[key].Str? || answer[key] == Null
      {
        assert WellTyped(answer, key);
      }
      assert WellTyped(answer, "groups");
    }
  }

  /** The part of the answer whose keys have been visited. */
  function Visited(answer: Claims, keys: seq<string>): Claims
  {
    map key | key in answer && key in keys :: answer[key]
  }

  /** `order` is the order in which the map happens to be iterated. */
  ghost predicate Iterates(order: seq<string>, answer: Claims)
  {
    && (forall key :: key in order <==> key in answer)
    && (forall i, j :: 0 <= i < j < |order| ==> order[i] != order[j])
  }

  /** `updateConfig`: whatever the order, it succeeds exactly on usable answers,
      and then gives the same identity; what a step-up proves is never touched,
      not even by the half-merged identity of a failure. */
  method UpdateConfig(tok: IdToken, answer: Claims, order: seq<string>) returns (config: IdToken, ok: bool)
    requires Iterates(order, answer)
    ensures ok <==> Usable(answer)
    ensures ok ==> config == Merged(tok, answer)
    ensures ok ==>
      && Overrides(config.name, tok.name, answer, "name")
      && Overrides(config.email, tok.email, answer, "email")
      && Overrides(config.preferredUsername, tok.preferredUsername, answer, "preferredUsername")
      && Overrides(config.avatarURL, tok.avatarURL, answer, "avatarURL")
      && (if "groups" in answer && answer["groups"] != Null then ListComesFrom(config.groups, answer, "groups")
          else config.groups == tok.groups)
    ensures config.acr == tok.acr && config.authTime == tok.authTime && config.bearerToken == tok.bearerToken
  {
    hide Merged, WellTyped, Overrides, ListComesFrom;
    config := tok;
    MergedNothing(tok, answer);
    for i := 0 to |order|
      invariant config == Merged(tok, Visited(answer, order[..i]))
      invariant forall j :: 0 <= j < i ==> WellTyped(answer, order[j])
    {
      var key := order[i];
      assert order[..i + 1] == order[..i] + [key];
      MergedNext(tok, answer, order[..i], key);
      WhenWellTyped(answer, key);
      if answer[key] != Null {
        if key in STRING_KEYS && !answer[key].Str? {
          IllTyped(answer, key);
          return config, false;
        }
        match key {
          case "name" => config := config.(name := answer[key].text);
          case "email" => config := config.(email := answer[key].text);
          case "preferredUsername" => config := config.(preferredUsername := answer[key].text);
          case "groups" =>
            if !answer[key].Arr? {
              IllTyped(answer, key);
              return config, false;
            }
            var groups := ReadStrings(answer[key].items);
            if groups.None? {
              IllTyped(answer, key);
              return config, false;
            }
            config := config.(groups := groups.value);
          case "avatarURL" => config := config.(avatarURL := answer[key].text);
          case _ =>
        }
      }
    }
    assert order[..|order|] == order;
    AllVisited(answer, order);
    if Usable(answer) {
      MergedMeans(tok, answer);
    }
    return config, true;
  }

  lemma MergedNothing(tok: IdToken, answer: Claims)
    ensures Merged(tok, Visited(answer, [])) == tok
  {
  }

  /** One more key visited replaces its own field. */
  lemma MergedNext(tok: IdToken, answer: Claims, keys: seq<string>, key: string)
    requires key in answer && key !in keys
    ensures var was := Merged(tok, Visited(answer, keys));
      var now := Merged(tok, Visited(answer, keys + [key]));
      && (answer[key] == Null || key !in KEYS ==> now == was)
      && (answer[key].Str? && key == "name" ==> now == was.(name := answer[key].text))
      && (answer[key].Str? && key == "email" ==> now == was.(email := answer[key].text))
      && (answer[key].Str? && key == "preferredUsername" ==> now == was.(preferredUsername := answer[key].text))
      && (answer[key].Str? && key == "avatarURL" ==> now == was.(avatarURL := answer[key].text))
      && (IsStringList(answer[key]) && key == "groups" ==> now == was.(groups := Strings(answer[key].items)))
  {
    var was, now := Visited(answer, keys), Visited(answer, keys + [key]);
    forall other | other != key
      ensures Given(now, other) == Given(was, other) && StringOf(now, other) == StringOf(was, other)
      ensures StringsOf(now, other) == StringsOf(was, other)
    {
    }
    assert !Given(was, key) && key in now && now[key] == answer[key];
  }

  lemma WhenWellTyped(answer: Claims, key: string)
    requires key in answer
    ensures answer[key] == Null || key !in KEYS ==> WellTyped(answer, key)
    ensures answer[key].Str? && key in STRING_KEYS ==> WellTyped(answer, key)
    ensures IsStringList(answer[key]) && key == "groups" ==> WellTyped(answer, key)
  {
  }

  lemma IllTyped(answer: Claims, key: string)
    requires Given(answer, key)
    requires (key in STRING_KEYS && !answer[key].Str?) || (key == "groups" && !IsStringList(answer[key]))
    ensures !Usable(answer)
  {
    assert key in KEYS && !WellTyped(answer, key);
  }

  lemma AllVisited(answer: Claims, order: seq<string>)
    requires Iterates(order, answer)
    ensures Visited(answer, order) == answer
    ensures (forall j :: 0 <= j < |order| ==> WellTyped(answer, order[j])) <==> Usable(answer)
  {
    forall key | key in KEYS && key !in answer
      ensures WellTyped(answer, key)
    {
    }
    forall key | key !in KEYS
      ensures WellTyped(answer, key)
    {
    }
    if forall j :: 0 <= j < |order| ==> WellTyped(answer, order[j]) {
      forall key | key in KEYS
        ensures WellTyped(answer, key)
      {
        if key in answer {
          var j :| 0 <= j < |order| && order[j] == key;
        }
      }
    }
  }

  /** `checkKeys`: accepts exactly what `updateConfig` can use and that holds
      nothing else. */
  method CheckKeys(answer: Claims, order: seq<string>) returns (ok: bool)
    requires Iterates(order, answer)
    ensures ok <==> Usable(answer) && OnlyKnownKeys(answer)
  {
    hide WellTyped;
    for i := 0 to |order|
      invariant forall j :: 0 <= j < i ==>
        WellTyped(answer, order[j]) && (answer[order[j]] != Null ==> order[j] in KEYS)
    {
      var key := order[i];
      WhenWellTyped(answer, key);
      if answer[key] != Null {
        match key {
          case "name" =>
            if !answer[key].Str? { IllTyped(answer, key); return false; }
          case "email" =>
            if !answer[key].Str? { IllTyped(answer, key); return false; }
          case "preferredUsername" =>
            if !answer[key].Str? { IllTyped(answer, key); return false; }
          case "groups" =>
            if !answer[key].Arr? { IllTyped(answer, key); return false; }
            var groups := ReadStrings(answer[key].items);
            if groups.None? { IllTyped(answer, key); return false; }
          case "avatarURL" =>
            if !answer[key].Str? { IllTyped(answer, key); return false; }
          case _ =>
            return false;
        }
      }
    }
    AllVisited(answer, order);
    return true;
  }
}
