/** What a stored credential is called and what is recorded about it
    (internal/helpers/kube/config/storage). */
module Storage {
  import opened Results

  // ---------- Secret names (storage.go) ----------

  const SESSION_SUFFIX := "-clientconfig"
  const STEP_UP_SUFFIX := "-clientconfig-stepup"

  predicate HasSuffix(s: string, suffix: string)
  {
    |suffix| <= |s| && s[|s| - |suffix|..] == suffix
  }

  /** `dns` stands for the library's DNS-1123 conversion of a username. */
  function ClientConfigSecretName(dns: string -> string, username: string): string
  {
    dns(username) + SESSION_SUFFIX
  }

  function StepUpSecretName(dns: string -> string, username: string): string
  {
    ClientConfigSecretName(dns, username) + "-stepup"
  }

  predicate IsStepUpSecretName(name: string)
  {
    HasSuffix(name, STEP_UP_SUFFIX) && |name| > |STEP_UP_SUFFIX|
  }

  /** The two families never share a name, whatever the usernames and however
      they are converted; and a step-up name is recognised as one unless the
      converted username is empty. */
  lemma NameFamiliesAreDisjoint(dns: string -> string, u: string, v: string)
    ensures ClientConfigSecretName(dns, u) != StepUpSecretName(dns, v)
    ensures !IsStepUpSecretName(ClientConfigSecretName(dns, u))
    ensures HasSuffix(ClientConfigSecretName(dns, u), SESSION_SUFFIX)
    ensures !HasSuffix(StepUpSecretName(dns, v), SESSION_SUFFIX)
    ensures IsStepUpSecretName(StepUpSecretName(dns, v)) <==> dns(v) != ""
  {
    var session, stepUp := ClientConfigSecretName(dns, u), StepUpSecretName(dns, v);
    assert SESSION_SUFFIX[12] == 'g' && STEP_UP_SUFFIX[19] == 'p' && "-stepup"[6] == 'p';
    assert session[|session| - 1] == 'g' && stepUp[|stepUp| - 1] == 'p';
    assert stepUp == dns(v) + STEP_UP_SUFFIX by {
      assert SESSION_SUFFIX + "-stepup" == STEP_UP_SUFFIX;
    }
    SuffixEnds(session, STEP_UP_SUFFIX);
    SuffixEnds(stepUp, SESSION_SUFFIX);
  }

  /** A Secret's name tells users apart, as far as their converted names do. */
  lemma NamesTellUsersApart(dns: string -> string, u: string, v: string)
    ensures ClientConfigSecretName(dns, u) == ClientConfigSecretName(dns, v) <==> dns(u) == dns(v)
    ensures StepUpSecretName(dns, u) == StepUpSecretName(dns, v) <==> dns(u) == dns(v)
  {
    SameSuffix(dns(u), dns(v), SESSION_SUFFIX);
    SameSuffix(ClientConfigSecretName(dns, u), ClientConfigSecretName(dns, v), "-stepup");
  }

  lemma SameSuffix(s: string, t: string, suffix: string)
    ensures s + suffix == t + suffix <==> s == t
  {
    if s + suffix == t + suffix {
      assert |s| == |t|;
      assert s == (s + suffix)[..|s|] && t == (t + suffix)[..|t|];
    }
  }

  /** Which names the sweep and the backfill take for theirs. */
  lemma FamiliesAre(name: string)
    ensures IsStepUpSecretName(name) <==> exists user :: user != "" && name == user + "-clientconfig-stepup"
    ensures HasSuffix(name, SESSION_SUFFIX) <==> exists user :: name == user + "-clientconfig"
  {
    if HasSuffix(name, STEP_UP_SUFFIX) {
      assert name == name[..|name| - |STEP_UP_SUFFIX|] + "-clientconfig-stepup";
    }
    if HasSuffix(name, SESSION_SUFFIX) {
      assert name == name[..|name| - |SESSION_SUFFIX|] + "-clientconfig";
    }
    if user :| name == user + "-clientconfig-stepup" {
      assert name[|user|..] == STEP_UP_SUFFIX;
    }
    if user :| name == user + "-clientconfig" {
      assert name[|user|..] == SESSION_SUFFIX;
    }
  }

  lemma SuffixEnds(s: string, suffix: string)
    requires suffix != ""
    ensures HasSuffix(s, suffix) ==> s != "" && s[|s| - 1] == suffix[|suffix| - 1]
  {
    if HasSuffix(s, suffix) {
      assert s[|s| - |suffix|..][|suffix| - 1] == s[|s| - 1];
    }
  }

  // ---------- Groups as one annotation (identity.go) ----------

  /** `ValidateGroups`: no group may contain the separator. */
  predicate ValidGroups(groups: seq<string>)
  {
    forall i :: 0 <= i < |groups| ==> '\n' !in groups[i]
  }

  function JoinGroups(groups: seq<string>): string
  {
    if groups == [] then ""
    else if |groups| == 1 then groups[0]
    else groups[0] + ['\n'] + JoinGroups(groups[1..])
  }

  /** Up to the first separator. */
  function FirstLine(v: string): (n: nat)
    ensures n <= |v| && '\n' !in v[..n] && (n < |v| ==> v[n] == '\n')
  {
    if v == "" || v[0] == '\n' then 0 else 1 + FirstLine(v[1..])
  }

  function Lines(v: string): (lines: seq<string>)
    ensures lines != []
    decreases |v|
  {
    var n := FirstLine(v);
    if n == |v| then [v] else [v[..n]] + Lines(v[n + 1..])
  }

  function SplitGroups(v: string): seq<string>
  {
    if v == "" then [] else Lines(v)
  }

  lemma {:induction false} FirstLineOf(line: string, rest: string)
    requires '\n' !in line
    ensures FirstLine(line) == |line|
    ensures FirstLine(line + ['\n'] + rest) == |line|
  {
    var v := line + ['\n'] + rest;
    if line != "" {
      FirstLineOf(line[1..], rest);
      assert v[1..] == line[1..] + ['\n'] + rest;
    }
  }

  lemma {:induction false} LinesOfJoin(groups: seq<string>)
    requires ValidGroups(groups) && groups != []
    ensures Lines(JoinGroups(groups)) == groups
  {
    var g := groups[0];
    if |groups| == 1 {
      FirstLineOf(g, "");
    } else {
      var rest := JoinGroups(groups[1..]);
      FirstLineOf(g, rest);
      assert JoinGroups(groups)[|g| + 1..] == rest && JoinGroups(groups)[..|g|] == g;
      LinesOfJoin(groups[1..]);
    }
  }

  lemma {:induction false} JoinOfLines(v: string)
    ensures JoinGroups(Lines(v)) == v && ValidGroups(Lines(v))
    decreases |v|
  {
    var n := FirstLine(v);
    if n < |v| {
      assert Lines(v) == [v[..n]] + Lines(v[n + 1..]);
      hide Lines, FirstLine;
      JoinOfLines(v[n + 1..]);
      JoinOfMore(v[..n], Lines(v[n + 1..]));
      assert v == v[..n] + ['\n'] + v[n + 1..];
    }
  }

  lemma JoinOfMore(line: string, more: seq<string>)
    requires more != []
    ensures JoinGroups([line] + more) == line + ['\n'] + JoinGroups(more)
    ensures '\n' !in line && ValidGroups(more) ==> ValidGroups([line] + more)
  {
    assert ([line] + more)[1..] == more;
  }

  /** `SplitGroups` undoes the join for every valid list but `[""]`, and the
      join undoes it for every text. */
  lemma GroupsRoundTrip(groups: seq<string>, v: string)
    requires ValidGroups(groups)
    ensures SplitGroups(JoinGroups(groups)) == groups <==> groups != [""]
    ensures JoinGroups(SplitGroups(v)) == v && ValidGroups(SplitGroups(v))
  {
    JoinOfLines(v);
    if groups != [] {
      LinesOfJoin(groups);
      if JoinGroups(groups) == "" {
        assert Lines("") == [""];
      }
    }
  }

  /** The encoding tells valid lists apart, except the empty list from `[""]`. */
  lemma JoinIsAlmostInjective(groups: seq<string>, groups': seq<string>)
    requires ValidGroups(groups) && ValidGroups(groups')
    ensures JoinGroups(groups) == JoinGroups(groups')
       <==> groups == groups' || {groups, groups'} == {[], [""]}
  {
    GroupsRoundTrip(groups, "");
    GroupsRoundTrip(groups', "");
  }

  // ---------- Certificates and annotations ----------

  /** Instants and durations are in nanoseconds. */
  const MINUTE: int := 60_000_000_000

  /** The fields of an X.509 client certificate that the service reads. */
  datatype Certificate = Certificate(commonName: string, groups: seq<string>, notBefore: int, notAfter: int)

  /** The stored text of a certificate: one that parses, told apart from others
      with the same fields by its serial number, or one that does not. */
  datatype CertData = Readable(cert: Certificate, serial: nat) | Unreadable(text: string)

  datatype AnnotationKey = NotBefore | NotAfter | Strategy | Groups | Other(name: string)

  /** An instant stands for its RFC 3339 text. */
  datatype AnnotationValue = Instant(at: int) | Text(text: string)

  type Annotations = map<AnnotationKey, AnnotationValue>

  function CertValidityAnnotations(data: CertData): Annotations
  {
    match data
    case Unreadable(_) => map[]
    case Readable(crt, _) => map[NotBefore := Instant(crt.notBefore), NotAfter := Instant(crt.notAfter)]
  }

  datatype IdentityError = EmptyStrategy | CertificateUnreadable | GroupWithNewline

  function IdentityAnnotations(strategy: string, data: CertData): Result<Annotations, IdentityError>
  {
    if strategy == "" then Err(EmptyStrategy)
    else if data.Unreadable? then Err(CertificateUnreadable)
    else if !ValidGroups(data.cert.groups) then Err(GroupWithNewline)
    else Ok(map[Strategy := Text(strategy), Groups := Text(JoinGroups(data.cert.groups))])
  }

  /** What the annotations say, when they say it, is what the certificate says. */
  predicate Truthful(data: CertData, ann: Annotations)
  {
    && (NotBefore in ann ==> data.Readable? && ann[NotBefore] == Instant(data.cert.notBefore))
    && (NotAfter in ann ==> data.Readable? && ann[NotAfter] == Instant(data.cert.notAfter))
    && (Groups in ann ==> data.Readable? && ann[Groups] == Text(JoinGroups(data.cert.groups)))
  }

  /** What is recorded of whom, and when it is refused. */
  lemma RecordedIs(strategy: string, data: CertData)
    ensures PutAnnotations(strategy, data).Ok? <==>
      strategy != "" && data.Readable? && forall g :: g in data.cert.groups ==> '\n' !in g
    ensures PutAnnotations(strategy, data).Ok? ==>
      PutAnnotations(strategy, data).value == map[
        NotBefore := Instant(data.cert.notBefore), NotAfter := Instant(data.cert.notAfter),
        Strategy := Text(strategy), Groups := Text(JoinGroups(data.cert.groups))]
    ensures PutAnnotations(strategy, data).Err? ==>
      PutAnnotations(strategy, data).error
        == if strategy == "" then EmptyStrategy else if data.Unreadable? then CertificateUnreadable
           else GroupWithNewline
  {
  }

  /** What `Put` stamps: nothing is stored at all if the identity is refused. */
  function PutAnnotations(strategy: string, data: CertData): Result<Annotations, IdentityError>
  {
    match IdentityAnnotations(strategy, data)
    case Err(e) => Err(e)
    case Ok(identity) => Ok(CertValidityAnnotations(data) + identity)
  }
}
