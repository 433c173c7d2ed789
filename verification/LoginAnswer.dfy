/** What a successful login answers: the session and a token that never
    outlives its credential (internal/helpers/encode/success.go). */
module LoginAnswer {
  import opened Results
  import opened Storage
  import opened Durations
  import opened UserInfo
  import opened Minting

  const DEFAULT_JWT_DURATION: Duration := 8 * 60 * MINUTE

  /** What there is to sign tokens with, and whether signing works at `now`. */
  datatype Signer = NoSigner | Signer(works: bool, now: int)

  datatype Token = Token(username: string, groups: seq<string>, duration: Duration)

  datatype Response = Response(
    data: Option<Kubeconfig>,
    username: string,
    groups: seq<string>,
    token: Option<Token>)

  function Requested(requested: Duration): (d: Duration)
    ensures d > 0
  {
    if requested <= 0 then DEFAULT_JWT_DURATION else requested
  }

  function TokenDuration(requested: Duration, notAfter: int, now: int): (d: Duration)
  {
    if notAfter == ZERO_TIME then Requested(requested)
    else if Sub(notAfter, now) < Requested(requested) then Sub(notAfter, now)
    else Requested(requested)
  }

  /** The token ends with the credential at the latest, and otherwise lasts as
      long as was asked; beside an expired credential it is expired. */
  lemma TokenEndsInTime(requested: Duration, notAfter: int, now: int)
    requires notAfter != ZERO_TIME
    ensures var d := TokenDuration(requested, notAfter, now);
      var asked := if requested > 0 then requested else 8 * 3600 * 1_000_000_000;
      && d <= asked
      && (d > 0 ==> now + d <= notAfter)
      && (d > 0 <==> now < notAfter)
      && (0 < d < asked ==> now + d == notAfter)
    ensures TokenDuration(requested, ZERO_TIME, now) == if requested > 0 then requested else 8 * 3600 * 1_000_000_000
  {
  }

  /** `Success`: the answer, or none if the token cannot be signed. */
  method Success(user: DefaultUser, data: Option<Kubeconfig>, requested: Duration, notAfter: int, signer: Signer)
    returns (r: Option<Response>)
    ensures r.None? <==> signer.Signer? && !signer.works
    ensures r.Some? ==>
      && r.value.data == data && r.value.username == user.name && r.value.groups == user.groups
      && (r.value.token.Some? <==> signer.Signer?)
      && (signer.Signer? ==>
            r.value.token.value == Token(user.name, user.groups, TokenDuration(requested, notAfter, signer.now)))
  {
    var token := None;
    if signer.Signer? {
      if !signer.works {
        return None;
      }
      token := Some(Token(user.name, user.groups, TokenDuration(requested, notAfter, signer.now)));
    }
    return Some(Response(data, user.name, user.groups, token));
  }
}
