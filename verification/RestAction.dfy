/** The fallback for RESTActions of the old shape: copy the RESTAction and its
    endpoint Secrets for one user, call the copy, delete what was copied
    (internal/helpers/restaction/resolver.go). The user's address is given in
    its DNS-compatible form. */
module RestAction {
  import opened Results
  import opened SecretStore

  type Data = map<string, string>

  /** A stage: its endpoint Secret, if any, and everything else it says. */
  datatype Stage = Stage(endpoint: Option<Key>, rest: string)

  // ---------- Copies ----------

  function CopyOf(k: Key, user: string): Key
  {
    k.(name := k.name + "-" + user)
  }

  lemma CopiesAreDistinct(j: Key, k: Key, user: string)
    ensures CopyOf(j, user) == CopyOf(k, user) ==> j == k
    ensures CopyOf(k, user) != k
  {
    if CopyOf(j, user) == CopyOf(k, user) {
      var tail := "-" + user;
      assert j.name + tail == CopyOf(j, user).name;
      assert k.name + tail == CopyOf(k, user).name;
      assert |j.name| == |k.name|;
      assert j.name == (j.name + tail)[..|j.name|];
      assert k.name == (k.name + tail)[..|k.name|];
    }
    assert |CopyOf(k, user).name| > |k.name|;
  }

  /** A copied endpoint keeps a token of its own and takes the user's otherwise. */
  function WithToken(data: Data, token: string): Data
  {
    if "token" in data then data else data["token" := token]
  }

  /** An endpoint's own token is kept, any other gets the user's, and nothing else
      of the data changes. */
  lemma TokenIs(data: Data, token: string)
    ensures "token" in data ==> WithToken(data, token) == data
    ensures "token" !in data ==>
      && WithToken(data, token).Keys == data.Keys + {"token"} && WithToken(data, token)["token"] == token
      && forall key :: key in data ==> WithToken(data, token)[key] == data[key]
  {}

  /** A copy's name is the original's, a dash and the user's. */
  lemma CopyIs(k: Key, user: string)
    ensures CopyOf(k, user) == Key(k.namespace, k.name + "-" + user)
  {
    assert k.name + "-" + user == k.name + ("-" + user);
  }

  /** Renaming changes the endpoints' names and nothing else of the stages. */
  lemma RenamedIs(stages: seq<Stage>, user: string, i: nat)
    requires i < |stages|
    ensures Renamed(stages, user)[i].rest == stages[i].rest
    ensures stages[i].endpoint.None? ==> Renamed(stages, user)[i].endpoint.None?
    ensures stages[i].endpoint.Some? ==>
      var k := stages[i].endpoint.value;
      Renamed(stages, user)[i].endpoint == Some(Key(k.namespace, k.name + "-" + user))
  {
    if stages[i].endpoint.Some? {
      CopyIs(stages[i].endpoint.value, user);
    }
  }

  function Renamed(stages: seq<Stage>, user: string): (r: seq<Stage>)
    ensures |r| == |stages|
  {
    seq(|stages|, i requires 0 <= i < |stages| =>
      if stages[i].endpoint.None? then stages[i]
      else stages[i].(endpoint := Some(CopyOf(stages[i].endpoint.value, user))))
  }

  function Endpoints(stages: seq<Stage>): set<Key>
  {
    if stages == [] then {}
    else
      var last := stages[|stages| - 1].endpoint;
      Endpoints(stages[..|stages| - 1]) + if last.None? then {} else {last.value}
  }

  /** The endpoint Secrets once every stage has been copied, in order, each
      reading what the earlier ones wrote. */
  function Copied(secrets: map<Key, Data>, stages: seq<Stage>, user: string, token: string): Option<map<Key, Data>>
  {
    if stages == [] then Some(secrets)
    else
      var prev := Copied(secrets, stages[..|stages| - 1], user, token);
      var last := stages[|stages| - 1].endpoint;
      if prev.None? || last.None? then prev
      else if last.value !in prev.value then None
      else Some(prev.value[CopyOf(last.value, user) := WithToken(prev.value[last.value], token)])
  }

  lemma CopiedNext(secrets: map<Key, Data>, stages: seq<Stage>, i: nat, user: string, token: string)
    requires i < |stages| && Copied(secrets, stages[..i], user, token).Some?
    ensures var prev := Copied(secrets, stages[..i], user, token).value;
      Copied(secrets, stages[..i + 1], user, token)
        == if stages[i].endpoint.None? then Some(prev)
           else if stages[i].endpoint.value !in prev then None
           else Some(prev[CopyOf(stages[i].endpoint.value, user) := WithToken(prev[stages[i].endpoint.value], token)])
  {
    assert stages[..i + 1][..i] == stages[..i];
  }

  /** The stages while the first `i` of them are renamed. */
  function PartlyRenamed(stages: seq<Stage>, i: nat, user: string): (r: seq<Stage>)
    requires i <= |stages|
    ensures |r| == |stages| && (i < |stages| ==> r[i] == stages[i])
  {
    Renamed(stages[..i], user) + stages[i..]
  }

  lemma PartlyRenamedAll(stages: seq<Stage>, user: string)
    ensures PartlyRenamed(stages, 0, user) == stages && PartlyRenamed(stages, |stages|, user) == Renamed(stages, user)
    ensures forall secrets, token :: Copied(secrets, stages[..0], user, token) == Some(secrets)
    ensures stages[..|stages|] == stages
  {
  }

  lemma RenamedNext(stages: seq<Stage>, i: nat, user: string)
    requires i < |stages|
    ensures PartlyRenamed(stages, i + 1, user)
      == if stages[i].endpoint.None? then PartlyRenamed(stages, i, user)
         else PartlyRenamed(stages, i, user)[i := stages[i].(endpoint := Some(CopyOf(stages[i].endpoint.value, user)))]
    ensures stages[i].endpoint.Some? ==> CopyOf(stages[i].endpoint.value, user) in Endpoints(Renamed(stages, user))
  {
    if stages[i].endpoint.Some? {
      assert Renamed(stages, user)[i].endpoint == Some(CopyOf(stages[i].endpoint.value, user));
      EndpointsMembers(Renamed(stages, user), CopyOf(stages[i].endpoint.value, user));
    }
  }

  lemma {:induction false} EndpointsMembers(stages: seq<Stage>, k: Key)
    ensures k in Endpoints(stages) <==> exists i :: 0 <= i < |stages| && stages[i].endpoint == Some(k)
  {
    if stages != [] {
      var n := |stages| - 1;
      EndpointsMembers(stages[..n], k);
      if i :| 0 <= i < |stages| && stages[i].endpoint == Some(k) {
        if i < n { assert stages[..n][i] == stages[i]; }
      }
    }
  }

  lemma EndpointsOfNone(stages: seq<Stage>)
    ensures Endpoints(stages[..0]) == {} && stages[..|stages|] == stages
  {
  }

  lemma EndpointsNext(stages: seq<Stage>, i: nat)
    requires i < |stages|
    ensures Endpoints(stages[..i + 1])
      == Endpoints(stages[..i]) + if stages[i].endpoint.None? then {} else {stages[i].endpoint.value}
  {
    assert stages[..i + 1][..i] == stages[..i];
  }

  lemma {:induction false} EndpointsRenamed(stages: seq<Stage>, user: string)
    ensures Endpoints(Renamed(stages, user)) == set k | k in Endpoints(stages) :: CopyOf(k, user)
  {
    if stages != [] {
      var n := |stages| - 1;
      EndpointsRenamed(stages[..n], user);
      assert Renamed(stages, user)[..n] == Renamed(stages[..n], user);
    }
  }

  /** Nothing is different outside `names`. */
  ghost predicate SameOutside<T>(a: map<Key, T>, b: map<Key, T>, names: set<Key>)
  {
    a - names == b - names
  }

  lemma SameOutsideItself<T>(a: map<Key, T>)
    ensures forall names :: SameOutside(a, a, names)
  {
  }

  lemma SameOutsideStep<T>(a: map<Key, T>, b: map<Key, T>, names: set<Key>, k: Key, v: T)
    requires SameOutside(a, b, names) && k in names
    ensures SameOutside(a, b[k := v], names) && SameOutside(a, b - {k}, names)
  {
    assert b[k := v] - names == b - names;
    assert b - {k} - names == b - names;
  }

  // ---------- What copying does ----------

  /** Only copies are written, and each copy is there. */
  lemma {:induction false} OnlyCopiesAreWritten(secrets: map<Key, Data>, stages: seq<Stage>,
                                                user: string, token: string)
    requires Copied(secrets, stages, user, token).Some?
    ensures SameOutside(secrets, Copied(secrets, stages, user, token).value, Endpoints(Renamed(stages, user)))
    ensures Endpoints(Renamed(stages, user)) <= Copied(secrets, stages, user, token).value.Keys
    ensures Copied(secrets, stages, user, token).value.Keys == secrets.Keys + Endpoints(Renamed(stages, user))
  {
    if stages != [] {
      var n := |stages| - 1;
      OnlyCopiesAreWritten(secrets, stages[..n], user, token);
      var before := Copied(secrets, stages[..n], user, token).value;
      assert Renamed(stages, user)[..n] == Renamed(stages[..n], user);
      var small, all := Endpoints(Renamed(stages[..n], user)), Endpoints(Renamed(stages, user));
      assert small <= all;
      assert SameOutside(secrets, before, all) by {
        assert secrets - all == (secrets - small) - all;
        assert before - all == (before - small) - all;
      }
      if stages[n].endpoint.Some? {
        var k := stages[n].endpoint.value;
        SameOutsideStep(secrets, before, all, CopyOf(k, user), WithToken(before[k], token));
      }
    }
  }

  /** Copying succeeds exactly if each endpoint is there, or is the copy an
      earlier stage has made. */
  ghost predicate Resolvable(secrets: map<Key, Data>, stages: seq<Stage>, user: string)
  {
    forall i :: 0 <= i < |stages| ==> ResolvableAt(secrets, stages, i, user)
  }

  ghost predicate ResolvableAt(secrets: map<Key, Data>, stages: seq<Stage>, i: nat, user: string)
    requires i < |stages|
  {
    || stages[i].endpoint.None?
    || stages[i].endpoint.value in secrets
    || stages[i].endpoint.value in Endpoints(Renamed(stages[..i], user))
  }

  lemma {:induction false} CopyingNeeds(secrets: map<Key, Data>, stages: seq<Stage>, user: string, token: string)
    ensures Copied(secrets, stages, user, token).Some? <==> Resolvable(secrets, stages, user)
  {
    hide Endpoints, Renamed;
    if stages != [] {
      var n := |stages| - 1;
      var init := stages[..n];
      CopyingNeeds(secrets, init, user, token);
      forall i | 0 <= i < n
        ensures ResolvableAt(secrets, init, i, user) == ResolvableAt(secrets, stages, i, user)
      {
        assert init[..i] == stages[..i];
      }
      assert Resolvable(secrets, stages, user) <==>
        Resolvable(secrets, init, user) && ResolvableAt(secrets, stages, n, user);
      if Copied(secrets, init, user, token).Some? {
        OnlyCopiesAreWritten(secrets, init, user, token);
      }
    }
  }

  /** No copy's name was taken. */
  ghost predicate NamesFree(secrets: map<Key, Data>, stages: seq<Stage>, user: string)
  {
    Endpoints(Renamed(stages, user)) !! secrets.Keys
  }

  /** No endpoint of the RESTAction is an older Secret that bears a copy's name. */
  ghost predicate Untangled(secrets: map<Key, Data>, stages: seq<Stage>, user: string)
  {
    Endpoints(stages) * Endpoints(Renamed(stages, user)) * secrets.Keys == {}
  }

  /** Every copy holds its original's data and a token: what the called copy of
      the RESTAction finds at each stage's endpoint. */
  ghost predicate CopiesHold(after: map<Key, Data>, endpoints: set<Key>, user: string, token: string)
  {
    forall k :: k in endpoints ==>
      k in after && CopyOf(k, user) in after && after[CopyOf(k, user)] == WithToken(after[k], token)
  }

  lemma {:induction false} CopiesHoldTheOriginals(secrets: map<Key, Data>, stages: seq<Stage>,
                                                  user: string, token: string)
    requires Copied(secrets, stages, user, token).Some? && Untangled(secrets, stages, user)
    ensures CopiesHold(Copied(secrets, stages, user, token).value, Endpoints(stages), user, token)
  {
    if stages != [] {
      hide CopiesHold;
      var n := |stages| - 1;
      var init := stages[..n];
      assert Renamed(stages, user)[..n] == Renamed(init, user);
      assert Untangled(secrets, init, user);
      CopiesHoldTheOriginals(secrets, init, user, token);
      OnlyCopiesAreWritten(secrets, init, user, token);
      if stages[n].endpoint.Some? {
        var k := stages[n].endpoint.value;
        ReadCopiesAreOwn(secrets, Copied(secrets, init, user, token).value, stages, user);
        CopyKeepsCopies(Copied(secrets, init, user, token).value, Endpoints(init), k, user, token);
      }
    }
  }

  /** If the name of this copy was read by an earlier stage, that was a copy
      too, and of the same endpoint. */
  lemma ReadCopiesAreOwn(secrets: map<Key, Data>, before: map<Key, Data>, stages: seq<Stage>, user: string)
    requires stages != [] && stages[|stages| - 1].endpoint.Some? && Untangled(secrets, stages, user)
    requires before.Keys == secrets.Keys + Endpoints(Renamed(stages[..|stages| - 1], user))
    requires Endpoints(stages[..|stages| - 1]) <= before.Keys
    ensures var k := stages[|stages| - 1].endpoint.value;
      CopyOf(k, user) in Endpoints(stages[..|stages| - 1]) ==> k in Endpoints(stages[..|stages| - 1])
  {
    hide CopyOf, Endpoints, Renamed;
    var n := |stages| - 1;
    var k := stages[n].endpoint.value;
    var copy := CopyOf(k, user);
    if copy in Endpoints(stages[..n]) {
      EndpointsNext(stages, n);
      assert stages[..n + 1] == stages;
      EndpointsRenamed(stages, user);
      EndpointsRenamed(stages[..n], user);
      assert k in Endpoints(stages) && copy in Endpoints(stages);
      assert copy in Endpoints(Renamed(stages, user));
      assert copy !in Endpoints(stages) * Endpoints(Renamed(stages, user)) * secrets.Keys;
      var k' :| k' in Endpoints(stages[..n]) && CopyOf(k', user) == copy;
      CopiesAreDistinct(k', k, user);
    }
  }

  /** One more copy does not disturb those made before. */
  lemma CopyKeepsCopies(before: map<Key, Data>, endpoints: set<Key>, k: Key, user: string, token: string)
    requires CopiesHold(before, endpoints, user, token) && k in before
    requires CopyOf(k, user) in endpoints ==> k in endpoints
    ensures CopiesHold(before[CopyOf(k, user) := WithToken(before[k], token)], endpoints + {k}, user, token)
  {
    hide WithToken, CopyOf;
    var copy := CopyOf(k, user);
    CopiesAreDistinct(k, k, user);
    if copy in endpoints {
      assert before[copy := WithToken(before[k], token)] == before;
    } else {
      forall j | j in endpoints
        ensures CopyOf(j, user) == copy ==> j == k
      {
        CopiesAreDistinct(j, k, user);
      }
    }
  }

  /** Cleaning up restores the Secrets exactly if no copy's name was taken. */
  lemma RestoredIff(secrets: map<Key, Data>, stages: seq<Stage>, user: string, token: string)
    requires Copied(secrets, stages, user, token).Some?
    ensures var names := Endpoints(Renamed(stages, user));
      && Copied(secrets, stages, user, token).value - names == secrets - names
      && (Copied(secrets, stages, user, token).value - names == secrets <==> NamesFree(secrets, stages, user))
  {
    OnlyCopiesAreWritten(secrets, stages, user, token);
    var names := Endpoints(Renamed(stages, user));
    if NamesFree(secrets, stages, user) {
      assert secrets - names == secrets;
    } else {
      var k :| k in names && k in secrets;
      assert k !in secrets - names;
    }
  }

  /** Failed attempts leave copies behind, and only copies: whatever they left
      of them, a RESTAction among them, the next attempt copies the same stages,
      and the first that succeeds ends in the state before them all. */
  lemma RetriesRestore(first: map<Key, Data>, actions: map<Key, seq<Stage>>, left: map<Key, Data>,
                       leftActions: map<Key, seq<Stage>>, ref: Key, user: string, token: string)
    requires ref in actions && SameOutside(actions, leftActions, {CopyOf(ref, user)}) && CopyOf(ref, user) !in actions
    requires SameOutside(first, left, Endpoints(Renamed(actions[ref], user))) && NamesFree(first, actions[ref], user)
    requires Copied(left, actions[ref], user, token).Some?
    ensures ref in leftActions && leftActions[ref] == actions[ref]
    ensures Copied(left, actions[ref], user, token).value - Endpoints(Renamed(actions[ref], user)) == first
    ensures leftActions[CopyOf(ref, user) := Renamed(actions[ref], user)] - {CopyOf(ref, user)} == actions
  {
    var stages, copy := actions[ref], CopyOf(ref, user);
    CopiesAreDistinct(ref, ref, user);
    RestoredIff(left, stages, user, token);
    assert first - Endpoints(Renamed(stages, user)) == first;
    assert actions - {copy} == actions;
    assert leftActions[copy := Renamed(stages, user)] - {copy} == leftActions - {copy};
    assert ref in leftActions - {copy};
  }

  /** A name that is taken is lost: the Secret that bore it is overwritten,
      and then deleted. */
  lemma TakenNameIsLost()
    ensures
      var endpoint, other := Key("ns", "github"), Key("ns", "github-jane");
      var secrets: map<Key, Data> := map[endpoint := map["url" := "u"], other := map["url" := "v"]];
      var stages := [Stage(Some(endpoint), "")];
      && Copied(secrets, stages, "jane", "t").Some?
      && Copied(secrets, stages, "jane", "t").value - Endpoints(Renamed(stages, "jane"))
           == map[endpoint := map["url" := "u"]]
  {
    var endpoint, other := Key("ns", "github"), Key("ns", "github-jane");
    var secrets: map<Key, Data> := map[endpoint := map["url" := "u"], other := map["url" := "v"]];
    var stages := [Stage(Some(endpoint), "")];
    assert CopyOf(endpoint, "jane").name == "github-jane";
    assert stages[..0] == [];
    assert Copied(secrets, [], "jane", "t") == Some(secrets);
    assert Copied(secrets, stages, "jane", "t") == Some(secrets[other := WithToken(secrets[endpoint], "t")]);
    EndpointsRenamed(stages, "jane");
    assert Endpoints(stages) == {endpoint};
    assert Endpoints(Renamed(stages, "jane")) == {other};
  }

  // ---------- The objects of the cluster ----------

  /** What becomes of one call: carried out, lost on its way, or carried out
      with the answer lost. */
  datatype Fate = Fine | Lost | AnswerLost

  datatype Failure = NotFound | Broken

  datatype Outcome<S> = Answer(status: S) | CopyFailed(cause: Failure) | CallFailed | CleanupFailed(cause: Failure)

  ghost predicate Quiet(fates: seq<Fate>)
  {
    forall i :: 0 <= i < |fates| ==> fates[i] == Fine
  }

  class Objects {
    var secrets: map<Key, Data>
    var restActions: map<Key, seq<Stage>>
    var fates: seq<Fate>

    constructor (secrets: map<Key, Data>, restActions: map<Key, seq<Stage>>, fates: seq<Fate>)
      ensures this.secrets == secrets && this.restActions == restActions && this.fates == fates
    {
      this.secrets, this.restActions, this.fates := secrets, restActions, fates;
    }

    method NextFate() returns (fate: Fate)
      modifies this`fates
      ensures Quiet(old(fates)) ==> Quiet(fates) && fate == Fine
    {
      if fates == [] {
        return Fine;
      }
      fate, fates := fates[0], fates[1..];
    }

    method GetSecret(k: Key) returns (r: Result<Data, Failure>)
      modifies this`fates
      ensures r.Ok? ==> k in secrets && r.value == secrets[k]
      ensures r.Err? && r.error == NotFound ==> k !in secrets
      ensures Quiet(old(fates)) ==> Quiet(fates) && !(r.Err? && r.error == Broken)
    {
      var fate := NextFate();
      return if fate != Fine then Err(Broken) else if k in secrets then Ok(secrets[k]) else Err(NotFound);
    }

    method GetRestAction(k: Key) returns (r: Result<seq<Stage>, Failure>)
      modifies this`fates
      ensures r.Ok? ==> k in restActions && r.value == restActions[k]
      ensures r.Err? && r.error == NotFound ==> k !in restActions
      ensures Quiet(old(fates)) ==> Quiet(fates) && !(r.Err? && r.error == Broken)
    {
      var fate := NextFate();
      return if fate != Fine then Err(Broken) else if k in restActions then Ok(restActions[k]) else Err(NotFound);
    }

    method CreateOrUpdateSecret(k: Key, data: Data) returns (ok: bool)
      modifies this`fates, this`secrets
      ensures secrets == old(secrets)[k := data] || (!ok && secrets == old(secrets))
      ensures Quiet(old(fates)) ==> Quiet(fates) && ok
    {
      var existing := GetSecret(k);
      if existing == Err(Broken) {
        return false;
      }
      var fate := NextFate();
      if fate != Lost {
        secrets := secrets[k := data];
      }
      return fate == Fine;
    }

    method CreateOrUpdateRestAction(k: Key, stages: seq<Stage>) returns (ok: bool)
      modifies this`fates, this`restActions
      ensures restActions == old(restActions)[k := stages] || (!ok && restActions == old(restActions))
      ensures Quiet(old(fates)) ==> Quiet(fates) && ok
    {
      var existing := GetRestAction(k);
      if existing == Err(Broken) {
        return false;
      }
      var fate := NextFate();
      if fate != Lost {
        restActions := restActions[k := stages];
      }
      return fate == Fine;
    }

    method DeleteSecret(k: Key) returns (r: Option<Failure>)
      modifies this`fates, this`secrets
      ensures r.None? ==> k in old(secrets) && secrets == old(secrets) - {k}
      ensures secrets in {old(secrets), old(secrets) - {k}}
      ensures r.Some? && r.value == NotFound ==> k !in old(secrets)
      ensures Quiet(old(fates)) ==> Quiet(fates) && !(r.Some? && r.value == Broken)
    {
      var fate := NextFate();
      if fate == Lost {
        return Some(Broken);
      }
      if k !in secrets {
        return Some(if fate == Fine then NotFound else Broken);
      }
      secrets := secrets - {k};
      return if fate == Fine then None else Some(Broken);
    }

    method DeleteRestAction(k: Key) returns (r: Option<Failure>)
      modifies this`fates, this`restActions
      ensures r.None? ==> k in old(restActions) && restActions == old(restActions) - {k}
      ensures restActions in {old(restActions), old(restActions) - {k}}
      ensures r.Some? && r.value == NotFound ==> k !in old(restActions)
      ensures Quiet(old(fates)) ==> Quiet(fates) && !(r.Some? && r.value == Broken)
    {
      var fate := NextFate();
      if fate == Lost {
        return Some(Broken);
      }
      if k !in restActions {
        return Some(if fate == Fine then NotFound else Broken);
      }
      restActions := restActions - {k};
      return if fate == Fine then None else Some(Broken);
    }

    /** Copies the RESTAction and its endpoints for the user. */
    method CopyWithEndpoints(ref: Key, user: string, token: string) returns (r: Result<Key, Failure>)
      modifies this
      ensures ref !in old(restActions) ==> r.Err? && secrets == old(secrets) && restActions == old(restActions)
      ensures ref in old(restActions) ==>
        && SameOutside(old(secrets), secrets, Endpoints(Renamed(old(restActions)[ref], user)))
        && SameOutside(old(restActions), restActions, {CopyOf(ref, user)})
      ensures r.Ok? ==>
        && ref in old(restActions) && r.value == CopyOf(ref, user)
        && Copied(old(secrets), old(restActions)[ref], user, token) == Some(secrets)
        && restActions == old(restActions)[CopyOf(ref, user) := Renamed(old(restActions)[ref], user)]
      ensures Quiet(old(fates)) ==>
        && Quiet(fates)
        && (r.Ok? <==> ref in old(restActions) && Copied(old(secrets), old(restActions)[ref], user, token).Some?)
    {
      hide Copied, Endpoints, Renamed, PartlyRenamed, SameOutside, CopyOf;
      SameOutsideItself(secrets);
      SameOutsideItself(restActions);
      var got := GetRestAction(ref);
      if got.Err? {
        return Err(got.error);
      }
      var stages := got.value;
      ghost var spec := got.value;
      ghost var names := Endpoints(Renamed(spec, user));
      PartlyRenamedAll(spec, user);
      var i := 0;
      while i < |stages|
        invariant 0 <= i <= |stages| == |spec|
        invariant stages == PartlyRenamed(spec, i, user)
        invariant restActions == old(restActions)
        invariant SameOutside(old(secrets), secrets, names)
        invariant Copied(old(secrets), spec[..i], user, token) == Some(secrets)
        invariant Quiet(old(fates)) ==> Quiet(fates)
      {
        CopiedNext(old(secrets), spec, i, user, token);
        RenamedNext(spec, i, user);
        if stages[i].endpoint.Some? {
          var endpoint := stages[i].endpoint.value;
          var read := GetSecret(endpoint);
          if read.Err? {
            if endpoint !in secrets {
              UncopiedPrefix(old(secrets), spec, i + 1, user, token);
            }
            return Err(read.error);
          }
          var data := read.value;
          if "token" !in data {
            data := data["token" := token];
          }
          stages := stages[i := stages[i].(endpoint := Some(CopyOf(endpoint, user)))];
          SameOutsideStep(old(secrets), secrets, names, CopyOf(endpoint, user), data);
          var ok := CreateOrUpdateSecret(CopyOf(endpoint, user), data);
          if !ok {
            return Err(Broken);
          }
        }
        i := i + 1;
      }
      SameOutsideStep(old(restActions), restActions, {CopyOf(ref, user)}, CopyOf(ref, user), stages);
      var ok := CreateOrUpdateRestAction(CopyOf(ref, user), stages);
      if !ok {
        return Err(Broken);
      }
      return Ok(CopyOf(ref, user));
    }

    /** Deletes the RESTAction and the endpoints it names, each once. */
    method DeleteWithEndpoints(ref: Key) returns (r: Option<Failure>)
      modifies this
      ensures ref !in old(restActions) ==> r.Some? && secrets == old(secrets) && restActions == old(restActions)
      ensures ref in old(restActions) ==>
        && SameOutside(old(secrets), secrets, Endpoints(old(restActions)[ref]))
        && SameOutside(old(restActions), restActions, {ref})
      ensures r.None? ==>
        && ref in old(restActions)
        && secrets == old(secrets) - Endpoints(old(restActions)[ref])
        && restActions == old(restActions) - {ref}
      ensures r.Some? && r.value == NotFound ==>
        ref !in old(restActions) || !(Endpoints(old(restActions)[ref]) <= old(secrets).Keys)
      ensures Quiet(old(fates)) ==>
        && Quiet(fates)
        && (r.None? <==> ref in old(restActions) && Endpoints(old(restActions)[ref]) <= old(secrets).Keys)
    {
      hide Endpoints, SameOutside;
      SameOutsideItself(secrets);
      SameOutsideItself(restActions);
      var got := GetRestAction(ref);
      if got.Err? {
        return Some(got.error);
      }
      var stages := got.value;
      ghost var names := Endpoints(stages);
      var deleted: seq<Key> := [];
      var i := 0;
      EndpointsOfNone(stages);
      while i < |stages|
        invariant 0 <= i <= |stages|
        invariant restActions == old(restActions)
        invariant forall k :: k in deleted <==> k in Endpoints(stages[..i])
        invariant secrets == old(secrets) - Endpoints(stages[..i])
        invariant Endpoints(stages[..i]) <= old(secrets).Keys
        invariant SameOutside(old(secrets), secrets, names)
        invariant Quiet(old(fates)) ==> Quiet(fates)
      {
        EndpointsNext(stages, i);
        if stages[i].endpoint.Some? {
          var endpoint := stages[i].endpoint.value;
          EndpointsMembers(stages, endpoint);
          var seen := HasSecret(deleted, endpoint);
          if seen {
            i := i + 1;
            continue;
          }
          SameOutsideStep(old(secrets), secrets, names, endpoint, map[]);
          var failure := DeleteSecret(endpoint);
          if failure.Some? {
            return failure;
          }
          deleted := deleted + [endpoint];
        }
        i := i + 1;
      }
      assert stages[..i] == stages;
      SameOutsideStep(old(restActions), restActions, {ref}, ref, []);
      r := DeleteRestAction(ref);
    }

    /** The whole fallback; `served` is what the called copy finds. No status
        is returned if the call fails, and then nothing is cleaned up. */
    method LegacyResolve<S>(ref: Key, user: string, token: string, answer: Option<S>)
      returns (outcome: Outcome<S>, ghost served: map<Key, Data>)
      modifies this
      ensures ref in old(restActions) ==>
        && SameOutside(old(secrets), secrets, Endpoints(Renamed(old(restActions)[ref], user)))
        && SameOutside(old(restActions), restActions, {CopyOf(ref, user)})
      ensures ref !in old(restActions) ==> secrets == old(secrets) && restActions == old(restActions)
      ensures outcome.Answer? ==> ref in old(restActions) && answer == Some(outcome.status)
      ensures outcome.Answer? ==>
        && secrets == old(secrets) - Endpoints(Renamed(old(restActions)[ref], user))
        && restActions == old(restActions) - {CopyOf(ref, user)}
        && (secrets == old(secrets) && restActions == old(restActions) <==>
              NamesFree(old(secrets), old(restActions)[ref], user) && CopyOf(ref, user) !in old(restActions))
      ensures !outcome.CopyFailed? ==>
        && ref in old(restActions)
        && Copied(old(secrets), old(restActions)[ref], user, token) == Some(served)
        && (Untangled(old(secrets), old(restActions)[ref], user) ==>
              CopiesHold(served, Endpoints(old(restActions)[ref]), user, token))
      ensures outcome.CallFailed? ==>
        && ref in old(restActions) && secrets == served
        && restActions == old(restActions)[CopyOf(ref, user) := Renamed(old(restActions)[ref], user)]
      ensures outcome.CleanupFailed? ==> outcome.cause == Broken
      ensures Quiet(old(fates)) ==> (outcome.Answer? <==>
        && ref in old(restActions) && Resolvable(old(secrets), old(restActions)[ref], user) && answer.Some?)
    {
      hide Copied, Resolvable, CopiesHold;
      served := map[];
      var copied := CopyWithEndpoints(ref, user, token);
      if ref in old(restActions) {
        CopyingNeeds(old(secrets), old(restActions)[ref], user, token);
      }
      if copied.Err? {
        return CopyFailed(copied.error), served;
      }
      served := secrets;
      ghost var stages := old(restActions)[ref];
      if Untangled(old(secrets), stages, user) {
        CopiesHoldTheOriginals(old(secrets), stages, user, token);
      }
      if answer.None? {
        return CallFailed, served;
      }
      OnlyCopiesAreWritten(old(secrets), stages, user, token);
      RestoredIff(old(secrets), stages, user, token);
      label called:
      var copy := copied.value;
      assert restActions[copy] == Renamed(stages, user);
      var failure := DeleteWithEndpoints(copy);
      assert restActions - {copy} == old(restActions) - {copy};
      if failure.Some? {
        return CleanupFailed(failure.value), served;
      }
      assert restActions == old(restActions) - {copy};
      return Answer(answer.value), served;
    }
  }

  /** What cannot be copied for a first part of the stages cannot be copied. */
  lemma {:induction false} UncopiedPrefix(secrets: map<Key, Data>, stages: seq<Stage>, n: nat,
                                          user: string, token: string)
    requires n <= |stages| && Copied(secrets, stages[..n], user, token).None?
    ensures Copied(secrets, stages, user, token).None?
  {
    if n == |stages| {
      assert stages[..n] == stages;
    } else {
      var init := stages[..|stages| - 1];
      assert init[..n] == stages[..n];
      UncopiedPrefix(secrets, init, n, user, token);
    }
  }

  method HasSecret(list: seq<Key>, k: Key) returns (found: bool)
    ensures found <==> k in list
  {
    for i := 0 to |list|
      invariant k !in list[..i]
    {
      if list[i] == k {
        return true;
      }
    }
    return false;
  }
}
