/** Identities and the groups only the service may grant
    (internal/helpers/userinfo/userinfo.go). */
module UserInfo {

  const RESERVED_GROUP_PREFIX := "krateo:loa:"

  predicate IsReserved(group: string)
  {
    |RESERVED_GROUP_PREFIX| <= |group| && group[..|RESERVED_GROUP_PREFIX|] == RESERVED_GROUP_PREFIX
  }

  lemma ReservedIs(group: string)
    ensures IsReserved(group) <==> exists rest :: group == "krateo:loa:" + rest
  {
    if IsReserved(group) {
      assert group == "krateo:loa:" + group[|RESERVED_GROUP_PREFIX|..];
    }
    if rest :| group == "krateo:loa:" + rest {
      assert group[..|RESERVED_GROUP_PREFIX|] == RESERVED_GROUP_PREFIX;
    }
  }

  function Decimal(n: nat): (s: string)
    ensures s != ""
  {
    var digit := ["0123456789"[n % 10]];
    if n < 10 then digit else Decimal(n / 10) + digit
  }

  /** The group that records a step-up login at `level`. */
  function StepUpGroup(level: int): string
  {
    RESERVED_GROUP_PREFIX + if level < 0 then "-" + Decimal(-level) else Decimal(level)
  }

  lemma StepUpGroupIsReserved(level: int)
    ensures IsReserved(StepUpGroup(level))
  {
    assert StepUpGroup(level)[..|RESERVED_GROUP_PREFIX|] == RESERVED_GROUP_PREFIX;
  }

  // ---------- Splitting off the reserved groups ----------

  /** What an identity source may assert of `groups`, in its order. */
  function Kept(groups: seq<string>): seq<string>
  {
    if groups == [] then []
    else Kept(groups[..|groups| - 1]) + if IsReserved(groups[|groups| - 1]) then [] else [groups[|groups| - 1]]
  }

  function Dropped(groups: seq<string>): seq<string>
  {
    if groups == [] then []
    else Dropped(groups[..|groups| - 1]) + if IsReserved(groups[|groups| - 1]) then [groups[|groups| - 1]] else []
  }

  predicate NoneReserved(groups: seq<string>)
  {
    forall i :: 0 <= i < |groups| ==> !IsReserved(groups[i])
  }

  predicate AllReserved(groups: seq<string>)
  {
    forall i :: 0 <= i < |groups| ==> IsReserved(groups[i])
  }

  /** Nothing is lost or invented, and the two parts are told apart by the
      prefix alone. */
  lemma SplitIsExact(groups: seq<string>)
    ensures NoneReserved(Kept(groups)) && AllReserved(Dropped(groups))
    ensures multiset(Kept(groups)) + multiset(Dropped(groups)) == multiset(groups)
  {
    SplitByPrefix(groups);
    SplitConserves(groups);
  }

  lemma {:induction false} SplitConserves(groups: seq<string>)
    ensures multiset(Kept(groups)) + multiset(Dropped(groups)) == multiset(groups)
  {
    if groups != [] {
      var init, last := groups[..|groups| - 1], groups[|groups| - 1];
      assert groups == init + [last];
      assert Kept(groups) == if IsReserved(last) then Kept(init) else Kept(init) + [last];
      assert Dropped(groups) == if IsReserved(last) then Dropped(init) + [last] else Dropped(init);
      hide Kept, Dropped, IsReserved;
      SplitConserves(init);
      assert multiset(groups) == multiset(init) + multiset{last};
      assert multiset(Kept(init) + [last]) == multiset(Kept(init)) + multiset{last};
      assert multiset(Dropped(init) + [last]) == multiset(Dropped(init)) + multiset{last};
    }
  }

  lemma {:induction false} SplitByPrefix(groups: seq<string>)
    ensures NoneReserved(Kept(groups)) && AllReserved(Dropped(groups))
  {
    if groups != [] {
      hide IsReserved;
      SplitByPrefix(groups[..|groups| - 1]);
    }
  }

  /** The order is kept: splitting goes through concatenation. */
  lemma {:induction false} KeptOfConcat(a: seq<string>, b: seq<string>)
    ensures Kept(a + b) == Kept(a) + Kept(b)
    ensures Dropped(a + b) == Dropped(a) + Dropped(b)
    decreases |b|
  {
    if b == [] {
      assert a + b == a;
    } else {
      KeptOfConcat(a, b[..|b| - 1]);
      assert (a + b)[..|a + b| - 1] == a + b[..|b| - 1];
    }
  }

  lemma {:induction false} KeptFixesTheUnreserved(groups: seq<string>)
    ensures Kept(groups) == groups <==> NoneReserved(groups)
    ensures Kept(Kept(groups)) == Kept(groups) && Dropped(Kept(groups)) == []
  {
    if NoneReserved(groups) {
      KeptOfUnreserved(groups);
    } else if Kept(groups) == groups {
      SplitIsExact(groups);
      assert false;
    }
    SplitIsExact(groups);
    KeptOfUnreserved(Kept(groups));
  }

  lemma {:induction false} KeptOfUnreserved(groups: seq<string>)
    requires NoneReserved(groups)
    ensures Kept(groups) == groups && Dropped(groups) == []
  {
    if groups != [] {
      assert NoneReserved(groups[..|groups| - 1]);
      KeptOfUnreserved(groups[..|groups| - 1]);
    }
  }

  /** A group kept was there and is not reserved, and conversely. */
  lemma {:induction false} KeptMembers(groups: seq<string>, g: string)
    ensures g in Kept(groups) <==> g in groups && !IsReserved(g)
  {
    SplitIsExact(groups);
    assert g in groups <==> g in multiset(groups);
    assert g in Kept(groups) <==> g in multiset(Kept(groups));
    assert g in Dropped(groups) <==> g in multiset(Dropped(groups));
  }

  method WithoutReserved(groups: seq<string>) returns (kept: seq<string>, dropped: seq<string>)
    ensures kept == Kept(groups) && dropped == Dropped(groups)
  {
    kept, dropped := [], [];
    for i := 0 to |groups|
      invariant kept == Kept(groups[..i]) && dropped == Dropped(groups[..i])
    {
      assert groups[..i + 1][..i] == groups[..i];
      if IsReserved(groups[i]) {
        dropped := dropped + [groups[i]];
        continue;
      }
      kept := kept + [groups[i]];
    }
    assert groups[..|groups|] == groups;
  }

  // ---------- Users ----------

  type Extensions = map<string, string>

  class DefaultUser {
    var name: string
    var id: string
    var groups: seq<string>
    var extensions: Extensions
    var dropped: seq<string>

    /** Sets the fields outright, as a literal of the struct does. */
    constructor (name: string, id: string, groups: seq<string>, extensions: Extensions, dropped: seq<string>)
      ensures this.name == name && this.id == id && this.groups == groups
      ensures this.extensions == extensions && this.dropped == dropped
    {
      this.name, this.id, this.groups, this.extensions, this.dropped := name, id, groups, extensions, dropped;
    }

    method SetGroups(asserted: seq<string>)
      modifies this`groups, this`dropped
      ensures groups == Kept(asserted) && dropped == Dropped(asserted)
    {
      groups, dropped := WithoutReserved(asserted);
    }
  }

  method NewDefaultUser(name: string, id: string, asserted: seq<string>, extensions: Extensions)
    returns (d: DefaultUser)
    ensures fresh(d) && d.name == name && d.id == id && d.extensions == extensions
    ensures d.groups == Kept(asserted) && d.dropped == Dropped(asserted) && NoneReserved(d.groups)
  {
    d := new DefaultUser(name, id, [], extensions, []);
    d.SetGroups(asserted);
    SplitIsExact(asserted);
  }

  method NewStepUpUser(base: DefaultUser, level: int) returns (up: DefaultUser)
    ensures fresh(up) && up.name == base.name && up.id == base.id && up.extensions == base.extensions
    ensures up.groups == base.groups + [StepUpGroup(level)] && up.dropped == base.dropped
  {
    up := new DefaultUser(base.name, base.id, base.groups + [StepUpGroup(level)], base.extensions, base.dropped);
  }
}
