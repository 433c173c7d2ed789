/** One actor's view of the store: an API server whose other clients act before
    each of the actor's calls, and whose calls may fail in transit. */
module Cluster {
  import opened Results
  import opened Storage
  import opened SecretStore

  /** What happens around one call: what the others do first, and whether the
      call then fails without reaching the server. (One that fails after
      reaching it is the same operation done by "another", and then failing.) */
  datatype Slot = Slot(ops: seq<Op>, fails: bool)

  datatype Answer = Done | AlreadyExists | Conflict | NotFound | Failed

  function AfterOthers(w: World, schedule: seq<Slot>): World
  {
    if schedule == [] then w else Run(w, schedule[0].ops)
  }

  lemma OthersExtend(w: World, schedule: seq<Slot>)
    ensures Extends(w, AfterOthers(w, schedule))
  {
    if schedule != [] {
      RunExtends(w, schedule[0].ops);
    }
  }

  lemma OthersKeep(origin: map<Key, Secret>, w: World, schedule: seq<Slot>)
    requires Invariant(origin, w)
    ensures Invariant(origin, AfterOthers(w, schedule))
  {
    hide Invariant;
    if schedule != [] {
      EveryInterleavingKeepsInvariant(origin, w, schedule[0].ops);
    }
  }

  /** A listing: each Secret of the namespace once, as it is stored. */
  ghost predicate IsListing(w: World, ns: string, items: seq<Item>)
  {
    && (forall i :: 0 <= i < |items| ==>
          items[i].0.namespace == ns && items[i].0 in w.store && w.store[items[i].0] == items[i].1)
    && (forall k :: k in w.store && k.namespace == ns ==> exists i :: 0 <= i < |items| && items[i].0 == k)
    && (forall i, j :: 0 <= i < j < |items| ==> items[i].0 != items[j].0)
  }

  /** The same while the Secrets in `left` are still to be listed. */
  ghost predicate ListsAllBut(w: World, ns: string, items: seq<Item>, left: set<Key>)
  {
    && (forall k :: k in left ==> k in w.store && k.namespace == ns)
    && (forall i :: 0 <= i < |items| ==>
          && items[i].0.namespace == ns && items[i].0 in w.store && w.store[items[i].0] == items[i].1
          && items[i].0 !in left)
    && (forall k :: k in w.store && k.namespace == ns && k !in left ==> exists i :: 0 <= i < |items| && items[i].0 == k)
    && (forall i, j :: 0 <= i < j < |items| ==> items[i].0 != items[j].0)
  }

  lemma ListingStarts(w: World, ns: string)
    ensures ListsAllBut(w, ns, [], set k | k in w.store && k.namespace == ns)
  {}

  lemma ListingGrows(w: World, ns: string, items: seq<Item>, left: set<Key>, k: Key)
    requires ListsAllBut(w, ns, items, left) && k in left
    ensures k in w.store && ListsAllBut(w, ns, items + [(k, w.store[k])], left - {k})
  {
    var longer := items + [(k, w.store[k])];
    assert longer[|items|].0 == k;
    forall k' | k' in w.store && k'.namespace == ns && k' !in left - {k}
      ensures exists i :: 0 <= i < |longer| && longer[i].0 == k'
    {
      if k' != k {
        var i :| 0 <= i < |items| && items[i].0 == k';
        assert longer[i].0 == k';
      }
    }
  }

  lemma ListingEnds(w: World, ns: string, items: seq<Item>)
    ensures ListsAllBut(w, ns, items, {}) ==> IsListing(w, ns, items)
  {}

  lemma ListedIsHistory(origin: map<Key, Secret>, w: World, ns: string, items: seq<Item>)
    requires Invariant(origin, w) && IsListing(w, ns, items)
    ensures forall i :: 0 <= i < |items| ==> items[i] in w.history
  {
    forall i | 0 <= i < |items|
      ensures items[i] in w.history
    {
      assert items[i] == (items[i].0, w.store[items[i].0]);
    }
  }

  // ---------- The namespaces of a pass ----------

  /** Those that are visited: duplicates and empty entries are ignored. */
  function Visited(namespaces: seq<string>): set<string>
  {
    set ns | ns in namespaces && ns != ""
  }

  lemma VisitedGrows(namespaces: seq<string>, i: nat)
    requires i < |namespaces|
    ensures Visited(namespaces[..i + 1])
      == Visited(namespaces[..i]) + (if namespaces[i] == "" then {} else {namespaces[i]})
    ensures Visited(namespaces[..i]) <= Visited(namespaces)
    ensures namespaces[i] != "" ==> namespaces[i] in Visited(namespaces)
  {
    assert namespaces[..i + 1] == namespaces[..i] + [namespaces[i]];
  }

  lemma NoneVisited(namespaces: seq<string>)
    ensures Visited(namespaces[..0]) == {} && namespaces[..|namespaces|] == namespaces
  {}

  // ---------- Counting in a listing ----------

  type Item = (Key, Secret)

  /** The keys of the items that satisfy `p`. */
  function Where(items: seq<Item>, p: Item -> bool): set<Key>
  {
    if items == [] then {}
    else
      var last := items[|items| - 1];
      Where(items[..|items| - 1], p) + if p(last) then {last.0} else {}
  }

  lemma {:induction false} WhereMembers(items: seq<Item>, p: Item -> bool, k: Key)
    ensures k in Where(items, p) <==> exists i :: 0 <= i < |items| && items[i].0 == k && p(items[i])
  {
    if items != [] {
      var n := |items| - 1;
      WhereMembers(items[..n], p, k);
      if i :| 0 <= i < |items| && items[i].0 == k && p(items[i]) {
        if i < n { assert items[..n][i] == items[i]; }
      }
    }
  }

  lemma WhereGrows(items: seq<Item>, i: nat, p: Item -> bool)
    requires i < |items|
    requires forall a, b :: 0 <= a < b < |items| ==> items[a].0 != items[b].0
    ensures Where(items[..i + 1], p) == Where(items[..i], p) + if p(items[i]) then {items[i].0} else {}
    ensures |Where(items[..i + 1], p)| == |Where(items[..i], p)| + if p(items[i]) then 1 else 0
    ensures items[i].0 !in Where(items[..i], p)
  {
    assert items[..i + 1][..i] == items[..i];
    WhereMembers(items[..i], p, items[i].0);
  }

  lemma WhereListed(w: World, ns: string, items: seq<Item>, p: Item -> bool)
    requires IsListing(w, ns, items)
    ensures Where(items, p) == set k | k in w.store && k.namespace == ns && p((k, w.store[k]))
  {
    forall k
      ensures k in Where(items, p) <==> k in w.store && k.namespace == ns && p((k, w.store[k]))
    {
      WhereMembers(items, p, k);
      if k in w.store && k.namespace == ns {
        var i :| 0 <= i < |items| && items[i].0 == k;
        assert items[i] == (k, w.store[k]);
      }
      if i :| 0 <= i < |items| && items[i].0 == k && p(items[i]) {
        assert items[i] == (k, w.store[k]);
      }
    }
  }

  class ApiServer {
    var w: World
    var schedule: seq<Slot>

    constructor (w: World, schedule: seq<Slot>)
      ensures this.w == w && this.schedule == schedule
    {
      this.w, this.schedule := w, schedule;
    }

    method Others() returns (fails: bool)
      modifies this
      ensures w == AfterOthers(old(w), old(schedule)) && Extends(old(w), w)
      ensures schedule == if old(schedule) == [] then [] else old(schedule)[1..]
      ensures fails == (old(schedule) != [] && old(schedule)[0].fails)
    {
      fails := false;
      if schedule != [] {
        RunExtends(w, schedule[0].ops);
        w, fails, schedule := Run(w, schedule[0].ops), schedule[0].fails, schedule[1..];
      }
    }

    method List(ns: string) returns (r: Option<seq<Item>>)
      modifies this
      ensures schedule == if old(schedule) == [] then [] else old(schedule)[1..]
      ensures w == AfterOthers(old(w), old(schedule)) && Extends(old(w), w)
      ensures old(schedule) == [] ==> r.Some? && schedule == []
      ensures r.Some? ==> IsListing(w, ns, r.value)
    {
      hide Run, Extends, ListsAllBut;
      var fails := Others();
      if fails {
        return None;
      }
      var left := set k | k in w.store && k.namespace == ns;
      var items: seq<Item> := [];
      ListingStarts(w, ns);
      while left != {}
        invariant w == AfterOthers(old(w), old(schedule))
        invariant schedule == if old(schedule) == [] then [] else old(schedule)[1..]
        invariant ListsAllBut(w, ns, items, left)
      {
        var k :| k in left;
        ListingGrows(w, ns, items, left, k);
        items := items + [(k, w.store[k])];
        left := left - {k};
      }
      ListingEnds(w, ns, items);
      return Some(items);
    }

    method Get(k: Key) returns (r: Result<Secret, Answer>)
      modifies this
      ensures w == AfterOthers(old(w), old(schedule)) && Extends(old(w), w)
      ensures schedule == if old(schedule) == [] then [] else old(schedule)[1..]
      ensures r.Err? && r.error == Failed <==> old(schedule) != [] && old(schedule)[0].fails
      ensures r.Ok? ==> k in w.store && r.value == w.store[k]
      ensures r.Err? && r.error != Failed ==> r.error == NotFound && k !in w.store
    {
      var fails := Others();
      return if fails then Err(Failed) else if k in w.store then Ok(w.store[k]) else Err(NotFound);
    }

    method CreateSecret(k: Key, cert: CertData, privateKey: string, ann: Annotations) returns (a: Answer)
      modifies this
      ensures Extends(old(w), w) && (old(schedule) == [] ==> schedule == [] && a != Failed)
      ensures schedule == if old(schedule) == [] then [] else old(schedule)[1..]
      ensures a in {Done, AlreadyExists, Failed}
      ensures var seen := AfterOthers(old(w), old(schedule));
        && (a == Done ==> CanCreate(seen, k) && w == Create(seen, k, cert, privateKey, ann))
        && (a == AlreadyExists ==> !CanCreate(seen, k) && w == seen)
        && (a == Failed ==> w == seen)
    {
      var fails := Others();
      if fails {
        return Failed;
      }
      if k in w.store {
        return AlreadyExists;
      }
      w := Create(w, k, cert, privateKey, ann);
      return Done;
    }

    method ReplaceSecret(k: Key, cert: CertData, privateKey: string, ann: Annotations) returns (a: Answer)
      modifies this
      ensures schedule == if old(schedule) == [] then [] else old(schedule)[1..]
      ensures Extends(old(w), w) && (old(schedule) == [] ==> schedule == [] && a != Failed)
      ensures a in {Done, NotFound, Failed}
      ensures var seen := AfterOthers(old(w), old(schedule));
        && (a == Done ==> CanReplace(seen, k) && w == Replace(seen, k, cert, privateKey, ann))
        && (a == NotFound ==> !CanReplace(seen, k) && w == seen)
        && (a == Failed ==> w == seen)
    {
      var fails := Others();
      if fails {
        return Failed;
      }
      if k !in w.store {
        return NotFound;
      }
      w := Replace(w, k, cert, privateKey, ann);
      return Done;
    }

    method UpdateSecret(k: Key, read: Secret, ann: Annotations) returns (a: Answer)
      modifies this
      ensures schedule == if old(schedule) == [] then [] else old(schedule)[1..]
      ensures Extends(old(w), w) && (old(schedule) == [] ==> schedule == [] && a != Failed)
      ensures a in {Done, Conflict, NotFound, Failed}
      ensures var seen := AfterOthers(old(w), old(schedule));
        && (a == Done ==> CanUpdate(seen, k, read) && w == Update(seen, k, read, ann))
        && (a in {Conflict, NotFound} ==> !CanUpdate(seen, k, read) && w == seen)
        && (a == Failed ==> w == seen)
    {
      var fails := Others();
      if fails {
        return Failed;
      }
      if k !in w.store {
        return NotFound;
      }
      if !CanUpdate(w, k, read) {
        return Conflict;
      }
      w := Update(w, k, read, ann);
      return Done;
    }

    method DeleteSecret(k: Key, uid: nat, version: nat, grace: int) returns (a: Answer)
      modifies this
      ensures schedule == if old(schedule) == [] then [] else old(schedule)[1..]
      ensures Extends(old(w), w) && (old(schedule) == [] ==> schedule == [] && a != Failed)
      ensures a in {Done, Conflict, NotFound, Failed}
      ensures var seen := AfterOthers(old(w), old(schedule));
        && (a == Done ==> CanDelete(seen, k, uid, version) && w == Delete(seen, k, uid, version, grace))
        && (a in {Conflict, NotFound} ==> !CanDelete(seen, k, uid, version) && w == seen)
        && (a == Failed ==> w == seen)
    {
      var fails := Others();
      if fails {
        return Failed;
      }
      if k !in w.store {
        return NotFound;
      }
      if !CanDelete(w, k, uid, version) {
        return Conflict;
      }
      w := Delete(w, k, uid, version, grace);
      return Done;
    }

    /** The library's issuance: a full write of a session name, with no
        annotations. */
    method IssueSecret(k: Key, cert: CertData, privateKey: string) returns (a: Answer)
      requires !IsStepUpSecretName(k.name)
      modifies this
      ensures Extends(old(w), w) && a in {Done, Failed}
      ensures schedule == if old(schedule) == [] then [] else old(schedule)[1..]
      ensures a == Failed <==> old(schedule) != [] && old(schedule)[0].fails
      ensures var seen := AfterOthers(old(w), old(schedule));
        w == if a == Done then Apply(seen, Issue(k, cert, privateKey)) else seen
    {
      var fails := Others();
      if fails {
        return Failed;
      }
      w := Apply(w, Issue(k, cert, privateKey));
      return Done;
    }
  }
}
