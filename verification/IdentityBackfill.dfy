/** Stamping the identity annotations that older Secrets lack
    (internal/identitybackfill/backfill.go). */
module IdentityBackfill {
  import opened Results
  import opened Storage
  import opened SecretStore
  import opened Cluster
  import opened Interleavings

  /** The objects found for a username; None is a lookup that failed. */
  datatype Lookup = Lookup(serviceAccountMapping: Option<bool>, basicUser: Option<bool>)

  datatype BackfillResult = BackfillResult(scanned: nat, stamped: nat, skipped: nat)

  function StrategyOf(username: string, self: string, lookup: string -> Lookup): Option<string>
  {
    if username == self then Some("self")
    else
      match lookup(username)
      case Lookup(None, _) => None
      case Lookup(_, None) => None
      case Lookup(Some(sa), Some(basic)) =>
        if sa && !basic then Some("serviceaccount")
        else if basic && !sa then Some("basic")
        else Some("unknown")
  }

  /** Which lookups prove which strategy. */
  lemma StrategyIs(username: string, self: string, lookup: string -> Lookup)
    ensures username == self ==> StrategyOf(username, self, lookup) == Some("self")
    ensures username != self ==>
      var found := lookup(username);
      && (StrategyOf(username, self, lookup).None? <==>
            found.serviceAccountMapping.None? || found.basicUser.None?)
      && (found == Lookup(Some(true), Some(false)) ==> StrategyOf(username, self, lookup) == Some("serviceaccount"))
      && (found == Lookup(Some(false), Some(true)) ==> StrategyOf(username, self, lookup) == Some("basic"))
      && (found == Lookup(Some(true), Some(true)) || found == Lookup(Some(false), Some(false)) ==>
            StrategyOf(username, self, lookup) == Some("unknown"))
  {}

  /** The run's settings: whose identity is the service's own, and the lookups. */
  datatype Options = Options(self: string, lookup: string -> Lookup)

  predicate Complete(sec: Secret)
  {
    Strategy in sec.annotations && Groups in sec.annotations
  }

  /** `missingAnnotations`: None when they cannot be proven. */
  function Missing(sec: Secret, o: Options): Option<Annotations>
  {
    if Complete(sec) then Some(map[])
    else if sec.cert.Unreadable? then None
    else
      match StrategyOf(sec.cert.cert.commonName, o.self, o.lookup)
      case None => None
      case Some(strategy) =>
        match MissingAnnotations(sec, strategy)
        case Err(_) => None
        case Ok(missing) => Some(missing)
  }

  /** What a Secret becomes when the run can write it. */
  function Stamped(sec: Secret, o: Options): Annotations
    requires Missing(sec, o).Some?
  {
    sec.annotations + Missing(sec, o).value
  }

  /** Stamping completes a Secret, touches no annotation that was there, and
      records the groups of its own certificate. */
  lemma StampingCompletes(sec: Secret, o: Options)
    requires Missing(sec, o).Some?
    ensures Strategy in Stamped(sec, o) && Groups in Stamped(sec, o)
    ensures forall k :: k in sec.annotations ==> k in Stamped(sec, o) && Stamped(sec, o)[k] == sec.annotations[k]
    ensures forall k :: k in Stamped(sec, o) && k !in sec.annotations ==> k in {Strategy, Groups}
    ensures Groups !in sec.annotations ==>
      sec.cert.Readable? && Stamped(sec, o)[Groups] == Text(JoinGroups(sec.cert.cert.groups))
    ensures Strategy !in sec.annotations ==>
      && StrategyOf(sec.cert.cert.commonName, o.self, o.lookup).Some?
      && Stamped(sec, o)[Strategy] == Text(StrategyOf(sec.cert.cert.commonName, o.self, o.lookup).value)
    ensures Missing(sec, o).value == map[] <==> Complete(sec)
  {
    if !Complete(sec) {
      var missing := Missing(sec, o).value;
      if Strategy !in sec.annotations {
        assert Strategy in missing;
      } else {
        assert Groups in missing;
      }
    }
  }

  /** A Secret is skipped if something is missing and its certificate cannot be
      read, or its strategy not be proven, or its groups not be recorded. */
  lemma SkippedIff(sec: Secret, o: Options)
    ensures Missing(sec, o).None? <==>
      && !(Strategy in sec.annotations && Groups in sec.annotations)
      && (sec.cert.Unreadable?
          || StrategyOf(sec.cert.cert.commonName, o.self, o.lookup).None?
          || exists g :: g in sec.cert.cert.groups && '\n' in g)
  {
    if sec.cert.Readable? && StrategyOf(sec.cert.cert.commonName, o.self, o.lookup).Some? {
      StrategyIs(sec.cert.cert.commonName, o.self, o.lookup);
      RecordedIs(StrategyOf(sec.cert.cert.commonName, o.self, o.lookup).value, sec.cert);
    }
  }

  // ---------- What a quiet run is to do ----------

  predicate IsClientConfigItem(item: Item) { HasSuffix(item.0.name, SESSION_SUFFIX) }

  function IsSkippedItem(o: Options): Item -> bool
  {
    (item: Item) => IsClientConfigItem(item) && Missing(item.1, o).None?
  }

  function IsStampedItem(o: Options): Item -> bool
  {
    (item: Item) => IsClientConfigItem(item) && Missing(item.1, o).Some? && !Complete(item.1)
  }

  predicate IsCompleteItem(item: Item) { IsClientConfigItem(item) && Complete(item.1) }

  function KeysWhere(w: World, nss: set<string>, p: Item -> bool): set<Key>
  {
    set k | k in w.store && k.namespace in nss && p((k, w.store[k]))
  }

  /** Only the stampable Secrets changed, and only in their annotations. */
  ghost predicate OnlyStamped(before: map<Key, Secret>, after: map<Key, Secret>, stamped: set<Key>, o: Options)
  {
    && after.Keys == before.Keys
    && (forall k :: k in before && k !in stamped ==> after[k] == before[k])
    && (forall k :: k in before && k in stamped ==>
          Missing(before[k], o).Some? &&
          after[k] == before[k].(version := after[k].version, annotations := Stamped(before[k], o)))
  }

  ghost predicate BackfilledAlone(before: World, after: World, nss: set<string>, o: Options, res: BackfillResult)
  {
    && OnlyStamped(before.store, after.store, KeysWhere(before, nss, IsStampedItem(o)), o)
    && res.scanned == |KeysWhere(before, nss, IsClientConfigItem)|
    && res.stamped == |KeysWhere(before, nss, IsStampedItem(o))|
    && res.skipped == |KeysWhere(before, nss, IsSkippedItem(o))|
  }

  // ---------- One Secret ----------

  datatype Verdict = Ignored | Skipped | Already | Stamp

  function VerdictAlone(item: Item, o: Options): Verdict
  {
    if !IsClientConfigItem(item) then Ignored
    else if Missing(item.1, o).None? then Skipped
    else if Complete(item.1) then Already
    else Stamp
  }

  function Count(res: BackfillResult, v: Verdict): BackfillResult
  {
    match v
    case Ignored => res
    case Skipped => BackfillResult(res.scanned + 1, res.stamped, res.skipped + 1)
    case Already => BackfillResult(res.scanned + 1, res.stamped, res.skipped)
    case Stamp => BackfillResult(res.scanned + 1, res.stamped + 1, res.skipped)
  }

  /** All that a run over `nss` may do itself: add to session Secrets what their
      own certificate and the lookups prove. */
  function BackfillSteps(nss: set<string>, o: Options): Op -> bool
  {
    (op: Op) =>
      && op.BackfillWrite? && op.k.namespace in nss && HasSuffix(op.k.name, SESSION_SUFFIX)
      && op.read.cert.Readable?
      && StrategyOf(op.read.cert.cert.commonName, o.self, o.lookup) == Some(op.strategy)
  }

  /** So it leaves every credential alone. */
  lemma BackfillSpares(origin: map<Key, Secret>, w: World, s: seq<Slot>, w': World, s': seq<Slot>,
                       nss: set<string>, o: Options)
    requires Invariant(origin, w) && Acts(w, s, w', s', BackfillSteps(nss, o))
    ensures SparedStay(w, s, w', {})
  {
    hide Invariant, Acts, HasSuffix, StrategyOf;
    ActorsSpare(origin, w, s, w', s', BackfillSteps(nss, o), {});
  }

  /** The step that stamps one listed Secret. */
  function StampStep(item: Item, o: Options): (op: Op)
    requires VerdictAlone(item, o) == Stamp
    ensures BackfillSteps({item.0.namespace}, o)(op)
  {
    BackfillWrite(item.0, item.1, StrategyOf(item.1.cert.cert.commonName, o.self, o.lookup).value)
  }

  lemma StampIsStep(origin: map<Key, Secret>, w: World, item: Item, o: Options)
    requires Invariant(origin, w) && item in w.history && CanUpdate(w, item.0, item.1)
    requires VerdictAlone(item, o) == Stamp
    ensures
      var w' := Update(w, item.0, item.1, Stamped(item.1, o));
      && Invariant(origin, w') && w' == Apply(w, StampStep(item, o))
      && w.store[item.0] == item.1
      && w'.store == w.store[item.0 := item.1.(version := w.nextVersion, annotations := Stamped(item.1, o))]
  {
    StampingCompletes(item.1, o);
    var op := StampStep(item, o);
    hide Invariant, StrategyOf, MissingAnnotations;
    assert Lands(w, op);
    assert Apply(w, op) == Update(w, item.0, item.1, Stamped(item.1, o));
    StepKeepsInvariant(origin, w, op);
    InvariantReads(origin, w, item);
  }

  lemma InvariantReads(origin: map<Key, Secret>, w: World, item: Item)
    requires Invariant(origin, w) && item in w.history && CanUpdate(w, item.0, item.1)
    ensures w.store[item.0] == item.1
  {
    ReadIsStored(w, item.0, item.1);
  }

  /** The body of the loop over a listing. */
  method BackfillOne(c: ApiServer, item: Item, o: Options, res0: BackfillResult, ghost origin: map<Key, Secret>)
    returns (v: Verdict, res: BackfillResult)
    requires Invariant(origin, c.w) && item in c.w.history
    modifies c
    ensures Invariant(origin, c.w) && Extends(old(c.w), c.w) && res == Count(res0, v)
    ensures Acts(old(c.w), old(c.schedule), c.w, c.schedule, BackfillSteps({item.0.namespace}, o))
    ensures v != VerdictAlone(item, o) ==> v == Skipped
    ensures old(c.schedule) == [] ==> c.schedule == []
    ensures old(c.schedule) == [] && item.0 in old(c.w.store) && old(c.w.store)[item.0] == item.1 ==>
      v == VerdictAlone(item, o) &&
      if v == Stamp then
        exists n: nat :: c.w.store == old(c.w.store)[item.0 := item.1.(version := n, annotations := Stamped(item.1, o))]
      else c.w.store == old(c.w.store)
  {
    hide Invariant, Run, StrategyOf, MissingAnnotations, HasSuffix, Complete, Acts, Apply, BackfillSteps;
    res := res0;
    var (k, sec) := item;
    ghost var w0, s0, own := c.w, c.schedule, BackfillSteps({k.namespace}, o);
    ActsNot(w0, s0, own);
    if !HasSuffix(k.name, SESSION_SUFFIX) {
      return Ignored, res;
    }
    res := res.(scanned := res.scanned + 1);
    var missing := Missing(sec, o);
    if missing.None? {
      res := res.(skipped := res.skipped + 1);
      return Skipped, res;
    }
    StampingCompletes(sec, o);
    if missing.value == map[] {
      return Already, res;
    }
    hide Missing;
    OthersKeep(origin, c.w, c.schedule);
    OthersExtend(c.w, c.schedule);
    ghost var seen := AfterOthers(c.w, c.schedule);
    ActsOthers(w0, s0, own);
    ActsOwn(w0, s0, StampStep(item, o), own);
    var answer := c.UpdateSecret(k, sec, sec.annotations + missing.value);
    if answer != Done {
      res := res.(skipped := res.skipped + 1);
      return Skipped, res;
    }
    StampIsStep(origin, seen, item, o);
    res := res.(stamped := res.stamped + 1);
    return Stamp, res;
  }

  // ---------- One namespace ----------

  function Progress(items: seq<Item>, o: Options): BackfillResult
  {
    BackfillResult(
      |Where(items, IsClientConfigItem)|, |Where(items, IsStampedItem(o))|, |Where(items, IsSkippedItem(o))|)
  }

  function Plus(a: BackfillResult, b: BackfillResult): BackfillResult
  {
    BackfillResult(a.scanned + b.scanned, a.stamped + b.stamped, a.skipped + b.skipped)
  }

  lemma ProgressStep(items: seq<Item>, i: nat, o: Options)
    requires i < |items|
    requires forall a, b :: 0 <= a < b < |items| ==> items[a].0 != items[b].0
    ensures
      var v := VerdictAlone(items[i], o);
      && Progress(items[..i + 1], o) == Count(Progress(items[..i], o), v)
      && Where(items[..i + 1], IsStampedItem(o))
         == (if v == Stamp then Where(items[..i], IsStampedItem(o)) + {items[i].0}
             else Where(items[..i], IsStampedItem(o)))
      && items[i].0 !in Where(items[..i], IsStampedItem(o))
  {
    hide Where, VerdictAlone, IsClientConfigItem, IsStampedItem, IsSkippedItem;
    VerdictMeans(items[i], o);
    WhereGrows(items, i, IsClientConfigItem);
    WhereGrows(items, i, IsStampedItem(o));
    WhereGrows(items, i, IsSkippedItem(o));
  }

  lemma VerdictMeans(item: Item, o: Options)
    ensures IsClientConfigItem(item) <==> VerdictAlone(item, o) != Ignored
    ensures IsStampedItem(o)(item) <==> VerdictAlone(item, o) == Stamp
    ensures IsSkippedItem(o)(item) <==> VerdictAlone(item, o) == Skipped
  {
    hide HasSuffix, Missing;
    CompleteIsNotMissing(item.1, o);
  }

  lemma CompleteIsNotMissing(sec: Secret, o: Options)
    ensures Complete(sec) ==> Missing(sec, o).Some?
  {}

  lemma NothingSeen(items: seq<Item>, o: Options)
    ensures Where(items[..0], IsStampedItem(o)) == {}
    ensures Progress(items[..0], o) == BackfillResult(0, 0, 0)
  {}

  lemma CountPlus(a: BackfillResult, b: BackfillResult, v: Verdict)
    ensures Count(Plus(a, b), v) == Plus(a, Count(b, v))
    ensures b.stamped + b.skipped <= b.scanned ==> Count(b, v).stamped + Count(b, v).skipped <= Count(b, v).scanned
  {}

  lemma OneMoreStamped(before: map<Key, Secret>, now: map<Key, Secret>, after: map<Key, Secret>,
                       stamped: set<Key>, item: Item, o: Options, n: nat)
    requires OnlyStamped(before, now, stamped, o) && item.0 !in stamped
    requires item.0 in before && before[item.0] == item.1 && Missing(item.1, o).Some?
    requires after == now[item.0 := item.1.(version := n, annotations := Stamped(item.1, o))]
    ensures OnlyStamped(before, after, stamped + {item.0}, o)
  {
    hide Missing, Stamped;
  }

  lemma NothingStamped(store: map<Key, Secret>, o: Options)
    ensures OnlyStamped(store, store, {}, o)
  {}

  /** The body of the loop over namespaces. */
  method BackfillNamespace(c: ApiServer, ns: string, o: Options, res0: BackfillResult, ghost origin: map<Key, Secret>)
    returns (res: BackfillResult, failed: bool)
    requires Invariant(origin, c.w) && res0.stamped + res0.skipped <= res0.scanned
    modifies c
    ensures Invariant(origin, c.w) && Extends(old(c.w), c.w) && res.stamped + res.skipped <= res.scanned
    ensures Acts(old(c.w), old(c.schedule), c.w, c.schedule, BackfillSteps({ns}, o))
    ensures old(c.schedule) == [] ==> !failed && c.schedule == []
    ensures old(c.schedule) == [] ==>
      exists part :: BackfilledAlone(old(c.w), c.w, {ns}, o, part) && res == Plus(res0, part)
  {
    hide Invariant, HasSuffix, Run, VerdictAlone, Count, Where, Progress, BackfilledAlone, OnlyStamped;
    hide Missing, Stamped, Acts, BackfillSteps;
    res, failed := res0, false;
    ghost var quiet := c.schedule == [];
    ghost var w0, s0, own := c.w, c.schedule, BackfillSteps({ns}, o);
    ActsOthers(w0, s0, own);
    OthersKeep(origin, c.w, c.schedule);
    var list := c.List(ns);
    if list.None? {
      return res, true;
    }
    var items := list.value;
    ghost var listed := c.w;
    ListedIsHistory(origin, c.w, ns, items);
    NothingSeen(items, o);
    NothingStamped(listed.store, o);
    for i := 0 to |items|
      invariant Invariant(origin, c.w) && Extends(listed, c.w) && res.stamped + res.skipped <= res.scanned
      invariant Acts(w0, s0, c.w, c.schedule, own)
      invariant quiet ==> c.schedule == []
      invariant quiet ==> OnlyStamped(listed.store, c.w.store, Where(items[..i], IsStampedItem(o)), o)
      invariant quiet ==> res == Plus(res0, Progress(items[..i], o))
    {
      ProgressStep(items, i, o);
      CountPlus(res0, Progress(items[..i], o), VerdictAlone(items[i], o));
      if quiet {
        StillThere(listed.store, c.w.store, Where(items[..i], IsStampedItem(o)), items[i].0, o);
      }
      ghost var now, res1 := c.w.store, res;
      ghost var w1, s1 := c.w, c.schedule;
      var v;
      v, res := BackfillOne(c, items[i], o, res, origin);
      ActsThen(w0, s0, w1, s1, c.w, c.schedule, own);
      CountPlus(res0, res1, v);
      if quiet && v == Stamp {
        StampedIsMissing(items[i], o);
        ghost var n: nat :|
          c.w.store == now[items[i].0 := items[i].1.(version := n, annotations := Stamped(items[i].1, o))];
        OneMoreStamped(listed.store, now, c.w.store, Where(items[..i], IsStampedItem(o)), items[i], o, n);
      }
    }
    if quiet {
      assert items[..|items|] == items;
      ProgressIsBackfilled(listed, c.w, ns, items, o);
    }
  }

  lemma StampedIsMissing(item: Item, o: Options)
    requires VerdictAlone(item, o) == Stamp
    ensures Missing(item.1, o).Some?
  {}

  lemma StillThere(before: map<Key, Secret>, now: map<Key, Secret>, stamped: set<Key>, k: Key, o: Options)
    requires OnlyStamped(before, now, stamped, o) && k in before && k !in stamped
    ensures k in now && now[k] == before[k]
  {}

  lemma ProgressIsBackfilled(w: World, w': World, ns: string, items: seq<Item>, o: Options)
    requires IsListing(w, ns, items)
    requires OnlyStamped(w.store, w'.store, Where(items, IsStampedItem(o)), o)
    ensures BackfilledAlone(w, w', {ns}, o, Progress(items, o))
  {
    hide Where, HasSuffix, Missing, OnlyStamped, Complete;
    WhereListed(w, ns, items, IsClientConfigItem);
    WhereListed(w, ns, items, IsStampedItem(o));
    WhereListed(w, ns, items, IsSkippedItem(o));
    assert Where(items, IsClientConfigItem) == KeysWhere(w, {ns}, IsClientConfigItem);
    assert Where(items, IsStampedItem(o)) == KeysWhere(w, {ns}, IsStampedItem(o));
    assert Where(items, IsSkippedItem(o)) == KeysWhere(w, {ns}, IsSkippedItem(o));
  }

  // ---------- The whole run ----------

  lemma ElsewhereUntouched(w0: World, w1: World, nss: set<string>, ns: string, o: Options,
                           res: BackfillResult, p: Item -> bool)
    requires ns !in nss && BackfilledAlone(w0, w1, nss, o, res)
    ensures KeysWhere(w1, {ns}, p) == KeysWhere(w0, {ns}, p)
    ensures forall k :: k in w0.store && k.namespace == ns ==> k in w1.store && w1.store[k] == w0.store[k]
  {
    hide Missing, Stamped, IsStampedItem;
    forall k | k in w0.store && k.namespace == ns
      ensures k in w1.store && w1.store[k] == w0.store[k]
    {
      assert k !in KeysWhere(w0, nss, IsStampedItem(o));
    }
  }

  lemma KeysAdd(w: World, nss: set<string>, ns: string, p: Item -> bool)
    requires ns !in nss
    ensures KeysWhere(w, nss + {ns}, p) == KeysWhere(w, nss, p) + KeysWhere(w, {ns}, p)
    ensures |KeysWhere(w, nss + {ns}, p)| == |KeysWhere(w, nss, p)| + |KeysWhere(w, {ns}, p)|
    ensures KeysWhere(w, nss, p) !! KeysWhere(w, {ns}, p)
  {
    var a, b := KeysWhere(w, nss, p), KeysWhere(w, {ns}, p);
    assert KeysWhere(w, nss + {ns}, p) == a + b && a !! b;
  }

  lemma RunsCompose(w0: World, w1: World, w2: World, nss: set<string>, ns: string, o: Options,
                    res: BackfillResult, part: BackfillResult)
    requires ns !in nss
    requires BackfilledAlone(w0, w1, nss, o, res) && BackfilledAlone(w1, w2, {ns}, o, part)
    ensures BackfilledAlone(w0, w2, nss + {ns}, o, Plus(res, part))
  {
    hide KeysWhere, OnlyStamped;
    ElsewhereUntouched(w0, w1, nss, ns, o, res, IsClientConfigItem);
    ElsewhereUntouched(w0, w1, nss, ns, o, res, IsStampedItem(o));
    ElsewhereUntouched(w0, w1, nss, ns, o, res, IsSkippedItem(o));
    KeysAdd(w0, nss, ns, IsClientConfigItem);
    KeysAdd(w0, nss, ns, IsStampedItem(o));
    KeysAdd(w0, nss, ns, IsSkippedItem(o));
    StampingsCompose(w0.store, w1.store, w2.store, KeysWhere(w0, nss, IsStampedItem(o)),
                     KeysWhere(w0, {ns}, IsStampedItem(o)), o);
  }

  lemma StampingsCompose(s0: map<Key, Secret>, s1: map<Key, Secret>, s2: map<Key, Secret>,
                         a: set<Key>, b: set<Key>, o: Options)
    requires OnlyStamped(s0, s1, a, o) && OnlyStamped(s1, s2, b, o)
    requires a !! b
    ensures OnlyStamped(s0, s2, a + b, o)
  {
    hide Missing, Stamped;
  }

  /** `Run`: among any other clients, all it does is to add annotations derived
      from the very certificate they stand by, and so it leaves every credential
      alone; alone, it stamps exactly the Secrets it can prove, and counts
      exactly. */
  method RunBackfill(c: ApiServer, namespaces: seq<string>, o: Options, ghost origin: map<Key, Secret>)
    returns (res: BackfillResult, failed: bool)
    requires Invariant(origin, c.w)
    modifies c
    ensures Invariant(origin, c.w) && Extends(old(c.w), c.w)
    ensures res.stamped + res.skipped <= res.scanned
    ensures Acts(old(c.w), old(c.schedule), c.w, c.schedule, BackfillSteps(Visited(namespaces), o))
    ensures SparedStay(old(c.w), old(c.schedule), c.w, {})
    ensures old(c.schedule) == [] ==> !failed && BackfilledAlone(old(c.w), c.w, Visited(namespaces), o, res)
  {
    hide Invariant, Visited, BackfilledAlone, Acts, SparedStay, Run;
    ghost var before, quiet := c.w, c.schedule == [];
    var seen: set<string> := {};
    res, failed := BackfillResult(0, 0, 0), false;
    NothingYet(c.w, o);
    NoneVisited(namespaces);
    ghost var s0, own := c.schedule, BackfillSteps(Visited(namespaces), o);
    ActsNot(before, s0, own);
    for i := 0 to |namespaces|
      invariant Invariant(origin, c.w) && Extends(before, c.w) && res.stamped + res.skipped <= res.scanned
      invariant seen == Visited(namespaces[..i]) && Acts(before, s0, c.w, c.schedule, own)
      invariant quiet ==> c.schedule == [] && BackfilledAlone(before, c.w, seen, o, res)
    {
      var ns := namespaces[i];
      VisitedGrows(namespaces, i);
      if ns == "" || ns in seen {
        continue;
      }
      ghost var w1, s1, res1 := c.w, c.schedule, res;
      res, failed := BackfillNamespace(c, ns, o, res, origin);
      MoreNamespaces({ns}, Visited(namespaces), o);
      ActsMore(w1, s1, c.w, c.schedule, BackfillSteps({ns}, o), own);
      ActsThen(before, s0, w1, s1, c.w, c.schedule, own);
      if failed {
        BackfillSpares(origin, before, s0, c.w, c.schedule, Visited(namespaces), o);
        return;
      }
      if quiet {
        ghost var part :| BackfilledAlone(w1, c.w, {ns}, o, part) && res == Plus(res1, part);
        RunsCompose(before, w1, c.w, seen, ns, o, res1, part);
      }
      seen := seen + {ns};
    }
    BackfillSpares(origin, before, s0, c.w, c.schedule, Visited(namespaces), o);
  }

  lemma MoreNamespaces(nss: set<string>, nss': set<string>, o: Options)
    requires nss <= nss'
    ensures forall op :: BackfillSteps(nss, o)(op) ==> BackfillSteps(nss', o)(op)
  {
    hide HasSuffix, StrategyOf;
  }

  lemma NothingYet(w: World, o: Options)
    ensures BackfilledAlone(w, w, {}, o, BackfillResult(0, 0, 0))
  {
    assert KeysWhere(w, {}, IsClientConfigItem) == {};
    assert KeysWhere(w, {}, IsStampedItem(o)) == {};
    assert KeysWhere(w, {}, IsSkippedItem(o)) == {};
  }

  // ---------- The backfill is a fixed point ----------

  /** Every scanned Secret was stamped, skipped, or complete already. */
  lemma EveryScannedIsCounted(w: World, nss: set<string>, o: Options)
    ensures |KeysWhere(w, nss, IsClientConfigItem)|
      == |KeysWhere(w, nss, IsStampedItem(o))| + |KeysWhere(w, nss, IsSkippedItem(o))|
         + |KeysWhere(w, nss, IsCompleteItem)|
  {
    hide HasSuffix;
    var a, b := KeysWhere(w, nss, IsStampedItem(o)), KeysWhere(w, nss, IsSkippedItem(o));
    var d := KeysWhere(w, nss, IsCompleteItem);
    forall k | k in w.store
      ensures Complete(w.store[k]) ==> Missing(w.store[k], o).Some?
    {
      CompleteIsNotMissing(w.store[k], o);
    }
    hide Missing, Complete;
    assert a !! b && (a + b) !! d;
    assert KeysWhere(w, nss, IsClientConfigItem) == a + b + d;
  }

  /** Alone, exactly the session Secrets that lack something and can be stamped
      are, in their annotations only. */
  lemma RunMeans(before: World, after: World, nss: set<string>, o: Options, res: BackfillResult, k: Key)
    requires BackfilledAlone(before, after, nss, o, res) && k in before.store
    ensures
      var sec := before.store[k];
      && k in after.store
      && if k.namespace in nss && HasSuffix(k.name, "-clientconfig")
            && !(Strategy in sec.annotations && Groups in sec.annotations) && Missing(sec, o).Some?
         then after.store[k] == sec.(version := after.store[k].version, annotations := Stamped(sec, o))
         else after.store[k] == sec
  {
    hide HasSuffix, Missing, Stamped;
    var sec := before.store[k];
    assert k in KeysWhere(before, nss, IsStampedItem(o)) <==>
      k.namespace in nss && HasSuffix(k.name, "-clientconfig") && Missing(sec, o).Some? && !Complete(sec);
  }

  /** What a run leaves to stamp and to skip. */
  lemma KeysAfterRun(w: World, w': World, nss: set<string>, o: Options, res: BackfillResult)
    requires BackfilledAlone(w, w', nss, o, res)
    ensures KeysWhere(w', nss, IsClientConfigItem) == KeysWhere(w, nss, IsClientConfigItem)
    ensures KeysWhere(w', nss, IsStampedItem(o)) == {}
    ensures KeysWhere(w', nss, IsSkippedItem(o)) == KeysWhere(w, nss, IsSkippedItem(o))
    ensures forall k :: k in KeysWhere(w, nss, IsStampedItem(o)) ==> k in w'.store && Complete(w'.store[k])
  {
    hide HasSuffix, StrategyOf, MissingAnnotations;
    forall k | k in w.store
      ensures k in w'.store
      ensures k in KeysWhere(w, nss, IsStampedItem(o)) ==> Complete(w'.store[k]) && Missing(w'.store[k], o).Some?
    {
      if k in KeysWhere(w, nss, IsStampedItem(o)) {
        StampingCompletes(w.store[k], o);
        CompleteIsNotMissing(w'.store[k], o);
      }
    }
    hide Missing, Complete, Stamped;
  }

  /** Running again, alone, stamps none and skips the same Secrets; so the
      first run has completed every Secret it could resolve. */
  lemma SecondRunIsIdle(w: World, w': World, w'': World, nss: set<string>, o: Options,
                        res: BackfillResult, res': BackfillResult)
    requires BackfilledAlone(w, w', nss, o, res) && BackfilledAlone(w', w'', nss, o, res')
    ensures w''.store == w'.store
    ensures res' == BackfillResult(res.scanned, 0, res.skipped)
    ensures KeysWhere(w', nss, IsSkippedItem(o)) == KeysWhere(w, nss, IsSkippedItem(o))
    ensures forall k :: k in KeysWhere(w, nss, IsStampedItem(o)) ==> Complete(w'.store[k])
  {
    KeysAfterRun(w, w', nss, o, res);
    hide HasSuffix, Missing, Complete, Stamped, KeysWhere;
  }
}
