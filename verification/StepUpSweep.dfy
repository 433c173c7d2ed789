/** The sweep of expired step-up credentials (internal/stepupsweep/sweep.go),
    run among any other clients of the API server. */
module StepUpSweep {
  import opened Storage
  import opened SecretStore
  import opened Cluster
  import opened Interleavings

  const DEFAULT_GRACE: int := 5 * MINUTE

  datatype SweepResult = SweepResult(scanned: nat, deleted: nat, skipped: nat)

  function GraceOf(option: int): (grace: int)
    ensures grace > 0
  {
    if option <= 0 then DEFAULT_GRACE else option
  }

  /** The grace period in force: the one that is asked for, or five minutes. */
  lemma GraceIs(option: int)
    ensures GraceOf(option) == if option > 0 then option else 300_000_000_000
  {}

  // ---------- What a quiet sweep is to do ----------

  function StepUpKeys(w: World, nss: set<string>): set<Key>
  {
    set k | k in w.store && k.namespace in nss && IsStepUpSecretName(k.name)
  }

  function UnreadableKeys(w: World, nss: set<string>): set<Key>
  {
    set k | k in StepUpKeys(w, nss) && w.store[k].cert.Unreadable?
  }

  function ExpiredKeys(w: World, nss: set<string>, grace: int): set<Key>
  {
    set k | k in StepUpKeys(w, nss) && ExpiredFor(w.store[k].cert, grace, w.now)
  }

  /** A pass over `nss` went as in a store nobody else uses. */
  ghost predicate SweptAlone(before: World, after: World, nss: set<string>, grace: int, res: SweepResult)
  {
    && after.now == before.now
    && after.store == before.store - ExpiredKeys(before, nss, grace)
    && res.scanned == |StepUpKeys(before, nss)|
    && res.deleted == |ExpiredKeys(before, nss, grace)|
    && res.skipped == |UnreadableKeys(before, nss)|
  }

  /** What one pass may say of itself, whatever the others did meanwhile. */
  ghost predicate Accounted(before: World, after: World, res: SweepResult, removed: set<int>, grace: int)
  {
    && before.log <= after.log
    && res.deleted + res.skipped <= res.scanned
    && |removed| == res.deleted
    && (forall i :: i in removed ==>
          |before.log| <= i < |after.log| && after.log[i].SecretRemoved? && after.log[i].grace == grace
          && RightfulRemoval(after.log[i]))
  }

  /** All that a pass over `nss` may do itself: delete step-up Secrets. */
  function SweepSteps(nss: set<string>, grace: int): Op -> bool
  {
    (op: Op) => op.SweepDelete? && op.k.namespace in nss && IsStepUpSecretName(op.k.name) && op.grace == grace
  }

  /** So it leaves every session credential alone. */
  lemma SweepSpares(origin: map<Key, Secret>, w: World, s: seq<Slot>, w': World, s': seq<Slot>,
                    nss: set<string>, grace: int)
    requires Invariant(origin, w) && Acts(w, s, w', s', SweepSteps(nss, grace))
    ensures SparedStay(w, s, w', {})
  {
    hide Invariant, Acts, IsStepUpSecretName;
    ActorsSpare(origin, w, s, w', s', SweepSteps(nss, grace), {});
  }

  /** A delete with the preconditions of an earlier read is a step of the store. */
  lemma DeleteIsStep(origin: map<Key, Secret>, w: World, k: Key, read: Secret, grace: int, judgedAt: int)
    requires Invariant(origin, w) && (k, read) in w.history && IsStepUpSecretName(k.name) && grace > 0
    requires judgedAt <= w.now && ExpiredFor(read.cert, grace, judgedAt) && CanDelete(w, k, read.uid, read.version)
    ensures Invariant(origin, Delete(w, k, read.uid, read.version, grace))
    ensures w.store[k] == read
    ensures Delete(w, k, read.uid, read.version, grace) == Apply(w, SweepDelete(k, read, grace, judgedAt))
  {
    var op := SweepDelete(k, read, grace, judgedAt);
    assert Apply(w, op) == Delete(w, k, read.uid, read.version, grace);
    ReadIsStored(w, k, read);
    hide Invariant, Apply;
    StepKeepsInvariant(origin, w, op);
  }

  datatype Verdict = Ignored | Garbled | Current | Deleted | Lost | CallFailed

  /** What becomes of one listed Secret in a store nobody else uses. */
  function VerdictAlone(item: Item, grace: int, now: int): Verdict
  {
    if !IsStepUpSecretName(item.0.name) then Ignored
    else if item.1.cert.Unreadable? then Garbled
    else if now < item.1.cert.cert.notAfter + grace then Current
    else Deleted
  }

  function Count(res: SweepResult, v: Verdict): SweepResult
  {
    match v
    case Ignored => res
    case Garbled => SweepResult(res.scanned + 1, res.deleted, res.skipped + 1)
    case Current => SweepResult(res.scanned + 1, res.deleted, res.skipped)
    case Deleted => SweepResult(res.scanned + 1, res.deleted + 1, res.skipped)
    case Lost => SweepResult(res.scanned + 1, res.deleted, res.skipped + 1)
    case CallFailed => SweepResult(res.scanned + 1, res.deleted, res.skipped)
  }

  /** The body of the loop over a listing. `removed` are the places in the log
      of the deletions this pass made. */
  method SweepOne(c: ApiServer, item: Item, grace: int, res0: SweepResult,
                  ghost origin: map<Key, Secret>, ghost before: World, ghost removed0: set<int>)
    returns (v: Verdict, res: SweepResult, ghost removed: set<int>)
    requires grace > 0 && item in c.w.history
    requires Invariant(origin, c.w) && Accounted(before, c.w, res0, removed0, grace)
    modifies c
    ensures Invariant(origin, c.w) && Accounted(before, c.w, res, removed, grace)
    ensures Extends(old(c.w), c.w) && res == Count(res0, v)
    ensures Acts(old(c.w), old(c.schedule), c.w, c.schedule, SweepSteps({item.0.namespace}, grace))
    ensures old(c.schedule) == [] && item.0 in old(c.w.store) && old(c.w.store)[item.0] == item.1 ==>
      && c.schedule == [] && c.w.now == old(c.w.now) && v == VerdictAlone(item, grace, c.w.now)
      && c.w.store == if v == Deleted then old(c.w.store) - {item.0} else old(c.w.store)
  {
    hide Invariant, IsStepUpSecretName, Run, Acts, Apply;
    res, removed := res0, removed0;
    var (k, sec) := item;
    ghost var w0, s0, own := c.w, c.schedule, SweepSteps({k.namespace}, grace);
    ActsNot(w0, s0, own);
    if !IsStepUpSecretName(k.name) {
      return Ignored, res, removed;
    }
    res := res.(scanned := res.scanned + 1);
    if sec.cert.Unreadable? {
      res := res.(skipped := res.skipped + 1);
      return Garbled, res, removed;
    }
    if c.w.now < sec.cert.cert.notAfter + grace {
      return Current, res, removed;
    }
    ghost var judgedAt := c.w.now;
    OthersKeep(origin, c.w, c.schedule);
    ghost var seen := AfterOthers(c.w, c.schedule);
    OthersExtend(c.w, c.schedule);
    ActsOthers(w0, s0, own);
    ActsOwn(w0, s0, SweepDelete(k, sec, grace, judgedAt), own);
    var answer := c.DeleteSecret(k, sec.uid, sec.version, grace);
    if answer == Done {
      DeleteIsStep(origin, seen, k, sec, grace, judgedAt);
      res := res.(deleted := res.deleted + 1);
      removed := removed + {|seen.log|};
      return Deleted, res, removed;
    }
    if answer == Failed {
      return CallFailed, res, removed;
    }
    res := res.(skipped := res.skipped + 1);
    return Lost, res, removed;
  }

  // ---------- One namespace ----------

  /** The items seen so far, sorted by what becomes of them. */
  function Progress(items: seq<Item>, grace: int, now: int): SweepResult
  {
    SweepResult(|Where(items, IsStepUpItem)|, |Where(items, IsExpiredItem(grace, now))|, |Where(items, IsGarbledItem)|)
  }

  predicate IsStepUpItem(item: Item) { IsStepUpSecretName(item.0.name) }

  predicate IsGarbledItem(item: Item) { IsStepUpItem(item) && item.1.cert.Unreadable? }

  function IsExpiredItem(grace: int, now: int): Item -> bool
  {
    (item: Item) => IsStepUpItem(item) && ExpiredFor(item.1.cert, grace, now)
  }

  function Plus(a: SweepResult, b: SweepResult): SweepResult
  {
    SweepResult(a.scanned + b.scanned, a.deleted + b.deleted, a.skipped + b.skipped)
  }

  lemma ProgressStep(items: seq<Item>, i: nat, grace: int, now: int)
    requires i < |items|
    requires forall a, b :: 0 <= a < b < |items| ==> items[a].0 != items[b].0
    ensures
      var v := VerdictAlone(items[i], grace, now);
      && Progress(items[..i + 1], grace, now) == Count(Progress(items[..i], grace, now), v)
      && Where(items[..i + 1], IsExpiredItem(grace, now))
         == Where(items[..i], IsExpiredItem(grace, now)) + (if v == Deleted then {items[i].0} else {})
      && items[i].0 !in Where(items[..i], IsExpiredItem(grace, now))
  {
    hide Where, VerdictAlone, IsStepUpItem, IsExpiredItem, IsGarbledItem;
    VerdictMeans(items[i], grace, now);
    WhereGrows(items, i, IsStepUpItem);
    WhereGrows(items, i, IsExpiredItem(grace, now));
    WhereGrows(items, i, IsGarbledItem);
  }

  lemma VerdictMeans(item: Item, grace: int, now: int)
    ensures IsStepUpItem(item) <==> VerdictAlone(item, grace, now) != Ignored
    ensures IsExpiredItem(grace, now)(item) <==> VerdictAlone(item, grace, now) == Deleted
    ensures IsGarbledItem(item) <==> VerdictAlone(item, grace, now) == Garbled
    ensures VerdictAlone(item, grace, now) !in {Lost, CallFailed}
  {
    hide IsStepUpSecretName;
  }

  /** The body of the loop over namespaces. */
  method SweepNamespace(c: ApiServer, ns: string, grace: int, res0: SweepResult,
                        ghost origin: map<Key, Secret>, ghost before: World, ghost removed0: set<int>)
    returns (res: SweepResult, failed: bool, ghost removed: set<int>)
    requires grace > 0 && Invariant(origin, c.w) && Accounted(before, c.w, res0, removed0, grace)
    modifies c
    ensures Invariant(origin, c.w) && Accounted(before, c.w, res, removed, grace)
    ensures Acts(old(c.w), old(c.schedule), c.w, c.schedule, SweepSteps({ns}, grace))
    ensures old(c.schedule) == [] ==> !failed && c.schedule == []
    ensures old(c.schedule) == [] ==>
      exists part :: SweptAlone(old(c.w), c.w, {ns}, grace, part) && res == Plus(res0, part)
  {
    hide Invariant, IsStepUpSecretName, Run, VerdictAlone, Count, Where, Accounted, Progress, SweptAlone, Acts;
    res, failed, removed := res0, false, removed0;
    ghost var quiet := c.schedule == [];
    ghost var w0, s0, own := c.w, c.schedule, SweepSteps({ns}, grace);
    ActsOthers(w0, s0, own);
    OthersKeep(origin, c.w, c.schedule);
    OthersKeepAccounts(before, c.w, c.schedule, res0, removed0, grace);
    var list := c.List(ns);
    if list.None? {
      return res, true, removed;
    }
    var items := list.value;
    ghost var listed := c.w;
    ListedIsHistory(origin, c.w, ns, items);
    NothingSeen(items, grace, listed.now);
    for i := 0 to |items|
      invariant Invariant(origin, c.w) && Accounted(before, c.w, res, removed, grace)
      invariant Extends(listed, c.w) && Acts(w0, s0, c.w, c.schedule, own)
      invariant quiet ==> c.schedule == [] && c.w.now == listed.now
      invariant quiet ==> c.w.store == listed.store - Where(items[..i], IsExpiredItem(grace, listed.now))
      invariant quiet ==> res == Plus(res0, Progress(items[..i], grace, listed.now))
    {
      ProgressStep(items, i, grace, listed.now);
      CountPlus(res0, Progress(items[..i], grace, listed.now), VerdictAlone(items[i], grace, listed.now));
      ghost var w1, s1 := c.w, c.schedule;
      var v;
      v, res, removed := SweepOne(c, items[i], grace, res, origin, before, removed);
      ActsThen(w0, s0, w1, s1, c.w, c.schedule, own);
      if v == CallFailed {
        VerdictMeans(items[i], grace, listed.now);
        return res, true, removed;
      }
    }
    if quiet {
      assert items[..|items|] == items;
      var part := Progress(items, grace, listed.now);
      ProgressIsSwept(listed, c.w, ns, items, grace);
    }
  }

  lemma OthersKeepAccounts(before: World, w: World, schedule: seq<Slot>, res: SweepResult, removed: set<int>,
                           grace: int)
    requires Accounted(before, w, res, removed, grace)
    ensures Accounted(before, AfterOthers(w, schedule), res, removed, grace)
  {
    OthersExtend(w, schedule);
  }

  lemma NothingSeen(items: seq<Item>, grace: int, now: int)
    ensures Where(items[..0], IsExpiredItem(grace, now)) == {}
    ensures Progress(items[..0], grace, now) == SweepResult(0, 0, 0)
  {}

  lemma CountPlus(a: SweepResult, b: SweepResult, v: Verdict)
    ensures Count(Plus(a, b), v) == Plus(a, Count(b, v))
  {}

  lemma ProgressIsSwept(w: World, w': World, ns: string, items: seq<Item>, grace: int)
    requires IsListing(w, ns, items) && w'.now == w.now
    requires w'.store == w.store - Where(items, IsExpiredItem(grace, w.now))
    ensures SweptAlone(w, w', {ns}, grace, Progress(items, grace, w.now))
  {
    hide Where, IsStepUpSecretName, Progress;
    ProgressIsAll(w, ns, items, grace);
  }

  lemma ProgressIsAll(w: World, ns: string, items: seq<Item>, grace: int)
    requires IsListing(w, ns, items)
    ensures Where(items, IsExpiredItem(grace, w.now)) == ExpiredKeys(w, {ns}, grace)
    ensures Progress(items, grace, w.now) ==
      SweepResult(|StepUpKeys(w, {ns})|, |ExpiredKeys(w, {ns}, grace)|, |UnreadableKeys(w, {ns})|)
  {
    hide Where, IsStepUpSecretName;
    WhereListed(w, ns, items, IsStepUpItem);
    WhereListed(w, ns, items, IsExpiredItem(grace, w.now));
    WhereListed(w, ns, items, IsGarbledItem);
    assert Where(items, IsStepUpItem) == StepUpKeys(w, {ns});
    assert Where(items, IsExpiredItem(grace, w.now)) == ExpiredKeys(w, {ns}, grace);
    assert Where(items, IsGarbledItem) == UnreadableKeys(w, {ns});
  }

  // ---------- The whole pass ----------

  /** Two passes over different namespaces are one pass over both. */
  lemma PassesCompose(w0: World, w1: World, w2: World, nss: set<string>, ns: string, grace: int,
                      res: SweepResult, part: SweepResult)
    requires ns !in nss
    requires SweptAlone(w0, w1, nss, grace, res) && SweptAlone(w1, w2, {ns}, grace, part)
    ensures SweptAlone(w0, w2, nss + {ns}, grace, Plus(res, part))
  {
    ElsewhereUntouched(w0, w1, nss, ns, grace, res);
    KeysAdd(w0, nss, ns, grace);
    hide StepUpKeys, ExpiredKeys, UnreadableKeys;
    MinusTwice(w0.store, ExpiredKeys(w0, nss, grace), ExpiredKeys(w0, {ns}, grace));
  }

  lemma MinusTwice(m: map<Key, Secret>, a: set<Key>, b: set<Key>)
    ensures m - a - b == m - (a + b)
  {}

  lemma ElsewhereUntouched(w0: World, w1: World, nss: set<string>, ns: string, grace: int, res: SweepResult)
    requires ns !in nss && SweptAlone(w0, w1, nss, grace, res)
    ensures StepUpKeys(w1, {ns}) == StepUpKeys(w0, {ns})
    ensures ExpiredKeys(w1, {ns}, grace) == ExpiredKeys(w0, {ns}, grace)
    ensures UnreadableKeys(w1, {ns}) == UnreadableKeys(w0, {ns})
  {
    hide IsStepUpSecretName, ExpiredFor;
  }

  lemma KeysAdd(w: World, nss: set<string>, ns: string, grace: int)
    requires ns !in nss
    ensures |StepUpKeys(w, nss + {ns})| == |StepUpKeys(w, nss)| + |StepUpKeys(w, {ns})|
    ensures ExpiredKeys(w, nss + {ns}, grace) == ExpiredKeys(w, nss, grace) + ExpiredKeys(w, {ns}, grace)
    ensures |ExpiredKeys(w, nss + {ns}, grace)| == |ExpiredKeys(w, nss, grace)| + |ExpiredKeys(w, {ns}, grace)|
    ensures |UnreadableKeys(w, nss + {ns})| == |UnreadableKeys(w, nss)| + |UnreadableKeys(w, {ns})|
  {
    hide IsStepUpSecretName, ExpiredFor;
    DisjointUnion(StepUpKeys(w, nss + {ns}), StepUpKeys(w, nss), StepUpKeys(w, {ns}));
    DisjointUnion(ExpiredKeys(w, nss + {ns}, grace), ExpiredKeys(w, nss, grace), ExpiredKeys(w, {ns}, grace));
    DisjointUnion(UnreadableKeys(w, nss + {ns}), UnreadableKeys(w, nss), UnreadableKeys(w, {ns}));
  }

  lemma DisjointUnion(all: set<Key>, a: set<Key>, b: set<Key>)
    requires forall k :: k in all <==> k in a || k in b
    requires forall k :: !(k in a && k in b)
    ensures all == a + b && |all| == |a| + |b|
  {
    assert all == a + b && a !! b;
  }

  /** `Sweep`: among any other clients, all it does is to delete step-up
      credentials expired for the grace period, and so it leaves every session
      credential alone; alone, it deletes exactly those, and its counts are
      exact. */
  method Sweep(c: ApiServer, namespaces: seq<string>, graceOption: int, ghost origin: map<Key, Secret>)
    returns (res: SweepResult, failed: bool, ghost removed: set<int>)
    requires Invariant(origin, c.w)
    modifies c
    ensures Invariant(origin, c.w)
    ensures Accounted(old(c.w), c.w, res, removed, GraceOf(graceOption))
    ensures Acts(old(c.w), old(c.schedule), c.w, c.schedule, SweepSteps(Visited(namespaces), GraceOf(graceOption)))
    ensures SparedStay(old(c.w), old(c.schedule), c.w, {})
    ensures old(c.schedule) == [] ==>
      !failed && SweptAlone(old(c.w), c.w, Visited(namespaces), GraceOf(graceOption), res)
    ensures forall i :: i in removed ==>
      && |old(c.w).log| <= i < |c.w.log| && c.w.log[i].SecretRemoved? && c.w.log[i].was.cert.Readable?
      && c.w.log[i].at
           >= c.w.log[i].was.cert.cert.notAfter + (if graceOption > 0 then graceOption else 300_000_000_000)
    ensures old(c.schedule) == [] ==>
      forall k :: k in old(c.w).store ==> (k !in c.w.store <==>
        && k.namespace in namespaces && k.namespace != "" && IsStepUpSecretName(k.name)
        && old(c.w).store[k].cert.Readable?
        && old(c.w).now >= old(c.w).store[k].cert.cert.notAfter
             + (if graceOption > 0 then graceOption else 300_000_000_000))
  {
    hide Invariant, Visited;
    NoneVisited(namespaces);
    var grace := GraceOf(graceOption);
    ghost var before := c.w;
    ghost var quiet := c.schedule == [];
    var seen: set<string> := {};
    res, failed, removed := SweepResult(0, 0, 0), false, {};
    hide SweptAlone, Accounted, Run, Acts, SparedStay, IsStepUpSecretName;
    NothingYet(before, grace);
    ghost var s0, own := c.schedule, SweepSteps(Visited(namespaces), grace);
    ActsNot(before, s0, own);
    for i := 0 to |namespaces|
      invariant Invariant(origin, c.w) && Accounted(before, c.w, res, removed, grace)
      invariant seen == Visited(namespaces[..i]) && Acts(before, s0, c.w, c.schedule, own)
      invariant quiet ==> c.schedule == [] && SweptAlone(before, c.w, seen, grace, res)
    {
      var ns := namespaces[i];
      VisitedGrows(namespaces, i);
      if ns == "" || ns in seen {
        continue;
      }
      ghost var w1, s1, res1 := c.w, c.schedule, res;
      res, failed, removed := SweepNamespace(c, ns, grace, res, origin, before, removed);
      ActsMore(w1, s1, c.w, c.schedule, SweepSteps({ns}, grace), own);
      ActsThen(before, s0, w1, s1, c.w, c.schedule, own);
      if failed {
        AccountedMeans(before, c.w, res, removed, graceOption);
        SweepSpares(origin, before, s0, c.w, c.schedule, Visited(namespaces), grace);
        return;
      }
      if quiet {
        ghost var part :| SweptAlone(w1, c.w, {ns}, grace, part) && res == Plus(res1, part);
        PassesCompose(before, w1, c.w, seen, ns, grace, res1, part);
      }
      seen := seen + {ns};
    }
    AccountedMeans(before, c.w, res, removed, graceOption);
    if quiet {
      forall k | k in before.store
        ensures k !in c.w.store <==>
          && k.namespace in namespaces && k.namespace != "" && IsStepUpSecretName(k.name)
          && before.store[k].cert.Readable?
          && before.now >= before.store[k].cert.cert.notAfter
               + (if graceOption > 0 then graceOption else 300_000_000_000)
      {
        VisitedIs(namespaces, k.namespace);
        SweptMeans(before, c.w, Visited(namespaces), graceOption, res, k);
      }
    }
    SweepSpares(origin, before, s0, c.w, c.schedule, Visited(namespaces), grace);
  }

  lemma VisitedIs(namespaces: seq<string>, ns: string)
    ensures ns in Visited(namespaces) <==> ns in namespaces && ns != ""
  {}

  /** Each removal a pass made took a certificate that had then been expired for
      the grace period. */
  lemma AccountedMeans(before: World, after: World, res: SweepResult, removed: set<int>, option: int)
    requires Accounted(before, after, res, removed, GraceOf(option))
    ensures forall i :: i in removed ==>
      && |before.log| <= i < |after.log| && after.log[i].SecretRemoved? && after.log[i].was.cert.Readable?
      && after.log[i].at >= after.log[i].was.cert.cert.notAfter + (if option > 0 then option else 300_000_000_000)
  {
    hide IsStepUpSecretName;
  }

  lemma NothingYet(w: World, grace: int)
    ensures Accounted(w, w, SweepResult(0, 0, 0), {}, grace)
    ensures SweptAlone(w, w, {}, grace, SweepResult(0, 0, 0))
  {
    assert StepUpKeys(w, {}) == {} && ExpiredKeys(w, {}, grace) == {} && UnreadableKeys(w, {}) == {};
  }

  /** Alone, exactly what has been expired for the grace period goes, and nothing
      else changes. */
  lemma SweptMeans(before: World, after: World, nss: set<string>, option: int, res: SweepResult, k: Key)
    requires SweptAlone(before, after, nss, GraceOf(option), res)
    ensures k in after.store ==> k in before.store && after.store[k] == before.store[k]
    ensures k in before.store ==> (k !in after.store <==>
      && k.namespace in nss && IsStepUpSecretName(k.name) && before.store[k].cert.Readable?
      && before.now >= before.store[k].cert.cert.notAfter + if option > 0 then option else 300_000_000_000)
  {
    hide IsStepUpSecretName;
  }

  /** Alone, the counters are of the step-up Secrets there, of those that went,
      and of those whose certificate cannot be read. */
  lemma CountsAre(before: World, after: World, nss: set<string>, option: int, res: SweepResult)
    requires SweptAlone(before, after, nss, GraceOf(option), res)
    ensures
      var there := set k | k in before.store && k.namespace in nss && IsStepUpSecretName(k.name);
      && res.scanned == |there| && res.deleted == |set k | k in there && k !in after.store|
      && res.skipped == |set k | k in there && before.store[k].cert.Unreadable?|
  {
    hide IsStepUpSecretName;
    var there := set k | k in before.store && k.namespace in nss && IsStepUpSecretName(k.name);
    assert there == StepUpKeys(before, nss);
    assert (set k | k in there && k !in after.store) == ExpiredKeys(before, nss, GraceOf(option));
    assert (set k | k in there && before.store[k].cert.Unreadable?) == UnreadableKeys(before, nss);
  }

  lemma SweptKeys(w: World, w': World, nss: set<string>, grace: int, res: SweepResult)
    requires SweptAlone(w, w', nss, grace, res)
    ensures ExpiredKeys(w', nss, grace) == {} && UnreadableKeys(w', nss) == UnreadableKeys(w, nss)
    ensures StepUpKeys(w', nss) == StepUpKeys(w, nss) - ExpiredKeys(w, nss, grace)
    ensures ExpiredKeys(w, nss, grace) <= StepUpKeys(w, nss)
  {
    hide IsStepUpSecretName;
    assert forall k :: k in StepUpKeys(w', nss) ==> k in StepUpKeys(w, nss) && k !in ExpiredKeys(w, nss, grace);
  }

  /** Sweeping again at the same time, alone, deletes nothing more. */
  lemma SweepIsIdempotent(w: World, w': World, w'': World, nss: set<string>, grace: int,
                          res: SweepResult, res': SweepResult)
    requires SweptAlone(w, w', nss, grace, res) && SweptAlone(w', w'', nss, grace, res')
    ensures w''.store == w'.store && res'.deleted == 0 && res'.skipped == res.skipped
    ensures res'.scanned == res.scanned - res.deleted
  {
    hide IsStepUpSecretName;
    SweptKeys(w, w', nss, grace, res);
    SweptKeys(w', w'', nss, grace, res');
  }
}
