/** What one actor does among the others: its own steps, and only those, woven
    into theirs. This is what makes every actor's method a part of the
    interleavings that SecretStore quantifies over. */
module Interleavings {
  import opened Results
  import opened Storage
  import opened SecretStore
  import opened Cluster

  // ---------- One actor's steps among the others' ----------

  /** `ops` are the others' steps in the slots that were used up between
      `schedule` and `schedule'`, in their order, and any number of steps that
      are `own`. */
  ghost predicate Weaves(ops: seq<Op>, schedule: seq<Slot>, schedule': seq<Slot>, own: Op -> bool)
    decreases |schedule| + |ops|
  {
    || (ops == [] && schedule == schedule')
    || (schedule != [] && schedule[0].ops <= ops
        && Weaves(ops[|schedule[0].ops|..], schedule[1..], schedule', own))
    || (ops != [] && own(ops[0]) && Weaves(ops[1..], schedule, schedule', own))
  }

  /** An actor all whose steps are `own` got from the one state to the other. */
  ghost predicate Acts(w: World, schedule: seq<Slot>, w': World, schedule': seq<Slot>, own: Op -> bool)
  {
    exists ops :: Weaves(ops, schedule, schedule', own) && w' == Run(w, ops)
  }

  function NoStep(): Op -> bool { (op: Op) => false }

  function Tail(schedule: seq<Slot>): seq<Slot>
  {
    if schedule == [] then [] else schedule[1..]
  }

  lemma {:induction false} RunThenRun(w: World, a: seq<Op>, b: seq<Op>)
    ensures Run(w, a + b) == Run(Run(w, a), b)
    decreases |a|
  {
    if a == [] {
      assert a + b == b;
    } else {
      hide Apply;
      assert (a + b)[1..] == a[1..] + b;
      RunThenRun(Apply(w, a[0]), a[1..], b);
    }
  }

  lemma {:induction false} WeaveThenWeave(a: seq<Op>, b: seq<Op>, s0: seq<Slot>, s1: seq<Slot>, s2: seq<Slot>,
                                          own: Op -> bool)
    requires Weaves(a, s0, s1, own) && Weaves(b, s1, s2, own)
    ensures Weaves(a + b, s0, s2, own)
    decreases |s0| + |a|
  {
    if a == [] && s0 == s1 {
      assert a + b == b;
    } else if s0 != [] && s0[0].ops <= a && Weaves(a[|s0[0].ops|..], s0[1..], s1, own) {
      var n := |s0[0].ops|;
      assert (a + b)[n..] == a[n..] + b && s0[0].ops <= a + b;
      WeaveThenWeave(a[n..], b, s0[1..], s1, s2, own);
    } else {
      assert (a + b)[1..] == a[1..] + b;
      WeaveThenWeave(a[1..], b, s0, s1, s2, own);
    }
  }

  lemma ActsNot(w: World, schedule: seq<Slot>, own: Op -> bool)
    ensures Acts(w, schedule, w, schedule, own)
  {
    assert Weaves([], schedule, schedule, own) && w == Run(w, []);
  }

  /** The others' steps before a call. */
  lemma ActsOthers(w: World, schedule: seq<Slot>, own: Op -> bool)
    ensures Acts(w, schedule, AfterOthers(w, schedule), Tail(schedule), own)
  {
    if schedule == [] {
      ActsNot(w, schedule, own);
    } else {
      var ops := schedule[0].ops;
      assert ops[|ops|..] == [];
      assert Weaves([], schedule[1..], schedule[1..], own);
      assert Weaves(ops, schedule, schedule[1..], own);
    }
  }

  /** A step of the actor's own, before anyone else acts. */
  lemma ActsAtOnce(w: World, schedule: seq<Slot>, op: Op, own: Op -> bool)
    requires own(op)
    ensures Acts(w, schedule, Apply(w, op), schedule, own)
  {
    hide Apply;
    assert [op][1..] == [];
    assert Weaves([], schedule, schedule, own);
    assert Weaves([op], schedule, schedule, own);
    assert Run(w, [op]) == Run(Apply(w, op), []) == Apply(w, op);
  }

  /** The others' steps before a call, and then a step of the actor's own. */
  lemma ActsOwn(w: World, schedule: seq<Slot>, op: Op, own: Op -> bool)
    requires own(op)
    ensures Acts(w, schedule, Apply(AfterOthers(w, schedule), op), Tail(schedule), own)
  {
    hide Apply;
    ActsOthers(w, schedule, own);
    var w1, s1 := AfterOthers(w, schedule), Tail(schedule);
    ActsAtOnce(w1, s1, op, own);
    ActsThen(w, schedule, w1, s1, Apply(w1, op), s1, own);
  }

  lemma ActsThen(w0: World, s0: seq<Slot>, w1: World, s1: seq<Slot>, w2: World, s2: seq<Slot>, own: Op -> bool)
    requires Acts(w0, s0, w1, s1, own) && Acts(w1, s1, w2, s2, own)
    ensures Acts(w0, s0, w2, s2, own)
  {
    hide Run, Weaves;
    var a :| Weaves(a, s0, s1, own) && w1 == Run(w0, a);
    var b :| Weaves(b, s1, s2, own) && w2 == Run(w1, b);
    WeaveThenWeave(a, b, s0, s1, s2, own);
    RunThenRun(w0, a, b);
  }

  lemma {:induction false} WeavesMore(ops: seq<Op>, s: seq<Slot>, s': seq<Slot>, own: Op -> bool, more: Op -> bool)
    requires Weaves(ops, s, s', own) && forall op :: own(op) ==> more(op)
    ensures Weaves(ops, s, s', more)
    decreases |s| + |ops|
  {
    if ops == [] && s == s' {
    } else if s != [] && s[0].ops <= ops && Weaves(ops[|s[0].ops|..], s[1..], s', own) {
      WeavesMore(ops[|s[0].ops|..], s[1..], s', own, more);
    } else {
      WeavesMore(ops[1..], s, s', own, more);
    }
  }

  lemma ActsMore(w: World, s: seq<Slot>, w': World, s': seq<Slot>, own: Op -> bool, more: Op -> bool)
    requires Acts(w, s, w', s', own) && forall op :: own(op) ==> more(op)
    ensures Acts(w, s, w', s', more)
  {
    hide Run, Weaves;
    var ops :| Weaves(ops, s, s', own) && w' == Run(w, ops);
    WeavesMore(ops, s, s', own, more);
  }

  /** Whatever steps it takes, an actor keeps what every interleaving keeps. */
  lemma ActorsKeepInvariant(origin: map<Key, Secret>, w: World, s: seq<Slot>, w': World, s': seq<Slot>, own: Op -> bool)
    requires Invariant(origin, w) && Acts(w, s, w', s', own)
    ensures Invariant(origin, w')
  {
    hide Invariant, Run, Weaves;
    var ops :| Weaves(ops, s, s', own) && w' == Run(w, ops);
    EveryInterleavingKeepsInvariant(origin, w, ops);
  }

  // ---------- Credentials that are left alone ----------

  predicate WritesCredential(op: Op, k: Key)
  {
    (op.LoginCreate? || op.LoginReplace? || op.Issue?) && op.k == k
  }

  ghost predicate SparesIn(ops: seq<Op>, k: Key)
  {
    forall i :: 0 <= i < |ops| ==> !WritesCredential(ops[i], k)
  }

  /** The others write no credential under `k`; time passes, and they may
      backfill, sync and sweep it. Calls may fail. */
  ghost predicate Spares(schedule: seq<Slot>, k: Key)
  {
    forall i :: 0 <= i < |schedule| ==> SparesIn(schedule[i].ops, k)
  }

  function Credential(w: World, k: Key): Option<(CertData, string)>
  {
    if k in w.store then Some((w.store[k].cert, w.store[k].privateKey)) else None
  }

  lemma StepSpares(w: World, op: Op, k: Key)
    requires VersionsIdentify(w) && !IsStepUpSecretName(k.name) && !WritesCredential(op, k)
    ensures Credential(Apply(w, op), k) == Credential(w, k)
  {
    hide PutAnnotations, WantedAnnotations, MissingAnnotations, IsStepUpSecretName, VersionsIdentify;
    if op.SyncWrite? || op.BackfillWrite? {
      AnnotationWritesKeepCredentials(w, op, k);
    }
  }

  lemma {:induction false} RunSpares(w: World, ops: seq<Op>, k: Key)
    requires VersionsIdentify(w) && !IsStepUpSecretName(k.name) && SparesIn(ops, k)
    ensures Credential(Run(w, ops), k) == Credential(w, k)
    decreases |ops|
  {
    if ops != [] {
      hide VersionsIdentify, IsStepUpSecretName, Apply, Credential, WritesCredential;
      StepSpares(w, ops[0], k);
      StepKeepsVersions(w, ops[0]);
      RunSpares(Apply(w, ops[0]), ops[1..], k);
    }
  }

  lemma OthersSpare(origin: map<Key, Secret>, w: World, schedule: seq<Slot>, k: Key)
    requires Invariant(origin, w) && !IsStepUpSecretName(k.name) && Spares(schedule, k)
    ensures Credential(AfterOthers(w, schedule), k) == Credential(w, k)
    ensures schedule != [] ==> Spares(schedule[1..], k)
  {
    if schedule != [] {
      RunSpares(w, schedule[0].ops, k);
    }
  }

  lemma {:induction false} WeavesSpare(ops: seq<Op>, s: seq<Slot>, s': seq<Slot>, own: Op -> bool, k: Key)
    requires Weaves(ops, s, s', own) && Spares(s, k) && forall op :: own(op) ==> !WritesCredential(op, k)
    ensures SparesIn(ops, k)
    decreases |s| + |ops|
  {
    hide WritesCredential;
    if ops == [] && s == s' {
    } else if s != [] && s[0].ops <= ops && Weaves(ops[|s[0].ops|..], s[1..], s', own) {
      var n := |s[0].ops|;
      WeavesSpare(ops[n..], s[1..], s', own, k);
      assert forall i :: 0 <= i < n ==> ops[i] == s[0].ops[i];
      assert forall i :: n <= i < |ops| ==> ops[i] == ops[n..][i - n];
    } else {
      WeavesSpare(ops[1..], s, s', own, k);
      assert forall i :: 1 <= i < |ops| ==> ops[i] == ops[1..][i - 1];
    }
  }

  /** Under every session name the others spared, but for those `touched`, the
      credential is what it was. */
  ghost predicate SparedStay(w: World, schedule: seq<Slot>, w': World, touched: set<Key>)
  {
    forall k: Key :: !IsStepUpSecretName(k.name) && k !in touched && Spares(schedule, k) ==>
      Credential(w', k) == Credential(w, k)
  }

  /** An actor whose own steps write credentials only under `touched`. */
  lemma ActorsSpare(origin: map<Key, Secret>, w: World, s: seq<Slot>, w': World, s': seq<Slot>,
                    own: Op -> bool, touched: set<Key>)
    requires Invariant(origin, w) && Acts(w, s, w', s', own)
    requires forall op, k :: own(op) && WritesCredential(op, k) ==> k in touched
    ensures SparedStay(w, s, w', touched)
  {
    hide IsStepUpSecretName, WritesCredential, Credential, Spares, SparesIn, Weaves, Run;
    var ops :| Weaves(ops, s, s', own) && w' == Run(w, ops);
    forall k: Key | !IsStepUpSecretName(k.name) && k !in touched && Spares(s, k)
      ensures Credential(w', k) == Credential(w, k)
    {
      WeavesSpare(ops, s, s', own, k);
      RunSpares(w, ops, k);
    }
  }
}
