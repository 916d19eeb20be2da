/** From plan to verdict: all planned modules are validated, their reports are put together, and the
    reconciler accepts them (`local_full_validation`, and the release commands). */
module Pipeline {
  import opened Common
  import Selection
  import opened Registration
  import opened Planner
  import opened PlanProperties
  import opened Reconciliation
  import opened CandidateProtocol
  import opened Validation

  datatype Outcome = Unplanned | ValidationFailed | Accepted | Rejected

  function ForModules(done: set<string>): Obligation -> bool { (o: Obligation) => o.mod in done }

  lemma ModulesTogether(result: seq<Report>, own: seq<Report>, os: seq<Obligation>, done: set<string>, m: string,
                        p: Plan)
    requires m !in done
    requires Answers(result, Part(os, ForModules(done)), p) && Answers(own, Only(os, m), p)
    ensures Answers(result + own, Part(os, ForModules(done + {m})), p)
  {
    hide Fits, Part, Keys, ReportKeys, ForModules, Only;
    KeysJoin(result, own);
    forall k
      ensures multiset(Keys(Part(os, ForModules(done + {m}))))[k] ==
                multiset(Keys(Part(os, ForModules(done))))[k] + multiset(Keys(Only(os, m)))[k]
    {
      ModulesAdd(os, done, m, k);
    }
  }

  lemma ModulesAdd(os: seq<Obligation>, done: set<string>, m: string, k: Key)
    requires m !in done
    ensures multiset(Keys(Part(os, ForModules(done + {m}))))[k] ==
              multiset(Keys(Part(os, ForModules(done))))[k] + multiset(Keys(Only(os, m)))[k]
  {
    hide Part, Keys, Only;
    OnlyIsPart(os, m);
    PartsAdd(os, ForModules(done), (o: Obligation) => o.mod == m, ForModules(done + {m}), k);
  }

  lemma NoModules(os: seq<Obligation>, p: Plan)
    ensures Answers([], Part(os, ForModules({})), p)
  {
    PartNone(os, ForModules({}));
    assert ReportKeys([]) == [] && Keys([]) == [];
  }

  lemma AllModules(os: seq<Obligation>)
    ensures Part(os, ForModules(Modules(os))) == os
  {
    PartAll(os, ForModules(Modules(os)));
  }

  /** Every module keeps to one mode. */
  ghost predicate OneModeEach(os: seq<Obligation>, ms: set<string>) { forall m :: m in ms ==> OneModeIn(Only(os, m)) }

  /** What the candidate validations of a plan meet lets them succeed. */
  ghost predicate AllCooperate(os: seq<Obligation>, envs: string -> Environment, checkout: PosixPath,
                               sources: string -> Inputs)
  {
    forall m :: m in Modules(os) ==> Cooperates(Only(os, m), envs(m), m, checkout, sources)
  }

  ghost predicate Cooperates(os: seq<Obligation>, env: Environment, m: string, checkout: PosixPath,
                             sources: string -> Inputs)
  {
    os != [] && os[0].mode == "candidate" ==> Cooperative(env, os, m, checkout, sources)
  }

  ghost predicate AllFaithful(envs: string -> Environment, checkout: PosixPath) {
    forall m :: Faithful(envs(m), RootOf(checkout, m))
  }

  /** The modules so far are planned in one mode each, and their validations meet cooperation. */
  ghost predicate ModulesFine(os: seq<Obligation>, ms: set<string>, envs: string -> Environment, checkout: PosixPath,
                              sources: string -> Inputs)
  {
    forall m :: m in ms ==> ModuleFine(Only(os, m), envs(m), m, checkout, sources)
  }

  ghost predicate ModuleFine(os: seq<Obligation>, env: Environment, m: string, checkout: PosixPath,
                             sources: string -> Inputs)
  {
    OneModeIn(os) && Cooperates(os, env, m, checkout, sources)
  }

  /** One module: its tools are prepared, and it is validated. */
  method ValidateOne(p: Plan, m: string, checkout: PosixPath, sources: string -> Inputs, host: Host, env: Environment)
    returns (own: Option<seq<Report>>)
    requires Grounded(p, sources) && ProperCheckout(checkout) && Faithful(env, RootOf(checkout, m))
    requires m in Modules(p.obligations)
    modifies host
    ensures host.step >= old(host.step)
    ensures own.Some? ==> Answers(own.value, Only(p.obligations, m), p)
    ensures own.Some? ==> old(host.ran) <= host.ran && TargetsRan(Only(p.obligations, m), host.ran, |old(host.ran)|)
    ensures own.Some? <==>
              ModuleFine(Only(p.obligations, m), env, m, checkout, sources) && !host.FailedIn(old(host.step), host.step)
  {
    hide Grounded, ProperCheckout, Answers, Only, OneModeIn, Modules, Traced, Faithful, Cooperative, RootOf, ContextFor,
         Ascending, TargetsOf, Elements;
    ModuleHasShare(p.obligations, m);
    var prepared := host.Do();
    if !prepared { return None; }
    var context;
    ghost var order;
    own, context, order := Validate(p, m, checkout, sources, host, env);
    if own.Some? { RanInOrder(Only(p.obligations, m), host.ran, order, |old(host.ran)|); }
  }

  /** The owning target of every obligation has been run, as one of the targets from `from` on. */
  ghost predicate TargetsRan(os: seq<Obligation>, ran: seq<string>, from: nat) {
    forall o :: o in os ==> exists k :: from <= k < |ran| && ran[k] == o.target
  }

  lemma RanInOrder(os: seq<Obligation>, ran: seq<string>, order: seq<string>, from: nat)
    requires from <= |ran| && ran[from..] == order && Elements(order) == TargetsOf(os)
    ensures TargetsRan(os, ran, from)
  {
    forall o | o in os ensures exists k :: from <= k < |ran| && ran[k] == o.target {
      assert o.target in Elements(order);
      var i :| 0 <= i < |order| && order[i] == o.target;
      assert ran[from + i] == o.target;
    }
  }

  /** What has been run stays so. */
  lemma RanLonger(os: seq<Obligation>, ran: seq<string>, more: seq<string>, from: nat, earlier: nat)
    requires TargetsRan(os, ran, from) && ran <= more && earlier <= from
    ensures TargetsRan(os, more, earlier)
  {
    forall o | o in os ensures exists k :: earlier <= k < |more| && more[k] == o.target {
      var k :| from <= k < |ran| && ran[k] == o.target;
      assert more[k] == o.target;
    }
  }

  ghost predicate ModulesRan(os: seq<Obligation>, ms: set<string>, ran: seq<string>, from: nat) {
    forall m :: m in ms ==> TargetsRan(Only(os, m), ran, from)
  }

  lemma ModulesRanLonger(os: seq<Obligation>, ms: set<string>, m: string, ran: seq<string>, more: seq<string>,
                         from: nat, mid: nat)
    requires ModulesRan(os, ms, ran, from) && ran <= more && from <= mid && TargetsRan(Only(os, m), more, mid)
    ensures ModulesRan(os, ms + {m}, more, from)
  {
    hide TargetsRan, Only;
    RanLonger(Only(os, m), more, more, mid, from);
    forall m' | m' in ms ensures TargetsRan(Only(os, m'), more, from) {
      RanLonger(Only(os, m'), ran, more, from, from);
    }
  }

  lemma NoneRan(os: seq<Obligation>, ran: seq<string>, from: nat)
    ensures ModulesRan(os, {}, ran, from)
  {
  }

  lemma AllRan(os: seq<Obligation>, ran: seq<string>, from: nat)
    requires ModulesRan(os, Modules(os), ran, from)
    ensures TargetsRan(os, ran, from)
  {
    forall o | o in os ensures exists k :: from <= k < |ran| && ran[k] == o.target {
      assert o.mod in Modules(os);
      assert o in Only(os, o.mod);
    }
  }

  /** Every planned module, in ascending order. */
  method ValidateModules(p: Plan, checkout: PosixPath, sources: string -> Inputs, host: Host,
                         envs: string -> Environment)
    returns (reports: Option<seq<Report>>)
    requires Grounded(p, sources) && ProperCheckout(checkout) && AllFaithful(envs, checkout)
    modifies host
    ensures host.step >= old(host.step)
    ensures reports.Some? ==> Answers(reports.value, p.obligations, p)
    ensures reports.Some? ==> old(host.ran) <= host.ran && TargetsRan(p.obligations, host.ran, |old(host.ran)|)
    ensures reports.Some? <==>
              && ModulesFine(p.obligations, Modules(p.obligations), envs, checkout, sources)
              && !host.FailedIn(old(host.step), host.step)
  {
    hide Grounded, ProperCheckout, Answers, Only, Part, ForModules, Modules, Faithful, RootOf, ModuleFine,
         Host.FailedIn, TargetsRan, ModulesRan;
    var result: seq<Report> := [];
    var remaining := Modules(p.obligations);
    ghost var done: set<string> := {};
    NoModules(p.obligations, p);
    NoneRan(p.obligations, host.ran, |host.ran|);
    StepsJoined(host, host.step, host.step, host.step);
    while remaining != {}
      invariant remaining !! done && remaining + done == Modules(p.obligations)
      invariant Answers(result, Part(p.obligations, ForModules(done)), p)
      invariant ModulesFine(p.obligations, done, envs, checkout, sources)
      invariant host.step >= old(host.step) && !host.FailedIn(old(host.step), host.step)
      invariant old(host.ran) <= host.ran && ModulesRan(p.obligations, done, host.ran, |old(host.ran)|)
      decreases |remaining|
    {
      var m := NextOf(remaining);
      ghost var from, ran := host.step, host.ran;
      var own := ValidateOne(p, m, checkout, sources, host, envs(m));
      StepsJoined(host, old(host.step), from, host.step);
      if own.None? { return None; }
      ModulesRanLonger(p.obligations, done, m, ran, host.ran, |old(host.ran)|, |ran|);
      ModulesTogether(result, own.value, p.obligations, done, m, p);
      result := result + own.value;
      remaining, done := remaining - {m}, done + {m};
    }
    AllModules(p.obligations);
    AllRan(p.obligations, host.ran, |old(host.ran)|);
    return Some(result);
  }

  lemma StepsJoined(host: Host, from: nat, mid: nat, to: nat)
    requires from <= mid <= to
    ensures host.FailedIn(from, to) <==> host.FailedIn(from, mid) || host.FailedIn(mid, to)
    ensures !host.FailedIn(from, from)
  {
  }

  lemma FineMeans(os: seq<Obligation>, envs: string -> Environment, checkout: PosixPath, sources: string -> Inputs)
    ensures ModulesFine(os, Modules(os), envs, checkout, sources) <==>
              OneModeEach(os, Modules(os)) && AllCooperate(os, envs, checkout, sources)
  {
    hide Cooperates, OneModeIn, Only;
  }

  /** Validating every planned module and reconciling the reports: the outcome is acceptance exactly
      when each module is planned in one mode, every candidate validation meets cooperation and every
      step passes; the reconciler never rejects what validation produced. */
  method ValidateAll(p: Plan, checkout: PosixPath, sources: string -> Inputs, host: Host, envs: string -> Environment)
    returns (outcome: Outcome)
    requires Grounded(p, sources) && ProperCheckout(checkout) && AllFaithful(envs, checkout)
    modifies host
    ensures host.step >= old(host.step)
    ensures outcome in {ValidationFailed, Accepted}
    ensures outcome == Accepted ==>
              old(host.ran) <= host.ran && TargetsRan(p.obligations, host.ran, |old(host.ran)|)
    ensures outcome == Accepted <==>
              && OneModeEach(p.obligations, Modules(p.obligations))
              && AllCooperate(p.obligations, envs, checkout, sources)
              && !host.FailedIn(old(host.step), host.step)
  {
    hide Grounded, ProperCheckout, Answers, Modules, OneModeEach, AllCooperate, AllFaithful, ModulesFine, Host.FailedIn,
         TargetsRan;
    var reports := ValidateModules(p, checkout, sources, host, envs);
    FineMeans(p.obligations, envs, checkout, sources);
    if reports.None? { return ValidationFailed; }
    GroundedKeys(p, sources);
    Complete(p, reports.value);
    var ok := Reconcile(p, reports.value);
    outcome := if ok then Accepted else Rejected;
  }

  lemma ModuleHasShare(os: seq<Obligation>, m: string)
    requires m in Modules(os)
    ensures Only(os, m) != []
  {
    var o :| o in os && o.mod == m;
    assert o in Only(os, m);
  }

  lemma Complete(p: Plan, reports: seq<Report>)
    requires Distinct(Keys(p.obligations)) && Answers(reports, p.obligations, p)
    ensures Accepts(p, reports)
  {
    hide Fits, Keys, ReportKeys;
    AcceptsExactly(p, reports);
  }

  // ---- planned changes -----------------------------------------------------------------------------------

  /** A rooted tree's registered directories exist, and digests are not empty. */
  ghost predicate Extracted(head: Tree) {
    && (Selection.LibraryDirectory in Directories(head.inventory.modules) ==> head.hasLibrary)
    && forall m :: head.sources(m).manifest != "" && head.sources(m).locks != ""
  }

  lemma CandidatesNeedLibrary(ms: seq<Module>, c: Context)
    requires Bound(c.consumers) && Candidates(Obligations(ms, c))
    ensures Selection.LibraryDirectory in c.changed
  {
    hide Bound, Obligations, Planned, Phases, FindConsumer;
    var os := Obligations(ms, c);
    var i :| 0 <= i < |os| && os[i].mode == "candidate";
    PlanDemands(ms, c, os[i]);
    var k :| 0 <= k < |ms| && Demanded(os[i], ms[k], c);
  }

  /** The root tooling and topology checks that come before a plan with root work: the library's tools
      are prepared, and the checks run. */
  method RootChecks(host: Host) returns (ok: bool)
    modifies host
    ensures host.step >= old(host.step) && (ok <==> !host.FailedIn(old(host.step), host.step))
    ensures ok ==> host.ran == old(host.ran) + RootTargets
  {
    ok := host.Make(RootTargets[0]);
    if ok {
      ok := host.MakeAll(RootTargets[1..]);
      assert RootTargets == [RootTargets[0]] + RootTargets[1..];
    }
  }

  const RootTargets := ["bootstrap-go-tools", "python-shared-tooling-check", "python-shared-tooling-test-integration",
                        "go-topology-check", "go-topology-test"]

  /** End to end (`local_full_validation`): a plannable change is accepted exactly when every step
      passes, the root checks of a plan with root work among them, and every candidate validation
      meets cooperation; the reports of validated modules are never rejected. */
  method PlanAndValidate(base: Tree, head: Tree, paths: seq<string>, baseSha: string, headSha: string,
                         mergeBase: string,
                         profile: string, checkout: PosixPath, host: Host, envs: string -> Environment)
    returns (outcome: Outcome)
    requires Extracted(head) && ProperCheckout(checkout) && AllFaithful(envs, checkout)
    modifies host
    ensures outcome != Rejected
    ensures outcome == Unplanned <==> !Plannable(profile, base, head, paths)
    ensures outcome != Unplanned ==> Bound(head.inventory.consumers)
    ensures outcome != Unplanned ==>
              var os := Obligations(head.inventory.modules, ContextOf(profile, base, head, paths));
              (outcome == Accepted <==>
               AllCooperate(os, envs, checkout, head.sources) && !host.FailedIn(old(host.step), host.step))
              && (outcome == Accepted ==> old(host.ran) <= host.ran && TargetsRan(os, host.ran, |old(host.ran)|))
    // nothing is accepted before the root checks of a plan with root work
    ensures outcome == Accepted && RootWork(paths) ==> old(host.ran) + RootTargets <= host.ran
  {
    hide AllFaithful, AllCooperate, Plannable, Bound, Obligations, Extracted, ProperCheckout, Keys, ContextOf, Modules,
         OneModeEach, Host.FailedIn, TargetsRan, RootWork;
    var plan := PlanTrees(base, head, paths, baseSha, headSha, mergeBase, profile);
    if plan.None? { return Unplanned; }
    PlannedIsGrounded(plan.value, base, head, paths, profile);
    PlannedHasOneMode(profile, base, head, paths);
    ContextHasRootWork(profile, base, head, paths);
    ghost var from := host.step;
    StepsJoined(host, from, from, from);
    if plan.value.rootChecks {
      var ok := RootChecks(host);
      if !ok { return ValidationFailed; }
    }
    ghost var mid, ran := host.step, host.ran;
    outcome := ValidateAll(plan.value, checkout, head.sources, host, envs);
    StepsJoined(host, from, mid, host.step);
    if outcome == Accepted {
      RanLonger(plan.value.obligations, host.ran, host.ran, |ran|, |old(host.ran)|);
    }
  }

  lemma ContextHasRootWork(profile: string, base: Tree, head: Tree, paths: seq<string>)
    ensures ContextOf(profile, base, head, paths).rootWork == RootWork(paths)
  {
    hide RootWork;
  }

  /** The obligations of each module are of one mode. */
  lemma EachOfOneMode(os: seq<Obligation>)
    requires OneMode(os)
    ensures OneModeEach(os, Modules(os))
  {
    forall m | m in Modules(os) ensures OneModeIn(Only(os, m)) {
      var own := Only(os, m);
      forall i | 0 <= i < |own| ensures own[i].mode == own[0].mode {
        assert own[i] in own && own[0] in own;
      }
    }
  }

  lemma PlannedHasOneMode(profile: string, base: Tree, head: Tree, paths: seq<string>)
    requires Plannable(profile, base, head, paths) && Bound(head.inventory.consumers)
    ensures var os := Obligations(head.inventory.modules, ContextOf(profile, base, head, paths));
            OneModeEach(os, Modules(os))
  {
    hide Bound, Obligations, Modules, OneModeEach, OneMode, DistinctPhases, Keys, KnownOwners,
         Changed, ProperRecords, Placed, NoDowngrade;
    var c := ContextOf(profile, base, head, paths);
    PlanDistinct(head.inventory.modules, c);
    EachOfOneMode(Obligations(head.inventory.modules, c));
  }

  /** Without a record for the library's own directory a release asks for each module in one mode. */
  lemma OneModeRelease(cs: seq<Consumer>)
    requires Bound(cs) && DistinctConsumers(cs) && FindConsumer(cs, Selection.LibraryDirectory).None?
    ensures OneModeEach(ReleaseObligations(cs), Modules(ReleaseObligations(cs)))
  {
    hide Bound, ReleaseObligations, Keys;
    var os := ReleaseObligations(cs);
    ReleaseDistinct(cs);
    forall i, j | 0 <= i < |os| && 0 <= j < |os| && os[i].mod == os[j].mod ensures os[i].mode == os[j].mode {
      assert ReleaseShape(os[i], cs) && ReleaseShape(os[j], cs);
    }
    EachOfOneMode(os);
  }

  lemma PlannedIsGrounded(p: Plan, base: Tree, head: Tree, paths: seq<string>, profile: string)
    requires Extracted(head) && Plannable(profile, base, head, paths) && Bound(head.inventory.consumers)
    requires p.obligations == Obligations(head.inventory.modules, ContextOf(profile, base, head, paths))
    requires p.inputs.Keys == Modules(p.obligations) && forall m :: m in p.inputs ==> p.inputs[m] == head.sources(m)
    requires p.candidateManifest ==
               if head.hasLibrary then Some(head.sources(Selection.LibraryDirectory).manifest) else None
    ensures Grounded(p, head.sources)
  {
    hide Bound, Obligations, Keys, Modules, TouchedBy, RootWork, LibraryCodeChanged, KnownOwners,
         ProperRecords, Placed, NoDowngrade;
    var c := ContextOf(profile, base, head, paths);
    PlanDistinct(head.inventory.modules, c);
    if Candidates(p.obligations) { CandidatesNeedLibrary(head.inventory.modules, c); }
  }

  // ---- releases ------------------------------------------------------------------------------------------

  const ReleaseTarget := "check-go-pr"

  function LibraryObligation(phase: string): Obligation {
    Obligation(Selection.LibraryDirectory, phase, "normal", ReleaseTarget)
  }

  function LibraryObligations(): (os: seq<Obligation>)
    ensures |os| == |LibraryPhases| && forall i :: 0 <= i < |os| ==> os[i] == LibraryObligation(LibraryPhases[i])
  {
    seq(|LibraryPhases|, i requires 0 <= i < |LibraryPhases| => LibraryObligation(LibraryPhases[i]))
  }

  function ConsumerObligation(c: Consumer, i: nat): Obligation
    requires ProperPhases(c) && i < |c.phases|
  {
    RecordFacts(c);
    assert c.phases[i] in c.bindings;
    Obligation(c.directory, c.phases[i], "candidate", c.bindings[c.phases[i]].target)
  }

  function ConsumerObligations(c: Consumer): (os: seq<Obligation>)
    requires ProperPhases(c)
    ensures |os| == |c.phases| && forall i :: 0 <= i < |os| ==> os[i] == ConsumerObligation(c, i)
  {
    seq(|c.phases|, i requires 0 <= i < |c.phases| => ConsumerObligation(c, i))
  }

  function ReleaseObligations(cs: seq<Consumer>): seq<Obligation>
    requires Bound(cs)
  {
    if cs == [] then LibraryObligations()
    else
      assert ProperPhases(cs[|cs| - 1]);
      ReleaseObligations(cs[..|cs| - 1]) + ConsumerObligations(cs[|cs| - 1])
  }

  /** `release_expected`: the library's own phases, and every candidate phase of every consumer.
      `moduleLine` is the first line of the library's manifest. */
  method ReleaseExpected(tree: Tree, sha: string, moduleLine: string) returns (plan: Option<Plan>)
    requires Extracted(tree)
    ensures plan.Some? <==>
              && tree.registered && tree.hasLibrary && Loads(tree.inventory) && Placed(tree.inventory)
              && moduleLine == "module " + LibraryModule
    ensures plan.Some? ==> Grounded(plan.value, tree.sources) && Bound(tree.inventory.consumers)
    ensures plan.Some? ==> plan.value.obligations == ReleaseObligations(tree.inventory.consumers)
    ensures plan.Some? ==> plan.value.base == plan.value.head == sha
  {
    hide Placed, ProperRecords, Grounded, Extracted, Bound, DistinctModules, ReleaseObligations, LibraryObligation;
    var registered := Schema(tree.inventory.consumers);
    if !registered || !DistinctModules(tree.inventory.modules) { return None; }
    if !tree.registered || !Placed(tree.inventory) { return None; }
    if !tree.hasLibrary || moduleLine != "module " + LibraryModule { return None; }
    var cs := tree.inventory.consumers;
    RecordsBound(cs);
    var obligations := LibraryObligations();
    ReleaseStart(cs);
    for i := 0 to |cs|
      invariant Bound(cs[..i]) && obligations == ReleaseObligations(cs[..i])
    {
      var own := CollectConsumer(cs, i);
      ReleaseStep(cs, i);
      obligations := obligations + own;
    }
    assert cs[..|cs|] == cs;
    var inputs := map m | m in Modules(obligations) :: tree.sources(m);
    var p := Plan("", sha, sha, "", {}, false, |cs|, obligations, inputs,
                  Some(tree.sources(Selection.LibraryDirectory).manifest));
    ReleaseIsGrounded(p, tree);
    return Some(p);
  }

  /** The loop over one consumer's phases. */
  method CollectConsumer(cs: seq<Consumer>, k: nat) returns (own: seq<Obligation>)
    requires Bound(cs) && k < |cs|
    ensures ProperPhases(cs[k]) && own == ConsumerObligations(cs[k])
  {
    hide ProperPhases;
    var c := cs[k];
    assert ProperPhases(c);
    RecordFacts(c);
    own := [];
    for i := 0 to |c.phases|
      invariant own == ConsumerObligations(c)[..i]
    {
      assert c.phases[i] in c.bindings;
      own := own + [Obligation(c.directory, c.phases[i], "candidate", c.bindings[c.phases[i]].target)];
      assert own[i] == ConsumerObligation(c, i) == ConsumerObligations(c)[i];
    }
  }

  lemma ReleaseStart(cs: seq<Consumer>)
    ensures Bound(cs[..0]) && ReleaseObligations(cs[..0]) == LibraryObligations()
  {
  }

  lemma ReleaseStep(cs: seq<Consumer>, i: nat)
    requires Bound(cs) && i < |cs| && Bound(cs[..i])
    ensures Bound(cs[..i + 1]) && ProperPhases(cs[i])
    ensures ReleaseObligations(cs[..i + 1]) == ReleaseObligations(cs[..i]) + ConsumerObligations(cs[i])
  {
    hide ProperPhases, ConsumerObligations;
    assert cs[..i + 1][..i] == cs[..i];
    assert forall k :: 0 <= k < i + 1 ==> cs[..i + 1][k] == cs[k];
  }

  ghost predicate ReleaseShape(o: Obligation, cs: seq<Consumer>) {
    (o.mod == Selection.LibraryDirectory && o.mode == "normal")
    || (o.mode == "candidate" && exists i :: 0 <= i < |cs| && cs[i].directory == o.mod)
  }

  lemma {:induction false} ReleaseDistinct(cs: seq<Consumer>)
    requires Bound(cs) && DistinctConsumers(cs)
    ensures Distinct(Keys(ReleaseObligations(cs)))
    ensures forall o :: o in ReleaseObligations(cs) ==> ReleaseShape(o, cs)
  {
    hide Bound, ProperPhases, LibraryObligations, ConsumerObligations, Keys;
    var os := ReleaseObligations(cs);
    if cs == [] {
      LibraryDistinct();
    } else {
      var last := |cs| - 1;
      var front, c := cs[..last], cs[last];
      FrontBound(cs);
      ReleaseDistinct(front);
      ConsumerDistinct(c);
      var before, own := ReleaseObligations(front), ConsumerObligations(c);
      forall o | o in before ensures ReleaseShape(o, cs) && (o.mode, o.mod) != ("candidate", c.directory) {
        ShapeGrows(o, cs);
      }
      forall o | o in own ensures ReleaseShape(o, cs) { assert cs[last].directory == o.mod; }
      KeysApart(before, own);
    }
  }

  lemma FrontBound(cs: seq<Consumer>)
    requires Bound(cs) && cs != []
    ensures Bound(cs[..|cs| - 1]) && ProperPhases(cs[|cs| - 1])
  {
    hide ProperPhases;
  }

  lemma ShapeGrows(o: Obligation, cs: seq<Consumer>)
    requires DistinctConsumers(cs) && cs != [] && ReleaseShape(o, cs[..|cs| - 1])
    ensures ReleaseShape(o, cs) && (o.mode, o.mod) != ("candidate", cs[|cs| - 1].directory)
  {
    if o.mode == "candidate" {
      var i :| 0 <= i < |cs| - 1 && cs[..|cs| - 1][i].directory == o.mod;
      assert cs[i].directory == o.mod;
    }
  }

  lemma LibraryDistinct()
    ensures Distinct(Keys(LibraryObligations()))
    ensures forall o :: o in LibraryObligations() ==> o.mod == Selection.LibraryDirectory && o.mode == "normal"
  {
    var os := LibraryObligations();
    ConstantPhases();
    forall i, j | 0 <= i < j < |os| ensures Keys(os)[i] != Keys(os)[j] {
      assert KeyOf(os[i]).phase == LibraryPhases[i] && KeyOf(os[j]).phase == LibraryPhases[j];
    }
  }

  lemma ConsumerDistinct(c: Consumer)
    requires ProperPhases(c)
    ensures Distinct(Keys(ConsumerObligations(c)))
    ensures forall o :: o in ConsumerObligations(c) ==> o.mod == c.directory && o.mode == "candidate"
  {
    hide ProperPhases;
    RecordFacts(c);
    var os := ConsumerObligations(c);
    assert forall i :: 0 <= i < |os| ==> os[i] == ConsumerObligation(c, i);
    forall i, j | 0 <= i < j < |os| ensures Keys(os)[i] != Keys(os)[j] {
      assert KeyOf(os[i]).phase == c.phases[i] && KeyOf(os[j]).phase == c.phases[j];
    }
  }

  lemma KeysApart(before: seq<Obligation>, own: seq<Obligation>)
    requires Distinct(Keys(before)) && Distinct(Keys(own))
    requires forall o, o' :: o in before && o' in own ==> KeyOf(o) != KeyOf(o')
    ensures Distinct(Keys(before + own))
  {
    var all := before + own;
    forall i, j | 0 <= i < j < |all| ensures Keys(all)[i] != Keys(all)[j] {
      if i < |before| <= j {
        assert all[i] in before && all[j] in own;
      } else if j < |before| {
        assert Keys(before)[i] != Keys(before)[j];
      } else {
        assert Keys(own)[i - |before|] != Keys(own)[j - |before|];
      }
    }
  }

  lemma ReleaseIsGrounded(p: Plan, tree: Tree)
    requires Extracted(tree) && ProperRecords(tree.inventory.consumers) && Bound(tree.inventory.consumers)
    requires p.obligations == ReleaseObligations(tree.inventory.consumers)
    requires p.inputs.Keys == Modules(p.obligations) && forall m :: m in p.inputs ==> p.inputs[m] == tree.sources(m)
    requires p.candidateManifest == Some(tree.sources(Selection.LibraryDirectory).manifest)
    ensures Grounded(p, tree.sources)
  {
    hide Bound, ReleaseObligations, Keys, Modules, ProperConsumer;
    ReleaseDistinct(tree.inventory.consumers);
  }

  /** A release is validated in the same way; with a consumer record for the library's own directory
      its plan asks for that module in both modes, and no release is ever accepted. */
  method ReleaseAndValidate(tree: Tree, sha: string, moduleLine: string, checkout: PosixPath, host: Host,
                            envs: string -> Environment)
    returns (outcome: Outcome)
    requires Extracted(tree) && ProperCheckout(checkout) && AllFaithful(envs, checkout)
    modifies host
    ensures outcome != Rejected
    ensures outcome != Unplanned ==> Bound(tree.inventory.consumers)
    ensures outcome != Unplanned ==>
              (outcome == Accepted <==>
               && FindConsumer(tree.inventory.consumers, Selection.LibraryDirectory).None?
               && AllCooperate(ReleaseObligations(tree.inventory.consumers), envs, checkout, tree.sources)
               && !host.FailedIn(old(host.step), host.step))
    ensures outcome == Unplanned <==>
              !(tree.registered && tree.hasLibrary && Loads(tree.inventory) && Placed(tree.inventory)
                && moduleLine == "module " + LibraryModule)
  {
    hide AllFaithful, AllCooperate, Extracted, ProperCheckout, Grounded, Bound, Placed, ReleaseObligations, OneModeEach,
         FindConsumer, Modules, Host.FailedIn;
    var plan := ReleaseExpected(tree, sha, moduleLine);
    if plan.None? { return Unplanned; }
    outcome := ValidateAll(plan.value, checkout, tree.sources, host, envs);
    if FindConsumer(tree.inventory.consumers, Selection.LibraryDirectory).Some? {
      TwoModes(tree.inventory.consumers);
    } else {
      OneModeRelease(tree.inventory.consumers);
    }
  }

  lemma TwoModes(cs: seq<Consumer>)
    requires Bound(cs) && FindConsumer(cs, Selection.LibraryDirectory).Some?
    ensures !OneModeEach(ReleaseObligations(cs), Modules(ReleaseObligations(cs)))
  {
    hide Bound, ReleaseObligations, LibraryObligations, ConsumerObligations, Only, ProperPhases;
    var os := ReleaseObligations(cs);
    var n := LibraryInRelease(cs);
    var c := ConsumerInRelease(cs, FindConsumer(cs, Selection.LibraryDirectory).value);
    var own := Only(os, Selection.LibraryDirectory);
    assert n in own && c in own;
    var i :| 0 <= i < |own| && own[i] == n;
    var j :| 0 <= j < |own| && own[j] == c;
    assert n.mod in Modules(os);
  }

  lemma {:induction false} LibraryInRelease(cs: seq<Consumer>) returns (o: Obligation)
    requires Bound(cs)
    ensures o in ReleaseObligations(cs) && o.mod == Selection.LibraryDirectory && o.mode == "normal"
  {
    hide ProperPhases, ConsumerObligations;
    if cs == [] {
      o := LibraryObligations()[0];
    } else {
      o := LibraryInRelease(cs[..|cs| - 1]);
    }
  }

  lemma {:induction false} ConsumerInRelease(cs: seq<Consumer>, c: Consumer) returns (o: Obligation)
    requires Bound(cs) && c in cs
    ensures o in ReleaseObligations(cs) && o.mod == c.directory && o.mode == "candidate"
  {
    hide ProperPhases, ConsumerObligations;
    var last := cs[|cs| - 1];
    assert ProperPhases(last);
    if last == c {
      RecordFacts(c);
      ConsumerDistinct(c);
      o := ConsumerObligations(c)[0];
    } else {
      assert c in cs[..|cs| - 1];
      o := ConsumerInRelease(cs[..|cs| - 1], c);
    }
  }
}
