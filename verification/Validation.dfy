/** Validating one planned module (`validate`): its targets are run, and each of its obligations is
    reported with the evidence `reconcile` asks for. */
module Validation {
  import opened Common
  import opened Sorting
  import opened Paths
  import PythonRepr
  import Selection
  import opened Registration
  import opened Planner
  import opened PlanProperties
  import opened Reconciliation
  import opened CandidateProtocol

  // ---- checkouts ---------------------------------------------------------------------------------------

  predicate AllNames(parts: seq<string>) { forall i :: 0 <= i < |parts| ==> PartName(parts[i]) }

  predicate ProperCheckout(checkout: PosixPath) { checkout.absolute && AllNames(checkout.parts) }

  /** The module's directory in the checkout. */
  function RootOf(checkout: PosixPath, m: string): PosixPath {
    if Absolute(m) then Parse(m) else checkout.(parts := checkout.parts + Parts(m))
  }

  function LibraryOf(checkout: PosixPath): PosixPath { checkout.(parts := checkout.parts + ["libs", "servicekit"]) }

  lemma {:induction false} PartsAreNames(s: string)
    ensures AllNames(Parts(s))
  {
    hide First, PartName, Names;
    if s != "" {
      var n := First(s);
      NameIsPart(s);
      if n < |s| { PartsAreNames(s[n + 1..]); }
    }
  }

  lemma NameIsPart(s: string)
    ensures AllNames(Names(s[..First(s)]))
  {
    hide First;
    Selection.FirstSlash(s);
  }

  lemma ParseText(p: PosixPath)
    requires p.absolute && AllNames(p.parts)
    ensures Parse(Text(p)) == p
  {
    var s := Join(p.parts);
    PartsOfJoin(p.parts);
    assert ("/" + s)[1..] == s && ("/" + s)[..0] == "";
    assert Parts("/" + s) == Parts(s);
  }

  // ---- what a plan rests on ----------------------------------------------------------------------------

  predicate Candidates(os: seq<Obligation>) { exists i :: 0 <= i < |os| && os[i].mode == "candidate" }

  /** The plan's identities are those of the commit that is checked out: extraction is a function of
      the commit. */
  ghost predicate Grounded(p: Plan, sources: string -> Inputs) {
    && Distinct(Keys(p.obligations))
    && p.inputs.Keys == Modules(p.obligations)
    && (forall m :: m in p.inputs ==> p.inputs[m] == sources(m))
    && (forall m :: sources(m).manifest != "" && sources(m).locks != "")
    && (Candidates(p.obligations) ==> p.candidateManifest == Some(sources(Selection.LibraryDirectory).manifest))
  }

  lemma {:induction false} TheObligation(os: seq<Obligation>, o: Obligation)
    requires Distinct(Keys(os)) && o in os
    ensures FirstWith(os, KeyOf(o)) == Some(o)
  {
    var f := FirstWith(os, KeyOf(o));
    assert KeyOf(o) in Wanted(os);
    var i :| 0 <= i < |os| && os[i] == o;
    assert Keys(os)[i] == KeyOf(o);
    var j :| 0 <= j < |os| && os[j] == f.value;
    assert Keys(os)[j] == KeyOf(o);
  }

  // ---- reports -----------------------------------------------------------------------------------------

  function NormalReport(o: Obligation, p: Plan, s: Inputs, graph: seq<GraphRecord>): Report {
    Report(o.mod, o.phase, o.mode, o.target, p.base, p.head, "passed", s.manifest, s.locks, graph, "", "", "", "")
  }

  function CandidateReport(o: Obligation, p: Plan, r: Receipt): Report {
    Report(o.mod, o.phase, o.mode, o.target, p.base, p.head, "passed", r.manifest, r.locks, r.graph,
           r.candidateSha, r.alternateLocks, r.candidateManifest, r.candidateDirectory)
  }

  lemma NormalFits(o: Obligation, p: Plan, sources: string -> Inputs, graph: seq<GraphRecord>)
    requires Grounded(p, sources) && o in p.obligations && o.mode != "candidate"
    requires graph != [] && NoReplacement(graph)
    ensures Fits(NormalReport(o, p, sources(o.mod), graph), p)
  {
    hide MatchesCandidate, NoReplacement, FirstWith, Candidates;
    TheObligation(p.obligations, o);
    assert o.mod in Modules(p.obligations);
  }

  /** A receipt of a context for the planned commit carries everything the report needs. */
  ghost predicate ReceiptOf(r: Receipt, p: Plan, m: string, checkout: PosixPath, sources: string -> Inputs) {
    var root := RootOf(checkout, m);
    && r.locks == sources(m).locks && r.manifest == sources(m).manifest && r.alternateLocks != ""
    && r.candidateSha == p.head && r.candidateManifest == sources(Selection.LibraryDirectory).manifest
    && r.candidateDirectory == Text(LibraryOf(checkout))
    && SelectionVerified(r.graph, LibraryOf(checkout), Under(root, "candidate.mod")) && FaithfulMain(r.graph, root)
  }

  lemma ReceiptMatches(r: Report, p: Plan, checkout: PosixPath, m: string)
    requires ProperCheckout(checkout) && r.candidateSha == p.head && r.alternateLocks != ""
    requires r.candidateManifest != "" && p.candidateManifest == Some(r.candidateManifest)
    requires r.candidateDirectory == Text(LibraryOf(checkout))
    requires SelectionVerified(r.graph, LibraryOf(checkout), Under(RootOf(checkout, m), "candidate.mod"))
    requires FaithfulMain(r.graph, RootOf(checkout, m))
    ensures MatchesCandidate(r, p)
  {
    hide Parse, Text, FirstMain, FirstNamed;
    var library, root := LibraryOf(checkout), RootOf(checkout, m);
    ParseText(library) by { assert PartName("libs") && PartName("servicekit"); }
    RootIsNames(checkout, m);
    ParseText(root);
    assert library.parts[|library.parts| - 2..] == ["libs", "servicekit"];
  }

  lemma RootIsNames(checkout: PosixPath, m: string)
    requires ProperCheckout(checkout)
    ensures RootOf(checkout, m).absolute && AllNames(RootOf(checkout, m).parts)
  {
    hide Parts, PartName;
    PartsAreNames(m);
  }

  lemma CandidateFits(o: Obligation, p: Plan, sources: string -> Inputs, r: Receipt, checkout: PosixPath)
    requires Grounded(p, sources) && o in p.obligations && o.mode == "candidate" && ProperCheckout(checkout)
    requires ReceiptOf(r, p, o.mod, checkout, sources)
    ensures Fits(CandidateReport(o, p, r), p)
  {
    hide MatchesCandidate, FirstWith, ProperCheckout, RootOf, LibraryOf, FirstNamed, FirstMain, Text;
    TheObligation(p.obligations, o);
    assert o.mod in Modules(p.obligations);
    assert Candidates(p.obligations);
    ReceiptMatches(CandidateReport(o, p, r), p, checkout, o.mod);
    assert r.graph != [];
  }

  // ---- parts of a plan ---------------------------------------------------------------------------------

  function Part(os: seq<Obligation>, f: Obligation -> bool): (r: seq<Obligation>)
    ensures forall o :: o in r <==> o in os && f(o)
  {
    if os == [] then []
    else
      assert os == [os[0]] + os[1..];
      (if f(os[0]) then [os[0]] else []) + Part(os[1..], f)
  }

  lemma KeysCons(o: Obligation, os: seq<Obligation>)
    ensures Keys([o] + os) == [KeyOf(o)] + Keys(os)
  {
  }

  /** Disjoint parts count separately. */
  lemma {:induction false} PartsAdd(os: seq<Obligation>, f: Obligation -> bool, g: Obligation -> bool,
                                    h: Obligation -> bool, k: Key)
    requires forall o :: h(o) <==> f(o) || g(o)
    requires forall o :: !(f(o) && g(o))
    ensures multiset(Keys(Part(os, h)))[k] == multiset(Keys(Part(os, f)))[k] + multiset(Keys(Part(os, g)))[k]
  {
    hide Keys;
    if os == [] {
      assert Keys([]) == [];
    } else {
      var rest := os[1..];
      PartsAdd(rest, f, g, h, k);
      PartCons(os, f, k);
      PartCons(os, g, k);
      PartCons(os, h, k);
    }
  }

  lemma PartCons(os: seq<Obligation>, f: Obligation -> bool, k: Key)
    requires os != []
    ensures multiset(Keys(Part(os, f)))[k] ==
              multiset(Keys(Part(os[1..], f)))[k] + if f(os[0]) && KeyOf(os[0]) == k then 1 else 0
  {
    hide Keys;
    var rest := Part(os[1..], f);
    assert Part(os, f) == (if f(os[0]) then [os[0]] else []) + rest;
    if f(os[0]) {
      KeysCons(os[0], rest);
      CountCons(KeyOf(os[0]), Keys(rest), k);
    } else {
      assert [] + rest == rest;
    }
  }

  lemma {:induction false} PartAll(os: seq<Obligation>, f: Obligation -> bool)
    requires forall o :: o in os ==> f(o)
    ensures Part(os, f) == os
  {
    if os != [] {
      assert os == [os[0]] + os[1..];
      PartAll(os[1..], f);
    }
  }

  lemma {:induction false} PartNone(os: seq<Obligation>, f: Obligation -> bool)
    requires forall o :: o in os ==> !f(o)
    ensures Part(os, f) == []
  {
    if os != [] {
      assert os == [os[0]] + os[1..];
      PartNone(os[1..], f);
    }
  }

  lemma {:induction false} OnlyIsPart(os: seq<Obligation>, m: string)
    ensures Only(os, m) == Part(os, (o: Obligation) => o.mod == m)
  {
    if os != [] { OnlyIsPart(os[1..], m); }
  }

  function TargetsOf(os: seq<Obligation>): set<string> { set o | o in os :: o.target }

  function PhasesOf(os: seq<Obligation>): set<string> { set o | o in os :: o.phase }

  function ForTargets(done: set<string>): Obligation -> bool { (o: Obligation) => o.target in done }

  /** The least of some texts: the next of their sorted sequence. */
  lemma Least(s: set<string>) returns (x: string)
    requires s != {}
    ensures x in s && forall y :: y in s ==> PythonRepr.Le(x, y)
  {
    var first :| first in s;
    var rest := s - {first};
    assert s == rest + {first};
    PythonRepr.LeTotal(first, first);
    if rest == {} { return first; }
    var y := Least(rest);
    PythonRepr.LeTotal(first, y);
    if !PythonRepr.Le(first, y) { return y; }
    x := first;
    forall z | z in rest ensures PythonRepr.Le(x, z) { PythonRepr.LeTransitive(x, y, z); }
  }

  method NextOf(s: set<string>) returns (x: string)
    requires s != {}
    ensures x in s && forall y :: y in s ==> PythonRepr.Le(x, y)
  {
    ghost var least := Least(s);
    x :| x in s && forall y :: y in s ==> PythonRepr.Le(x, y);
  }

  // ---- running targets ---------------------------------------------------------------------------------

  /** Texts in strictly ascending order. */
  ghost predicate Ascending(order: seq<string>) {
    forall i, j :: 0 <= i < j < |order| ==> order[i] != order[j] && PythonRepr.Le(order[i], order[j])
  }

  /** `done` in ascending order, all before what remains. */
  ghost predicate InOrder(order: seq<string>, done: set<string>, remaining: set<string>) {
    && Ascending(order) && Elements(order) == done && done !! remaining
    && forall i, y :: 0 <= i < |order| && y in remaining ==> PythonRepr.Le(order[i], y)
  }

  lemma NextInOrder(order: seq<string>, done: set<string>, remaining: set<string>, x: string)
    requires InOrder(order, done, remaining) && x in remaining && forall y :: y in remaining ==> PythonRepr.Le(x, y)
    ensures InOrder(order + [x], done + {x}, remaining - {x})
  {
    var more := order + [x];
    forall i | 0 <= i < |order| ensures order[i] != x { assert order[i] in Elements(order); }
    assert Elements(more) == done + {x} by {
      assert forall y :: y in more <==> y in order || y == x;
    }
  }

  /** The machine that runs the commands: which of its steps pass, and the targets it was asked to
      run. */
  class Host {
    const passes: nat -> bool
    var step: nat
    var ran: seq<string>

    constructor (passes: nat -> bool)
      ensures this.passes == passes && step == 0 && ran == []
    {
      this.passes, step, ran := passes, 0, [];
    }

    /** A step since `from` failed. */
    ghost predicate Failed(from: nat) reads this`step { FailedIn(from, step) }

    ghost predicate FailedIn(from: nat, to: nat) { exists k :: from <= k < to && !passes(k) }

    method Do() returns (ok: bool)
      modifies this`step
      ensures step == old(step) + 1 && ok == passes(old(step))
    {
      ok := passes(step);
      step := step + 1;
    }

    method Make(target: string) returns (ok: bool)
      modifies this`step, this`ran
      ensures step == old(step) + 1 && ok == passes(old(step)) && ran == old(ran) + [target]
    {
      ok := MakeAll([target]);
    }

    /** One command for several targets. */
    method MakeAll(targets: seq<string>) returns (ok: bool)
      modifies this`step, this`ran
      ensures step == old(step) + 1 && ok == passes(old(step)) && ran == old(ran) + targets
    {
      ran := ran + targets;
      ok := Do();
    }
  }

  // ---- validation --------------------------------------------------------------------------------------

  predicate OneModeIn(os: seq<Obligation>) { forall i :: 0 <= i < |os| ==> os[i].mode == os[0].mode }

  /** What `validate` returns for a module: a fitting report for each of its obligations. */
  ghost predicate Answers(reports: seq<Report>, os: seq<Obligation>, p: Plan) {
    && (forall i :: 0 <= i < |reports| ==> Fits(reports[i], p))
    && multiset(ReportKeys(reports)) == multiset(Keys(os))
  }

  /** The report carries the receipt's evidence. */
  predicate Rests(r: Report, receipt: Receipt) {
    Receipt(r.graph, r.locks, r.alternateLocks, r.candidateSha, r.candidateManifest, r.candidateDirectory,
            r.manifest) == receipt
  }

  /** Every report rests on the receipt for its phase. */
  ghost predicate Receipted(reports: seq<Report>, receipts: map<string, Receipt>) {
    forall i :: 0 <= i < |reports| ==> reports[i].phase in receipts && Rests(reports[i], receipts[reports[i].phase])
  }

  // ---- what the outside does -----------------------------------------------------------------------------

  /** What a candidate validation meets: the token and the alternate locks of its context, what its
      first and last verification find, and what is asked of it while each target runs. */
  datatype Environment = Environment(
    token: string, alternateLocks: string, first: Observed, last: Observed, serve: string -> seq<Exchange>)

  ghost predicate Faithful(env: Environment, root: PosixPath) {
    && FaithfulMain(env.first.graph, root) && FaithfulMain(env.last.graph, root)
    && forall t, i :: 0 <= i < |env.serve(t)| ==> FaithfulMain(env.serve(t)[i].found.graph, root)
  }

  /** The identities that the context fixes at its construction. */
  function IdentityOf(env: Environment, m: string, sources: string -> Inputs): Observed {
    Observed(sources(m).locks, sources(Selection.LibraryDirectory).manifest, sources(m).manifest, env.alternateLocks,
             [])
  }

  predicate AgreesFor(env: Environment, m: string, checkout: PosixPath, sources: string -> Inputs, found: Observed) {
    Agrees(IdentityOf(env, m, sources), LibraryOf(checkout), Under(RootOf(checkout, m), "candidate.mod"), found)
  }

  /** The exchange asks properly for the operation on the phase, and what it finds agrees. */
  predicate Asks(e: Exchange, env: Environment, m: string, checkout: PosixPath, sources: string -> Inputs,
                 operation: string, phase: string)
  {
    e.value == Request(env.token, phase, Text(RootOf(checkout, m)), operation)
    && AgreesFor(env, m, checkout, sources, e.found)
  }

  /** While its target runs, the obligation's phase is begun and later ended. */
  ghost predicate Fulfilled(o: Obligation, env: Environment, m: string, checkout: PosixPath, sources: string -> Inputs)
  {
    exists i, j :: 0 <= i < j < |env.serve(o.target)|
      && Asks(env.serve(o.target)[i], env, m, checkout, sources, "begin", o.phase)
      && Asks(env.serve(o.target)[j], env, m, checkout, sources, "end", o.phase)
  }

  /** Every phase is begun and ended while its target runs, and all verifications agree. */
  ghost predicate Cooperative(env: Environment, os: seq<Obligation>, m: string, checkout: PosixPath,
                              sources: string -> Inputs)
  {
    && env.alternateLocks != ""
    && AgreesFor(env, m, checkout, sources, env.first) && AgreesFor(env, m, checkout, sources, env.last)
    && AllFulfilled(os, env, m, checkout, sources)
  }

  ghost predicate AllFulfilled(os: seq<Obligation>, env: Environment, m: string, checkout: PosixPath,
                               sources: string -> Inputs)
  {
    forall o :: o in os ==> Fulfilled(o, env, m, checkout, sources)
  }

  /** The groups a context has been through when these targets have been run. */
  ghost function GroupsOf(os: seq<Obligation>, order: seq<string>): seq<set<string>> {
    if order == [] then [{}]
    else GroupsOf(os, order[..|order| - 1]) + [PhasesOf(Part(os, ForTargets({order[|order| - 1]})))]
  }

  lemma GroupsStep(os: seq<Obligation>, order: seq<string>, target: string)
    ensures GroupsOf(os, order + [target]) == GroupsOf(os, order) + [PhasesOf(Part(os, ForTargets({target})))]
  {
    assert (order + [target])[..|order|] == order;
  }

  /** The context of a finished validation: a lawful trace through the groups of the targets that
      were run, no phase in two of them, and every report resting on one of its receipts. */
  ghost predicate Traced(candidate: Candidate, reports: seq<Report>, os: seq<Obligation>, order: seq<string>)
    reads candidate
  {
    && candidate.Valid() && Disjoint(candidate.groups) && candidate.groups == GroupsOf(os, order)
    && Receipted(reports, candidate.receipts)
  }

  lemma AnswerAppended(reports: seq<Report>, os: seq<Obligation>, p: Plan, r: Report, o: Obligation)
    requires Answers(reports, os, p) && Fits(r, p) && ReportKey(r) == KeyOf(o)
    ensures Answers(reports + [r], os + [o], p)
  {
    hide Fits;
    assert ReportKeys(reports + [r]) == ReportKeys(reports) + [ReportKey(r)];
    assert Keys(os + [o]) == Keys(os) + [KeyOf(o)];
  }

  /** `validate`; without a value it raises.  In candidate mode it also gives the context, whose trace
      shows that every report rests on a receipt for a phase that was begun and ended while its own
      target was being run. */
  method Validate(p: Plan, m: string, checkout: PosixPath, sources: string -> Inputs, host: Host, env: Environment)
    returns (reports: Option<seq<Report>>, candidate: Candidate?, ghost order: seq<string>)
    requires Grounded(p, sources) && ProperCheckout(checkout) && Faithful(env, RootOf(checkout, m))
    modifies host
    ensures host.step >= old(host.step)
    // it returns exactly when the module is planned in one mode, every step passes and, in candidate
    // mode, every phase is begun and ended in its group and every verification agrees
    ensures reports.Some? <==>
              && Only(p.obligations, m) != [] && OneModeIn(Only(p.obligations, m)) && !host.Failed(old(host.step))
              && (Only(p.obligations, m)[0].mode == "candidate" ==>
                    Cooperative(env, Only(p.obligations, m), m, checkout, sources))
    ensures reports.Some? ==> Answers(reports.value, Only(p.obligations, m), p)
    // each owning target was run once, in ascending order
    ensures reports.Some? ==>
              host.ran == old(host.ran) + order && Ascending(order)
              && Elements(order) == TargetsOf(Only(p.obligations, m))
    // in candidate mode every report rests on a receipt of the context
    ensures reports.Some? && Only(p.obligations, m)[0].mode == "candidate" ==>
              candidate != null && fresh(candidate) && ContextFor(candidate, p, m, checkout, sources)
              && Traced(candidate, reports.value, Only(p.obligations, m), order)
  {
    hide *;
    candidate := null;
    order := [];
    var os := Only(p.obligations, m);
    if os == [] { return None, null, order; }
    if !OneModeIn(os) { return None, null, order; }
    if os[0].mode == "candidate" {
      ModuleShare(p, m, sources);
      reports, candidate, order := ValidateCandidate(p, m, os, checkout, sources, host, env);
    } else {
      reports, order := ValidateNormal(p, os, m, sources, host);
    }
  }

  /** Distinct keys of one module in one mode have distinct phases. */
  lemma ModuleShare(p: Plan, m: string, sources: string -> Inputs)
    requires Grounded(p, sources) && OneModeIn(Only(p.obligations, m))
    ensures DistinctPhases(Only(p.obligations, m))
  {
    hide Grounded, Keys;
    var os := Only(p.obligations, m);
    assert Distinct(Keys(os)) by { GroundedKeys(p, sources); OnlyDistinct(p.obligations, m); }
    forall i, j | 0 <= i < j < |os| ensures os[i].mod != os[j].mod || os[i].phase != os[j].phase {
      assert os[i].mode == os[j].mode;
      assert Keys(os)[i] != Keys(os)[j];
    }
  }

  lemma GroundedKeys(p: Plan, sources: string -> Inputs)
    requires Grounded(p, sources)
    ensures Distinct(Keys(p.obligations))
  {
  }

  lemma {:induction false} OnlyDistinct(os: seq<Obligation>, m: string)
    requires Distinct(Keys(os))
    ensures Distinct(Keys(Only(os, m)))
  {
    if os != [] {
      var rest := Only(os[1..], m);
      assert Keys(os[1..]) == Keys(os)[1..];
      OnlyDistinct(os[1..], m);
      if os[0].mod == m {
        KeysCons(os[0], rest);
        assert Only(os, m) == [os[0]] + rest;
        forall j | 0 <= j < |rest| ensures KeyOf(rest[j]) != KeyOf(os[0]) {
          assert rest[j] in rest;
          var i :| 0 <= i < |os| - 1 && os[1..][i] == rest[j];
          assert Keys(os)[i + 1] != Keys(os)[0];
        }
      } else {
        assert Only(os, m) == rest;
      }
    }
  }

  /** The normal mode: the gates run, and the module's graph has no replacement of the library. One
      step stands for the checks around the gates (guard, unchanged source, budget). */
  method ValidateNormal(p: Plan, os: seq<Obligation>, ghost m: string, sources: string -> Inputs, host: Host)
    returns (reports: Option<seq<Report>>, ghost order: seq<string>)
    requires Grounded(p, sources) && os == Only(p.obligations, m) && os != [] && OneModeIn(os)
    requires os[0].mode != "candidate"
    modifies host
    ensures host.step >= old(host.step)
    ensures reports.Some? ==> Answers(reports.value, os, p)
    ensures reports.Some? ==> host.ran == old(host.ran) + order && Ascending(order) && Elements(order) == TargetsOf(os)
    ensures reports.Some? <==> !host.Failed(old(host.step))
  {
    hide *;
    reports := None;
    var ok;
    ok, order := RunGates(TargetsOf(os), host);
    if !ok { return; }
    ghost var from := host.step;
    var intact := host.Do();
    if !intact {
      FailedAt(host, from);
      return;
    }
    NoneFailed(host, old(host.step));
    var result := NormalReports(p, os, m, sources);
    reports := Some(result);
  }

  /** The loop over the targets in the normal mode. */
  method RunGates(targets: set<string>, host: Host) returns (ok: bool, ghost order: seq<string>)
    modifies host
    ensures host.step >= old(host.step)
    ensures ok ==> host.ran == old(host.ran) + order && Ascending(order) && Elements(order) == targets
    ensures ok ==> forall k :: old(host.step) <= k < host.step ==> host.passes(k)
    ensures !ok ==> host.Failed(old(host.step))
  {
    hide Ascending, InOrder, Elements;
    order := [];
    var remaining := targets;
    ghost var done: set<string> := {};
    NothingRun(remaining);
    while remaining != {}
      invariant host.step >= old(host.step) && forall k :: old(host.step) <= k < host.step ==> host.passes(k)
      invariant host.ran == old(host.ran) + order && InOrder(order, done, remaining) && done + remaining == targets
      decreases |remaining|
    {
      var target := NextOf(remaining);
      ok := host.Make(target);
      if !ok { return; }
      NextInOrder(order, done, remaining, target);
      order := order + [target];
      remaining, done := remaining - {target}, done + {target};
    }
    AllRun(order, done);
    ok := true;
  }

  lemma NoneFailed(host: Host, from: nat)
    ensures host.Failed(from) <==> !forall k :: from <= k < host.step ==> host.passes(k)
  {
  }

  lemma FailedAt(host: Host, k: nat)
    requires k < host.step && !host.passes(k)
    ensures forall from: nat :: from <= k ==> host.Failed(from)
  {
  }

  lemma NothingRun(remaining: set<string>)
    ensures InOrder([], {}, remaining)
  {
  }

  lemma AllRun(order: seq<string>, done: set<string>)
    requires InOrder(order, done, {})
    ensures Ascending(order) && Elements(order) == done
  {
  }

  /** The comprehension over the obligations. */
  method NormalReports(p: Plan, os: seq<Obligation>, ghost m: string, sources: string -> Inputs)
    returns (result: seq<Report>)
    requires Grounded(p, sources) && os == Only(p.obligations, m) && os != [] && OneModeIn(os)
    requires os[0].mode != "candidate"
    ensures Answers(result, os, p)
  {
    hide Grounded, Fits, Answers, NoReplacement, Only, NormalReport;
    var graph := NormalGraph();
    result := [];
    NothingAnswered(os, p);
    assert os[..0] == [];
    for i := 0 to |os|
      invariant Answers(result, os[..i], p)
    {
      var o := os[i];
      var report := NormalReport(o, p, sources(o.mod), graph);
      assert o in os && o.mode == os[0].mode;
      NormalFits(o, p, sources, graph);
      NormalKey(o, p, sources(o.mod), graph);
      AnswerAppended(result, os[..i], p, report, o);
      result := result + [report];
      assert os[..i + 1] == os[..i] + [o];
    }
    assert os[..|os|] == os;
  }

  lemma NormalKey(o: Obligation, p: Plan, s: Inputs, graph: seq<GraphRecord>)
    ensures ReportKey(NormalReport(o, p, s, graph)) == KeyOf(o)
  {
  }

  /** The selected graph under the guarded environment: it is not empty, and the Go tool replaces
      nothing that the manifest does not. */
  method NormalGraph() returns (graph: seq<GraphRecord>)
    ensures graph != [] && NoReplacement(graph)
  {
    graph := *;
    if graph == [] || !NoReplacement(graph) { graph := [GraphRecord("main", true, "", "", None)]; }
  }

  /** The candidate mode: each target runs with its own phases active, and each of its obligations
      needs a receipt. */
  method ValidateCandidate(p: Plan, m: string, os: seq<Obligation>, checkout: PosixPath, sources: string -> Inputs,
                           host: Host, env: Environment)
    returns (reports: Option<seq<Report>>, candidate: Candidate?, ghost order: seq<string>)
    requires Grounded(p, sources) && ProperCheckout(checkout) && DistinctPhases(os)
    requires Faithful(env, RootOf(checkout, m))
    requires os == Only(p.obligations, m) && os != [] && OneModeIn(os) && os[0].mode == "candidate"
    modifies host
    ensures host.step >= old(host.step)
    ensures reports.Some? ==> Answers(reports.value, os, p)
    ensures reports.Some? ==> host.ran == old(host.ran) + order && Ascending(order) && Elements(order) == TargetsOf(os)
    ensures reports.Some? ==>
              candidate != null && fresh(candidate) && ContextFor(candidate, p, m, checkout, sources)
              && Traced(candidate, reports.value, os, order)
    ensures reports.Some? <==> Cooperative(env, os, m, checkout, sources) && !host.Failed(old(host.step))
  {
    hide Grounded, Protocol, ProperCheckout, DistinctPhases, Disjoint, Answers, Candidate.Genuine, Only, OneModeIn,
         Receipted, Agrees, RootOf, LibraryOf, Ascending, Fulfilled, FaithfulMain, GroupsOf, Elements;
    order := [];
    reports := None;
    candidate := null;
    if env.alternateLocks == "" { return; }
    var context := new Candidate(RootOf(checkout, m), LibraryOf(checkout), p.head, env.token,
                                 IdentityOf(env, m, sources));
    if !context.Verified(env.first) { return; }
    NoTargets(os);
    var result;
    result, order := RunTargets(context, p, m, os, checkout, sources, host, env);
    if !context.Verified(env.last) { return; }
    reports, candidate := result, context;
  }

  lemma NoTargets(os: seq<Obligation>)
    ensures GroupsOf(os, []) == [{}]
  {
  }

  /** The loop over the targets, in their sorted order. */
  method RunTargets(candidate: Candidate, p: Plan, ghost m: string, os: seq<Obligation>,
                    ghost checkout: PosixPath, ghost sources: string -> Inputs, host: Host, env: Environment)
    returns (reports: Option<seq<Report>>, ghost order: seq<string>)
    requires candidate.Valid() && Disjoint(candidate.groups) && candidate.Used() == {}
    requires candidate.groups == GroupsOf(os, [])
    requires Grounded(p, sources) && ProperCheckout(checkout) && ContextFor(candidate, p, m, checkout, sources)
    requires os == Only(p.obligations, m) && os != [] && OneModeIn(os) && os[0].mode == "candidate"
    requires DistinctPhases(os)
    requires Faithful(env, candidate.root) && candidate.Identity() == IdentityOf(env, m, sources)
    requires candidate.token == env.token
    modifies candidate, host
    ensures host.step >= old(host.step)
    ensures reports.Some? ==> Answers(reports.value, os, p) && Traced(candidate, reports.value, os, order)
    ensures reports.Some? ==> host.ran == old(host.ran) + order && Ascending(order) && Elements(order) == TargetsOf(os)
    ensures reports.Some? <==> AllFulfilled(os, env, m, checkout, sources) && !host.Failed(old(host.step))
  {
    hide *;
    order := [];
    var remaining := TargetsOf(os);
    var result: seq<Report> := [];
    ghost var done: set<string> := {};
    NothingAnswered(os, p);
    NothingReceipted(candidate.receipts);
    NothingRun(remaining);
    FailedAtStep(host, old(host.step), old(host.step));
    NothingToFulfil(os, env, m, checkout, sources);
    while remaining != {}
      invariant host.step >= old(host.step) && host.ran == old(host.ran) + order && InOrder(order, done, remaining)
      invariant candidate.Valid() && Disjoint(candidate.groups) && candidate.groups == GroupsOf(os, order)
      invariant candidate.Used() == PhasesOf(Part(os, ForTargets(done)))
      invariant remaining !! done && remaining + done == TargetsOf(os)
      invariant Answers(result, Part(os, ForTargets(done)), p)
      invariant Receipted(result, candidate.receipts)
      invariant AllFulfilled(Part(os, ForTargets(done)), env, m, checkout, sources)
      invariant !host.FailedIn(old(host.step), host.step)
      decreases |remaining|
    {
      var target := NextOf(remaining);
      ghost var before, from := candidate.receipts, host.step;
      var own := RunTarget(candidate, p, m, os, target, done, checkout, sources, host, env);
      FailedAtStep(host, old(host.step), from);
      FulfilledStep(os, done, target, env, m, checkout, sources);
      if own.None? { return None, order; }
      NextInOrder(order, done, remaining, target);
      GroupsStep(os, order, target);
      order := order + [target];
      AnswersTogether(result, own.value, os, done, target, p);
      ReceiptedTogether(result, own.value, before, candidate.receipts);
      result := result + own.value;
      remaining, done := remaining - {target}, done + {target};
    }
    FailedAtStep(host, old(host.step), host.step);
    AllAnswered(os, done);
    AllRun(order, done);
    IsTraced(candidate, result, os, order);
    return Some(result), order;
  }

  /** One more step. */
  lemma FailedAtStep(host: Host, from: nat, k: nat)
    requires from <= k
    ensures host.FailedIn(from, k + 1) <==> host.FailedIn(from, k) || !host.passes(k)
    ensures host.Failed(from) <==> host.FailedIn(from, host.step)
    ensures !host.FailedIn(from, from)
  {
  }

  lemma NothingToFulfil(os: seq<Obligation>, env: Environment, m: string, checkout: PosixPath,
                        sources: string -> Inputs)
    ensures AllFulfilled(Part(os, ForTargets({})), env, m, checkout, sources)
  {
    hide Fulfilled;
  }

  lemma FulfilledStep(os: seq<Obligation>, done: set<string>, target: string, env: Environment, m: string,
                      checkout: PosixPath, sources: string -> Inputs)
    ensures AllFulfilled(Part(os, ForTargets(done + {target})), env, m, checkout, sources) <==>
              && AllFulfilled(Part(os, ForTargets(done)), env, m, checkout, sources)
              && AllFulfilled(Part(os, ForTargets({target})), env, m, checkout, sources)
    ensures AllFulfilled(os, env, m, checkout, sources) ==>
              AllFulfilled(Part(os, ForTargets({target})), env, m, checkout, sources)
  {
    hide Fulfilled;
  }

  lemma IsTraced(candidate: Candidate, reports: seq<Report>, os: seq<Obligation>, order: seq<string>)
    requires candidate.Valid() && Disjoint(candidate.groups) && candidate.groups == GroupsOf(os, order)
    requires Receipted(reports, candidate.receipts)
    ensures Traced(candidate, reports, os, order)
  {
  }

  lemma NothingReceipted(receipts: map<string, Receipt>)
    ensures Receipted([], receipts)
  {
  }

  predicate ContextFor(candidate: Candidate, p: Plan, m: string, checkout: PosixPath, sources: string -> Inputs) {
    && candidate.root == RootOf(checkout, m) && candidate.library == LibraryOf(checkout) && candidate.head == p.head
    && candidate.alternate == Under(candidate.root, "candidate.mod") && candidate.alternateLocks != ""
    && candidate.original == sources(m).locks && candidate.source == sources(m).manifest
    && candidate.libraryManifest == sources(Selection.LibraryDirectory).manifest
  }

  /** One target: its phases become the active ones, it runs, and its obligations are collected. */
  method RunTarget(candidate: Candidate, p: Plan, ghost m: string, os: seq<Obligation>, target: string,
                   ghost done: set<string>, ghost checkout: PosixPath, ghost sources: string -> Inputs, host: Host,
                   env: Environment)
    returns (own: Option<seq<Report>>)
    requires candidate.Valid() && Disjoint(candidate.groups) && Grounded(p, sources) && ProperCheckout(checkout)
    requires os == Only(p.obligations, m) && os != [] && OneModeIn(os) && os[0].mode == "candidate"
    requires DistinctPhases(os)
    requires ContextFor(candidate, p, m, checkout, sources) && target !in done
    requires candidate.Used() == PhasesOf(Part(os, ForTargets(done)))
    requires Faithful(env, candidate.root) && candidate.Identity() == IdentityOf(env, m, sources)
    requires candidate.token == env.token
    modifies candidate, host
    ensures host.step == old(host.step) + 1 && host.ran == old(host.ran) + [target]
    ensures candidate.Valid() && Disjoint(candidate.groups)
    ensures candidate.groups == old(candidate.groups) + [PhasesOf(Part(os, ForTargets({target})))]
    ensures candidate.Used() == PhasesOf(Part(os, ForTargets(done + {target})))
    ensures Extends(old(candidate.receipts), candidate.receipts)
    ensures own.Some? ==>
              Answers(own.value, Part(os, ForTargets({target})), p) && Receipted(own.value, candidate.receipts)
    ensures own.Some? <==>
              host.passes(old(host.step)) && AllFulfilled(Part(os, ForTargets({target})), env, m, checkout, sources)
  {
    hide Grounded, Fits, Protocol, ProperCheckout, DistinctPhases, Candidate.Used, Disjoint, Answers, ReceiptOf,
         Candidate.Genuine, OneModeIn, ContextFor, Receipted, ForTargets, AllFulfilled, FaithfulMain,
         Candidate.Completed,
         Candidate.Begun, Candidate.Ended, Candidate.WrittenBy, Candidate.Requested;
    StartedIsUsed(candidate);
    var group := Part(os, ForTargets({target}));
    GroupApart(os, done, target);
    candidate.Activate(PhasesOf(group));
    candidate.Serve(env.serve(target));
    var ok := host.Make(target);
    if !ok { return None; }
    ReceiptsFulfil(candidate, p, m, os, group, target, checkout, sources, env);
    own := CollectGroup(candidate, p, m, os, group, checkout, sources);
  }

  ghost predicate Extends(before: map<string, Receipt>, after: map<string, Receipt>) {
    forall p :: p in before ==> p in after && after[p] == before[p]
  }

  /** A phase of the group has a receipt exactly when it was properly begun and ended. */
  lemma ReceiptsFulfil(candidate: Candidate, p: Plan, m: string, os: seq<Obligation>, group: seq<Obligation>,
                       target: string,
                       checkout: PosixPath, sources: string -> Inputs, env: Environment)
    requires group == Part(os, ForTargets({target})) && ContextFor(candidate, p, m, checkout, sources)
    requires candidate.Identity() == IdentityOf(env, m, sources) && candidate.token == env.token
    requires candidate.active == PhasesOf(group)
    requires var script := env.serve(target);
             forall x :: x in candidate.active ==>
               (x in candidate.receipts <==> candidate.Completed(script, |script|, x))
    ensures AllFulfilled(group, env, m, checkout, sources) <==> forall o :: o in group ==> o.phase in candidate.receipts
  {
    hide Part, RootOf, LibraryOf, Text, Agrees, Fulfilled;
    forall o | o in group ensures o.phase in candidate.receipts <==> Fulfilled(o, env, m, checkout, sources) {
      assert o.target == target;
      FulfilledIsCompleted(candidate, p, m, o, checkout, sources, env);
    }
  }

  lemma FulfilledIsCompleted(candidate: Candidate, p: Plan, m: string, o: Obligation, checkout: PosixPath,
                             sources: string -> Inputs, env: Environment)
    requires ContextFor(candidate, p, m, checkout, sources)
    requires candidate.Identity() == IdentityOf(env, m, sources) && candidate.token == env.token
    ensures var script := env.serve(o.target);
            candidate.Completed(script, |script|, o.phase) <==> Fulfilled(o, env, m, checkout, sources)
  {
    hide RootOf, LibraryOf, Text, Agrees;
    var script := env.serve(o.target);
    forall e, operation
      ensures candidate.Proper(e, operation, o.phase) <==> Asks(e, env, m, checkout, sources, operation, o.phase)
    {
    }
    if Fulfilled(o, env, m, checkout, sources) {
      var i, j :| 0 <= i < j < |script| && Asks(script[i], env, m, checkout, sources, "begin", o.phase)
                  && Asks(script[j], env, m, checkout, sources, "end", o.phase);
      assert candidate.Proper(script[i], "begin", o.phase) && candidate.Begun(script, j, o.phase);
      assert candidate.Proper(script[j], "end", o.phase);
    }
    if candidate.Completed(script, |script|, o.phase) {
      var j :| 0 <= j < |script| && candidate.Proper(script[j], "end", o.phase) && candidate.Begun(script, j, o.phase);
      var i :| 0 <= i < j && candidate.Proper(script[i], "begin", o.phase);
      assert Asks(script[i], env, m, checkout, sources, "begin", o.phase);
      assert Asks(script[j], env, m, checkout, sources, "end", o.phase);
    }
  }

  lemma ReceiptedTogether(reports: seq<Report>, own: seq<Report>, before: map<string, Receipt>,
                          after: map<string, Receipt>)
    requires Receipted(reports, before) && Receipted(own, after) && Extends(before, after)
    ensures Receipted(reports + own, after)
  {
  }

  /** The loop over one group's obligations. */
  method CollectGroup(candidate: Candidate, p: Plan, ghost m: string, ghost os: seq<Obligation>, group: seq<Obligation>,
                      ghost checkout: PosixPath, ghost sources: string -> Inputs)
    returns (reports: Option<seq<Report>>)
    requires candidate.Valid() && Grounded(p, sources) && ProperCheckout(checkout)
    requires os == Only(p.obligations, m) && os != [] && OneModeIn(os) && os[0].mode == "candidate"
    requires forall o :: o in group ==> o in os
    requires ContextFor(candidate, p, m, checkout, sources)
    ensures reports.Some? ==> Answers(reports.value, group, p) && Receipted(reports.value, candidate.receipts)
    ensures reports.Some? <==> forall o :: o in group ==> o.phase in candidate.receipts
  {
    hide Grounded, Fits, Protocol, ProperCheckout, SelectionVerified, RootOf, LibraryOf, Text, FaithfulMain, Under;
    var result: seq<Report> := [];
    for i := 0 to |group|
      invariant Answers(result, group[..i], p)
      invariant Receipted(result, candidate.receipts)
      invariant forall k :: 0 <= k < i ==> group[k].phase in candidate.receipts
    {
      var o := group[i];
      if o.phase !in candidate.receipts { return None; }
      var r := candidate.receipts[o.phase];
      assert candidate.Genuine(r);
      assert ReceiptOf(r, p, m, checkout, sources);
      assert o in os && o.mod == m;
      CandidateModes(os, o);
      CandidateFits(o, p, sources, r, checkout);
      AnswerAppended(result, group[..i], p, CandidateReport(o, p, r), o);
      result := result + [CandidateReport(o, p, r)];
      assert group[..i + 1] == group[..i] + [o];
    }
    assert group[..|group|] == group;
    return Some(result);
  }

  lemma CandidateModes(os: seq<Obligation>, o: Obligation)
    requires o in os && OneModeIn(os) && os[0].mode == "candidate"
    ensures o.mode == "candidate"
  {
  }

  lemma NothingAnswered(os: seq<Obligation>, p: Plan)
    ensures Part(os, ForTargets({})) == [] && Answers([], [], p) && PhasesOf([]) == {}
  {
    PartNone(os, ForTargets({}));
    assert ReportKeys([]) == [] && Keys([]) == [];
  }

  /** A target's phases are not those of the targets before it. */
  lemma GroupApart(os: seq<Obligation>, done: set<string>, target: string)
    requires DistinctPhases(os) && target !in done
    requires forall o, o' :: o in os && o' in os ==> o.mod == o'.mod
    ensures PhasesOf(Part(os, ForTargets(done))) !! PhasesOf(Part(os, ForTargets({target})))
    ensures PhasesOf(Part(os, ForTargets(done + {target}))) ==
              PhasesOf(Part(os, ForTargets(done))) + PhasesOf(Part(os, ForTargets({target})))
  {
    forall o, o' | o in Part(os, ForTargets(done)) && o' in Part(os, ForTargets({target})) ensures o.phase != o'.phase {
      var i :| 0 <= i < |os| && os[i] == o;
      var j :| 0 <= j < |os| && os[j] == o';
      assert i != j;
    }
  }

  lemma AnswersTogether(result: seq<Report>, own: seq<Report>, os: seq<Obligation>, done: set<string>, target: string,
                        p: Plan)
    requires target !in done
    requires Answers(result, Part(os, ForTargets(done)), p) && Answers(own, Part(os, ForTargets({target})), p)
    ensures Answers(result + own, Part(os, ForTargets(done + {target})), p)
  {
    hide Fits, Part, Keys, ReportKeys, ForTargets;
    KeysJoin(result, own);
    forall k
      ensures multiset(Keys(Part(os, ForTargets(done + {target}))))[k] ==
                multiset(Keys(Part(os, ForTargets(done))))[k] + multiset(Keys(Part(os, ForTargets({target}))))[k]
    {
      TargetsAdd(os, done, target, k);
    }
  }

  lemma TargetsAdd(os: seq<Obligation>, done: set<string>, target: string, k: Key)
    requires target !in done
    ensures multiset(Keys(Part(os, ForTargets(done + {target}))))[k] ==
              multiset(Keys(Part(os, ForTargets(done))))[k] + multiset(Keys(Part(os, ForTargets({target}))))[k]
  {
    hide Part, Keys;
    PartsAdd(os, ForTargets(done), ForTargets({target}), ForTargets(done + {target}), k);
  }

  lemma KeysJoin(rs: seq<Report>, ts: seq<Report>)
    ensures ReportKeys(rs + ts) == ReportKeys(rs) + ReportKeys(ts)
  {
  }

  lemma AllAnswered(os: seq<Obligation>, done: set<string>)
    requires done == TargetsOf(os)
    ensures Part(os, ForTargets(done)) == os
  {
    PartAll(os, ForTargets(done));
  }
}
