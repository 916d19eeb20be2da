/** The validation plan of a change (`plan_trees`): which phases of which modules must pass. */
module Planner {
  import opened Common
  import opened Selection
  import opened Registration

  datatype Obligation = Obligation(mod: string, phase: string, mode: string, target: string)

  /** What identifies a module's source: its manifest digest and its lock digests. */
  datatype Inputs = Inputs(manifest: string, locks: string)

  /** A commit's tree: its inventory, whether its manifests match it (`roots_at`) and the remaining
      checks of its registration pass, and the identities of its directories. */
  datatype Tree = Tree(
    inventory: Inventory, rooted: bool, registered: bool, hasLibrary: bool, sources: string -> Inputs)

  datatype Plan = Plan(
    profile: string, base: string, head: string, mergeBase: string, changed: set<string>, rootChecks: bool,
    activeConsumers: nat, obligations: seq<Obligation>, inputs: map<string, Inputs>, candidateManifest: Option<string>)

  const LibraryPhases := ["build", "dependency", "format", "lint", "race", "unit", "vulnerability"]

  const CiPhases := ["build", "unit"]

  const RootInputs := ["scripts/go/", "scripts/python/", "go-module-topology.json", "pyproject.toml", "uv.lock",
                       ".python-version", "Makefile", WorkflowFiles + "go-pr-shared.yml",
                       WorkflowFiles + "go-release-lib.yml"]

  const WorkflowFiles := ".github/workflows/"

  predicate RootInput(path: string) { exists i :: 0 <= i < |RootInputs| && RootInputs[i] <= path }

  predicate TouchedBy(paths: seq<string>, root: string) { exists i :: 0 <= i < |paths| && Touches(paths[i], root) }

  /** What the loop over the modules depends on. */
  datatype Context = Context(full: bool, changed: set<string>, rootWork: bool, libraryCode: bool,
                             consumers: seq<Consumer>)

  // ---- one module --------------------------------------------------------------------------------------

  predicate IsCandidate(directory: string, c: Context) {
    LibraryDirectory in c.changed && FindConsumer(c.consumers, directory).Some? && (c.full || c.libraryCode)
  }

  predicate Planned(directory: string, c: Context) {
    && (directory in c.changed || IsCandidate(directory, c) || (c.rootWork && c.full))
    && (c.full || directory !in c.changed || directory == LibraryDirectory)
  }

  function Mode(directory: string, c: Context): string { if IsCandidate(directory, c) then "candidate" else "normal" }

  function Phases(directory: string, c: Context): seq<string> {
    var record := FindConsumer(c.consumers, directory);
    if IsCandidate(directory, c) && !c.full then CiPhases
    else if record.Some? then record.value.phases
    else if directory == LibraryDirectory then LibraryPhases
    else ["gate"]
  }

  function Target(m: Module, phase: string, c: Context): string
    requires FindConsumer(c.consumers, m.directory).Some? ==>
               phase in FindConsumer(c.consumers, m.directory).value.bindings
  {
    var record := FindConsumer(c.consumers, m.directory);
    if record.Some? then record.value.bindings[phase].target else m.validationTarget
  }

  /** Every consumer has a binding for each of its phases, among them the two fast ones. */
  predicate Bound(cs: seq<Consumer>) { forall i :: 0 <= i < |cs| ==> ProperPhases(cs[i]) }

  lemma RecordFacts(r: Consumer)
    requires ProperPhases(r)
    ensures NoRepeats(r.phases) && r.phases != []
    ensures r.bindings.Keys == Elements(r.phases)
    ensures forall x :: x in CiPhases ==> x in r.phases
  {
    hide ProperBinding;
    forall x | x in CiPhases ensures x in r.phases { assert x in Required && x in Elements(r.phases); }
    assert CiPhases[0] in r.phases;
  }

  lemma ConstantPhases()
    ensures NoRepeats(LibraryPhases) && NoRepeats(CiPhases) && NoRepeats(["gate"])
  {
  }

  /** A module's phases are distinct, and its consumer record binds them all. */
  lemma PhasesBound(directory: string, c: Context)
    requires Bound(c.consumers)
    ensures FindConsumer(c.consumers, directory).Some? ==>
              ProperPhases(FindConsumer(c.consumers, directory).value)
              && forall i :: 0 <= i < |Phases(directory, c)| ==>
                   Phases(directory, c)[i] in FindConsumer(c.consumers, directory).value.bindings
    ensures NoRepeats(Phases(directory, c)) && Phases(directory, c) != []
  {
    hide ProperPhases, IsCandidate, NoRepeats;
    ConstantPhases();
    var record := FindConsumer(c.consumers, directory);
    if record.Some? {
      assert ProperPhases(record.value);
      RecordFacts(record.value);
    }
  }

  function ObligationFor(m: Module, c: Context, i: nat): Obligation
    requires Bound(c.consumers) && i < |Phases(m.directory, c)|
  {
    hide Bound, FindConsumer, IsCandidate, NoRepeats, ProperPhases, Phases;
    PhasesBound(m.directory, c);
    var phase := Phases(m.directory, c)[i];
    Obligation(m.directory, phase, Mode(m.directory, c), Target(m, phase, c))
  }

  function ModuleObligations(m: Module, c: Context): (os: seq<Obligation>)
    requires Bound(c.consumers)
    ensures Planned(m.directory, c) ==> |os| == |Phases(m.directory, c)|
    ensures Planned(m.directory, c) ==> forall i :: 0 <= i < |os| ==> os[i] == ObligationFor(m, c, i)
    ensures !Planned(m.directory, c) ==> os == []
  {
    if !Planned(m.directory, c) then []
    else seq(|Phases(m.directory, c)|, i requires 0 <= i < |Phases(m.directory, c)| => ObligationFor(m, c, i))
  }

  function Obligations(ms: seq<Module>, c: Context): seq<Obligation>
    requires Bound(c.consumers)
  {
    if ms == [] then []
    else Obligations(ms[..|ms| - 1], c) + ModuleObligations(ms[|ms| - 1], c)
  }

  // ---- the plan ----------------------------------------------------------------------------------------

  predicate Loads(inv: Inventory) { DistinctModules(inv.modules) && ProperRecords(inv.consumers) }

  function Roots(base: Tree, head: Tree): set<string> {
    Directories(base.inventory.modules) + Directories(head.inventory.modules)
  }

  function Changed(base: Tree, head: Tree, paths: seq<string>): set<string> {
    set root | root in Roots(base, head) && TouchedBy(paths, root)
  }

  /** An active consumer keeps the phases it had. */
  predicate NoDowngrade(base: Tree, head: Tree) {
    forall i :: 0 <= i < |head.inventory.consumers| ==>
      KeepsPhases(head.inventory.consumers[i], base.inventory.consumers)
  }

  predicate KeepsPhases(c: Consumer, before: seq<Consumer>) {
    var old_ := FindByModule(before, c.modulePath);
    old_.Some? ==> Elements(old_.value.phases) <= Elements(c.phases)
  }

  predicate KnownOwners(base: Tree, head: Tree, paths: seq<string>) {
    forall i :: 0 <= i < |paths| ==> OwnerKnown(paths[i], Roots(base, head))
  }

  predicate OwnerKnown(path: string, roots: set<string>) {
    ClassifyModule(path).Some? ==> ClassifyModule(path).value in roots
  }

  predicate CompatibleTrees(base: Tree, head: Tree) {
    && Loads(base.inventory) && Loads(head.inventory)
    && base.inventory.exclusions == head.inventory.exclusions && base.inventory.prefix == head.inventory.prefix
    && base.rooted && head.rooted && base.registered && head.registered && Placed(base.inventory)
    && Placed(head.inventory)
    && NoDowngrade(base, head)
  }

  predicate Plannable(profile: string, base: Tree, head: Tree, paths: seq<string>) {
    && profile in {"ci", "full"} && CompatibleTrees(base, head) && KnownOwners(base, head, paths)
    && |Changed(base, head, paths)| <= 1 && Changed(base, head, paths) <= Directories(head.inventory.modules)
  }

  predicate RootWork(paths: seq<string>) { exists i :: 0 <= i < |paths| && RootInput(paths[i]) }

  predicate LibraryCodeChanged(paths: seq<string>) { exists i :: 0 <= i < |paths| && LibraryCode(paths[i]) }

  function ContextOf(profile: string, base: Tree, head: Tree, paths: seq<string>): Context {
    Context(profile == "full", Changed(base, head, paths), RootWork(paths), LibraryCodeChanged(paths),
            head.inventory.consumers)
  }

  lemma RecordsBound(cs: seq<Consumer>)
    requires ProperRecords(cs)
    ensures Bound(cs)
  {
    forall i | 0 <= i < |cs| ensures ProperPhases(cs[i]) { assert ProperConsumer(cs[i]); }
  }

  /** `plan_trees`; without a value it raises. */
  method PlanTrees(base: Tree, head: Tree, paths: seq<string>, baseSha: string, headSha: string, mergeBase: string,
                   profile: string)
    returns (plan: Option<Plan>)
    ensures plan.Some? <==> Plannable(profile, base, head, paths)
    ensures plan.Some? ==> Bound(head.inventory.consumers)
    ensures plan.Some? ==>
              var p, c := plan.value, ContextOf(profile, base, head, paths);
              && (p.profile, p.base, p.head, p.mergeBase) == (profile, baseSha, headSha, mergeBase)
              && p.changed == c.changed && p.rootChecks == c.rootWork && p.activeConsumers == |c.consumers|
              && p.obligations == Obligations(head.inventory.modules, c)
              && p.inputs.Keys == Modules(p.obligations)
              && (forall m :: m in p.inputs ==> p.inputs[m] == head.sources(m))
              && p.candidateManifest ==
                   if head.hasLibrary then Some(head.sources(LibraryDirectory).manifest) else None
    // a changed module is obliged, except that the hosted profile leaves a changed service to its own
    // workflow
    ensures plan.Some? ==> forall root :: root in plan.value.changed ==>
              (root in Modules(plan.value.obligations) <==> profile == "full" || root == LibraryDirectory)
  {
    hide KeepsPhases, Touches, OwnerKnown, RootInput, LibraryCode, ProperRecords, DistinctModules, Obligations,
         ModuleObligations, Bound, Placed;
    if profile !in {"ci", "full"} { return None; }
    var oldRecords := Schema(base.inventory.consumers);
    var newRecords := Schema(head.inventory.consumers);
    if !oldRecords || !newRecords { return None; }
    if !DistinctModules(base.inventory.modules) || !DistinctModules(head.inventory.modules) { return None; }
    if base.inventory.exclusions != head.inventory.exclusions || base.inventory.prefix != head.inventory.prefix {
      return None;
    }
    if !base.rooted || !head.rooted { return None; }
    if !base.registered || !head.registered || !Placed(base.inventory) || !Placed(head.inventory) { return None; }
    var active := head.inventory.consumers;
    RecordsBound(active);
    for i := 0 to |active|
      invariant forall k :: 0 <= k < i ==> KeepsPhases(active[k], base.inventory.consumers)
    {
      if !KeepsPhases(active[i], base.inventory.consumers) { return None; }
    }
    var changed := Changed(base, head, paths);
    if |changed| > 1 { return None; }
    for i := 0 to |paths|
      invariant forall k :: 0 <= k < i ==> OwnerKnown(paths[k], Roots(base, head))
    {
      if !OwnerKnown(paths[i], Roots(base, head)) { return None; }
    }
    if !(changed <= Directories(head.inventory.modules)) { return None; }
    var c := ContextOf(profile, base, head, paths);
    var obligations := CollectObligations(head.inventory.modules, c);
    var inputs := map m | m in Modules(obligations) :: head.sources(m);
    var manifest := if head.hasLibrary then Some(head.sources(LibraryDirectory).manifest) else None;
    forall root | root in changed
      ensures root in Modules(obligations) <==> profile == "full" || root == LibraryDirectory
    {
      PlannedModules(head.inventory.modules, c, root);
    }
    return Some(Plan(profile, baseSha, headSha, mergeBase, changed, c.rootWork, |active|, obligations, inputs,
                     manifest));
  }

  function Modules(os: seq<Obligation>): set<string> { set o | o in os :: o.mod }

  /** A module has obligations exactly when it is planned. */
  lemma {:induction false} PlannedModules(ms: seq<Module>, c: Context, directory: string)
    requires Bound(c.consumers)
    ensures directory in Modules(Obligations(ms, c)) <==> directory in Directories(ms) && Planned(directory, c)
  {
    hide Bound, Planned, ModuleObligations;
    if ms != [] {
      var last := |ms| - 1;
      PlannedModules(ms[..last], c, directory);
      OwnModule(ms[last], c);
      assert ms == ms[..last] + [ms[last]];
      assert Directories(ms) == Directories(ms[..last]) + {ms[last].directory};
      assert Modules(Obligations(ms, c)) ==
             Modules(Obligations(ms[..last], c)) + Modules(ModuleObligations(ms[last], c));
    }
  }

  lemma OwnModule(m: Module, c: Context)
    requires Bound(c.consumers)
    ensures Modules(ModuleObligations(m, c)) == if Planned(m.directory, c) then {m.directory} else {}
  {
    hide Bound, Planned, FindConsumer, Phases, Mode, ProperPhases, NoRepeats;
    PhasesBound(m.directory, c);
    var os := ModuleObligations(m, c);
    if Planned(m.directory, c) {
      assert forall i :: 0 <= i < |os| ==> os[i] == ObligationFor(m, c, i);
      assert os[0] in os;
    }
  }

  /** The loop over the modules. */
  method CollectObligations(ms: seq<Module>, c: Context) returns (obligations: seq<Obligation>)
    requires Bound(c.consumers)
    ensures obligations == Obligations(ms, c)
  {
    hide Bound, IsCandidate, ObligationFor;
    obligations := [];
    for i := 0 to |ms|
      invariant obligations == Obligations(ms[..i], c)
    {
      var m := ms[i];
      assert ms[..i + 1][..i] == ms[..i];
      var candidate := IsCandidate(m.directory, c);
      if !(m.directory in c.changed || candidate || (c.rootWork && c.full)) {
        continue;
      }
      if !c.full && m.directory in c.changed && m.directory != LibraryDirectory { continue; }
      var own := CollectModule(m, c);
      obligations := obligations + own;
    }
    assert ms[..|ms|] == ms;
  }

  /** The loop over the phases of one module. */
  method CollectModule(m: Module, c: Context) returns (own: seq<Obligation>)
    requires Bound(c.consumers) && Planned(m.directory, c)
    ensures own == ModuleObligations(m, c)
  {
    hide Phases, Mode, Target, Bound, FindConsumer, Planned, NoRepeats, ProperPhases;
    PhasesBound(m.directory, c);
    var mode, phases := Mode(m.directory, c), Phases(m.directory, c);
    own := [];
    for k := 0 to |phases|
      invariant own == ModuleObligations(m, c)[..k]
    {
      own := own + [Obligation(m.directory, phases[k], mode, Target(m, phases[k], c))];
      assert own[k] == ModuleObligations(m, c)[k];
    }
  }
}
