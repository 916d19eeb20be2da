/** The registration of active consumers of the shared library (`schema`), with the inventories it
    is part of. */
module Registration {
  import opened Common
  import opened Paths

  const LibraryModule := "github.com/igor-baiborodine/insurance-hub/libs/servicekit"

  const Required := {"format", "lint", "unit", "race", "build", "dependency", "vulnerability"}

  const AllPhases := Required + {"generated", "breaking", "integration", "copy", "image"}

  datatype Binding = Binding(target: string, modes: seq<string>)

  datatype Workflow = Workflow(path: string, job: string)

  datatype Consumer = Consumer(
    modulePath: string, directory: string, owner: string, status: string, dependency: string,
    workflows: seq<Workflow>, phases: seq<string>, bindings: map<string, Binding>,
    applicability: map<string, string>)

  datatype Module = Module(directory: string, modulePath: string, validationTarget: string)

  datatype Inventory = Inventory(
    modules: seq<Module>, consumers: seq<Consumer>, exclusions: seq<string>, prefix: string)

  // ---- texts -----------------------------------------------------------------------------------------

  predicate Space(c: char) { c in {' ', '\t', '\n', '\r', '\U{0B}', '\U{0C}'} }

  predicate Blank(s: string) { forall i :: 0 <= i < |s| ==> Space(s[i]) }

  /** `relative` accepts the path. */
  predicate SafeRelative(path: string) {
    && path != "" && Posix(Parts(path)) == path && !Absolute(path) && ".." !in Parts(path)
    && forall i :: 0 <= i < |path| ==> !Space(path[i])
  }

  /** What it accepts: names joined by single slashes, none of them a dot or two, without blanks; and the
      dot itself. */
  lemma SafeRelativeExact(path: string)
    ensures SafeRelative(path) <==>
              && (forall i :: 0 <= i < |path| ==> !Space(path[i]))
              && (path == "."
                  || exists names :: names != [] && PartNames(names) && ".." !in names && path == Join(names))
  {
    hide Space, Parts, Join, PartName;
    PartsAreNames(path);
    DotParts();
    if path != "." && Parts(path) != [] && SafeRelative(path) {
      assert path == Join(Parts(path));
    }
    forall names | names != [] && PartNames(names) && path == Join(names)
      ensures Parts(path) == names && !Absolute(path) && path != ""
    {
      PartsOfJoin(names);
      NotAbsolute(names);
      assert Parts("") == [];
    }
  }

  lemma DotParts()
    ensures Parts(".") == [] && Parts("") == [] && !Absolute(".")
  {
    assert First(".") == 1;
    assert "."[..1] == ".";
  }

  predicate LowerLetter(c: char) { 'a' <= c <= 'z' }

  predicate Word(c: char) { LowerLetter(c) || 'A' <= c <= 'Z' || '0' <= c <= '9' || c == '_' }

  predicate TargetName(s: string) {
    s != "" && LowerLetter(s[0]) && forall i :: 0 <= i < |s| ==> LowerLetter(s[i]) || '0' <= s[i] <= '9' || s[i] == '-'
  }

  predicate JobName(s: string) {
    s != "" && Word(s[0]) && s[0] != '_' && !('0' <= s[0] <= '9')
    && forall i :: 0 <= i < |s| ==> Word(s[i]) || s[i] == '-'
  }

  predicate NoRepeats(s: seq<string>) { forall i, j :: 0 <= i < j < |s| ==> s[i] != s[j] }

  function Elements(s: seq<string>): set<string> { set x | x in s }

  // ---- one consumer ----------------------------------------------------------------------------------

  predicate ProperBinding(b: Binding) {
    TargetName(b.target) && NoRepeats(b.modes) && Elements(b.modes) == {"normal", "candidate"}
  }

  predicate ProperPhases(c: Consumer) {
    && NoRepeats(c.phases) && Required <= Elements(c.phases) <= AllPhases
    && c.bindings.Keys == Elements(c.phases)
    && (forall p :: p in c.bindings ==> ProperBinding(c.bindings[p]))
    && c.applicability.Keys == AllPhases - Elements(c.phases)
    && (forall p :: p in c.applicability ==> !Blank(c.applicability[p]))
  }

  /** Every phase there is, is settled in one of two ways: it is bound to a target that runs in both
      resolutions, or excused for a reason; and seven of the twelve cannot be excused. */
  lemma PhaseSettled(c: Consumer, phase: string)
    requires ProperPhases(c)
    ensures phase in c.phases <==> phase in c.bindings
    ensures phase in AllPhases ==> (phase in c.phases <==> phase !in c.applicability)
    ensures phase !in AllPhases ==> phase !in c.phases && phase !in c.applicability
    ensures phase in c.applicability ==>
              phase in {"generated", "breaking", "integration", "copy", "image"} && !Blank(c.applicability[phase])
    ensures phase in c.phases ==>
              var b := c.bindings[phase];
              b.target != "" && 'a' <= b.target[0] <= 'z' && forall x :: x in b.modes <==> x in {"normal", "candidate"}
  {
    assert phase in c.phases <==> phase in Elements(c.phases);
    if phase in c.phases { TwoModesListed(c.bindings[phase]); }
  }

  lemma TwoModesListed(b: Binding)
    requires ProperBinding(b)
    ensures forall x :: x in b.modes <==> x in {"normal", "candidate"}
  {
    forall x ensures x in b.modes <==> x in {"normal", "candidate"} {
      assert x in b.modes <==> x in Elements(b.modes);
    }
  }

  predicate ProperWorkflow(w: Workflow) { SafeRelative(w.path) && JobName(w.job) }

  predicate ProperWorkflows(ws: seq<Workflow>) {
    && ws != [] && (forall i :: 0 <= i < |ws| ==> ProperWorkflow(ws[i]))
    && (forall i, j :: 0 <= i < j < |ws| ==> ws[i] != ws[j])
  }

  predicate ProperConsumer(c: Consumer) {
    && SafeRelative(c.directory) && !Blank(c.owner) && c.status == "active" && c.dependency == LibraryModule
    && ProperPhases(c) && ProperWorkflows(c.workflows)
  }

  predicate DistinctConsumers(cs: seq<Consumer>) {
    forall i, j :: 0 <= i < j < |cs| ==> cs[i].modulePath != cs[j].modulePath && cs[i].directory != cs[j].directory
  }

  predicate ProperRecords(cs: seq<Consumer>) {
    DistinctConsumers(cs) && forall i :: 0 <= i < |cs| ==> ProperConsumer(cs[i])
  }

  /** `schema`: the growing sets of the loops detect every repetition. */
  method Schema(records: seq<Consumer>) returns (ok: bool)
    ensures ok <==> ProperRecords(records)
  {
    hide ProperPhases, ProperWorkflow, SafeRelative, Blank;
    var modules: set<string>, directories: set<string> := {}, {};
    for i := 0 to |records|
      invariant modules == set k | 0 <= k < i :: records[k].modulePath
      invariant directories == set k | 0 <= k < i :: records[k].directory
      invariant ProperRecords(records[..i])
    {
      var c := records[i];
      ghost var before, after := records[..i], records[..i + 1];
      assert after == before + [c];
      if c.modulePath in modules || c.directory in directories {
        assert !DistinctConsumers(records);
        return false;
      }
      modules, directories := modules + {c.modulePath}, directories + {c.directory};
      var workflows := Workflows(c.workflows);
      if !SafeRelative(c.directory) || Blank(c.owner) || c.status != "active" || c.dependency != LibraryModule
         || !ProperPhases(c) || !workflows
      {
        assert !ProperConsumer(records[i]);
        return false;
      }
      assert DistinctConsumers(after);
    }
    assert records[..|records|] == records;
    return true;
  }

  method Workflows(ws: seq<Workflow>) returns (ok: bool)
    ensures ok <==> ProperWorkflows(ws)
  {
    hide ProperWorkflow;
    if ws == [] { return false; }
    var seen: set<Workflow> := {};
    for i := 0 to |ws|
      invariant seen == set k | 0 <= k < i :: ws[k]
      invariant forall k :: 0 <= k < i ==> ProperWorkflow(ws[k])
      invariant forall j, k :: 0 <= j < k < i ==> ws[j] != ws[k]
    {
      if !ProperWorkflow(ws[i]) || ws[i] in seen { return false; }
      seen := seen + {ws[i]};
    }
    return true;
  }

  // ---- inventories -----------------------------------------------------------------------------------

  predicate DistinctModules(ms: seq<Module>) {
    forall i, j :: 0 <= i < j < |ms| ==> ms[i].directory != ms[j].directory && ms[i].modulePath != ms[j].modulePath
  }

  /** The record whose directory it is (`next(r for r in active …)`). */
  function FindConsumer(cs: seq<Consumer>, directory: string): (r: Option<Consumer>)
    ensures r.Some? <==> exists i :: 0 <= i < |cs| && cs[i].directory == directory
    ensures r.Some? ==> r.value in cs && r.value.directory == directory
  {
    if cs == [] then None
    else if cs[0].directory == directory then Some(cs[0])
    else
      var r := FindConsumer(cs[1..], directory);
      assert forall i :: 0 < i < |cs| ==> cs[i] == cs[1..][i - 1];
      r
  }

  function FindByModule(cs: seq<Consumer>, modulePath: string): (r: Option<Consumer>)
    ensures r.Some? ==> r.value in cs && r.value.modulePath == modulePath
  {
    if cs == [] then None
    else if cs[0].modulePath == modulePath then Some(cs[0])
    else FindByModule(cs[1..], modulePath)
  }

  /** `registration_check` places every consumer at its module; the library's own record is not
      looked at. */
  predicate Placed(inv: Inventory) {
    forall i :: 0 <= i < |inv.consumers| ==> PlacedAt(inv.consumers[i], inv.modules)
  }

  predicate PlacedAt(c: Consumer, ms: seq<Module>) {
    exists k :: 0 <= k < |ms| && ms[k].modulePath == c.modulePath
                && (c.modulePath == LibraryModule || ms[k].directory == c.directory)
  }

  function Directories(ms: seq<Module>): set<string> { set m | m in ms :: m.directory }
}
