/** Plans in terms of the changed files' names. */
module PlannedChanges {
  import opened Common
  import opened Paths
  import opened Selection
  import opened Registration
  import opened Planner
  import opened PlanProperties

  /** The names of the changed files. */
  type Change = seq<seq<string>>

  predicate Named(change: Change) {
    forall i :: 0 <= i < |change| ==> change[i] != [] && PartNames(change[i])
  }

  function Texts(change: Change): (paths: seq<string>)
    ensures |paths| == |change| && forall i :: 0 <= i < |change| ==> paths[i] == Join(change[i])
  {
    seq(|change|, i requires 0 <= i < |change| => Join(change[i]))
  }

  predicate CountsFor(parts: seq<string>, root: seq<string>) {
    if root == LibraryNames then LibraryChange(parts) else root <= parts && ServiceChange(parts)
  }

  lemma CountsExact(parts: seq<string>, root: seq<string>)
    requires PartNames(parts) && PartNames(root) && parts != [] && root != []
    ensures Touches(Join(parts), Join(root)) <==> CountsFor(parts, root)
  {
    hide Touches, ServiceChange, LibraryChange, Join, PartName;
    LibraryJoined();
    PartsOfJoin(root);
    PartsOfJoin(LibraryNames);
    if root == LibraryNames { LibraryTouchesExact(parts); } else { TouchesExact(parts, root); }
  }

  /** The changed modules are the registered roots in which a file counts. */
  lemma ChangedExact(base: Tree, head: Tree, change: Change, root: seq<string>)
    requires Named(change) && PartNames(root) && root != []
    ensures Join(root) in Changed(base, head, Texts(change)) <==>
              Join(root) in Roots(base, head) && exists i :: 0 <= i < |change| && CountsFor(change[i], root)
  {
    hide Roots, Touches, CountsFor, Join, PartNames;
    var paths := Texts(change);
    forall i | 0 <= i < |change| ensures Touches(paths[i], Join(root)) <==> CountsFor(change[i], root) {
      CountsExact(change[i], root);
    }
  }

  /** What a changed service, library of that name or template is asked for: under the full profile the
      phases of its registration, or the gate without one, and under the hosted profile nothing; and no
      other module has changed. */
  lemma ServiceChangePlanned(
      profile: string, base: Tree, head: Tree, change: Change, i: nat, m: Module, o: Obligation)
    requires Named(change) && Plannable(profile, base, head, Texts(change)) && Bound(head.inventory.consumers)
    requires i < |change| && ServiceChange(change[i])
    requires m in head.inventory.modules && m.directory == Join(change[i][..2]) && o.mod == m.directory
    ensures Changed(base, head, Texts(change)) == {Join(change[i][..2])}
    ensures var record := FindConsumer(head.inventory.consumers, m.directory);
            o in Obligations(head.inventory.modules, ContextOf(profile, base, head, Texts(change))) <==>
              && profile == "full" && o.mode == "normal"
              && if record.None? then o.phase == "gate" && o.target == m.validationTarget
                 else o.phase in record.value.phases && o.phase in record.value.bindings
                      && o.target == record.value.bindings[o.phase].target
  {
    hide Bound, Changed, Obligations, ProperRecords, NoDowngrade, Placed, Demanded, RootWork, LibraryCodeChanged,
         ServiceChange, Roots, KnownOwners, FindConsumer;
    var paths := Texts(change);
    var c, ms := ContextOf(profile, base, head, paths), head.inventory.modules;
    ServiceOwner(change[i]);
    OnlyChange(profile, base, head, change, i);
    PlanDemands(ms, c, o);
    var k :| 0 <= k < |ms| && ms[k] == m;
    forall j | 0 <= j < |ms| && Demanded(o, ms[j], c) ensures j == k { OwnDirectory(o, ms[j], c); }
    ChangedDemand(m, c, o);
  }

  lemma OnlyChange(profile: string, base: Tree, head: Tree, change: Change, i: nat)
    requires Named(change) && Plannable(profile, base, head, Texts(change)) && i < |change|
    requires ServiceChange(change[i])
    ensures Changed(base, head, Texts(change)) == {Join(change[i][..2])}
  {
    hide CompatibleTrees, ServiceChange, Roots, Join, ClassifyModule, PartName;
    LongEnough(change[i]);
    var root := change[i][..2];
    ServiceOwner(change[i]);
    assert OwnerKnown(Texts(change)[i], Roots(base, head));
    assert CountsFor(change[i], root) by { LibraryJoined(); }
    ChangedExact(base, head, change, root);
    Singleton(Changed(base, head, Texts(change)), Join(root));
  }

  lemma LongEnough(parts: seq<string>)
    requires ServiceChange(parts)
    ensures |parts| >= 3
  {
  }

  lemma Singleton(s: set<string>, x: string)
    requires x in s && |s| <= 1
    ensures s == {x}
  {
    assert |s - {x}| == 0;
  }

  lemma ChangedDemand(m: Module, c: Context, o: Obligation)
    requires Bound(c.consumers) && c.changed == {m.directory} && m.directory != LibraryDirectory
    requires o.mod == m.directory
    ensures var record := FindConsumer(c.consumers, m.directory);
            Demanded(o, m, c) <==>
              && c.full && o.mode == "normal"
              && if record.None? then o.phase == "gate" && o.target == m.validationTarget
                 else o.phase in record.value.phases && o.phase in record.value.bindings
                      && o.target == record.value.bindings[o.phase].target
  {
    hide Bound, FindConsumer, ProperPhases, NoRepeats;
    PhasesBound(m.directory, c);
    var record := FindConsumer(c.consumers, m.directory);
    if record.Some? { RecordFacts(record.value); }
  }

  /** A hosted plan asks an unchanged consumer for its build and its unit tests, against the candidate,
      exactly when library code changed, and for nothing else. */
  lemma HostedAsksConsumers(inv: Inventory, c: Context, r: Consumer, o: Obligation)
    requires ProperRecords(inv.consumers) && Placed(inv) && c.consumers == inv.consumers && Bound(c.consumers)
    requires DistinctModules(inv.modules)
    requires !c.full && LibraryDirectory in c.changed && r.directory !in c.changed
    requires r in inv.consumers && (r.modulePath == LibraryModule ==> r.directory in Directories(inv.modules))
    requires o.mod == r.directory
    ensures o in Obligations(inv.modules, c) <==>
              && c.libraryCode && o.mode == "candidate" && o.phase in {"build", "unit"}
              && o.phase in r.bindings && o.target == r.bindings[o.phase].target
  {
    hide ProperConsumer, Bound, Obligations, Demanded, Placed, PlacedAt;
    var i :| 0 <= i < |inv.consumers| && inv.consumers[i] == r;
    var m := ModuleOf(inv, r, i);
    FoundConsumer(inv.consumers, r);
    PlanDemands(inv.modules, c, o);
    var k :| 0 <= k < |inv.modules| && inv.modules[k] == m;
    HostedConsumerDemand(m, c, r, o);
    forall j | 0 <= j < |inv.modules| && Demanded(o, inv.modules[j], c) ensures j == k {
      OwnDirectory(o, inv.modules[j], c);
    }
  }

  lemma HostedConsumerDemand(m: Module, c: Context, r: Consumer, o: Obligation)
    requires Bound(c.consumers) && FindConsumer(c.consumers, m.directory) == Some(r)
    requires !c.full && LibraryDirectory in c.changed && m.directory !in c.changed && o.mod == m.directory
    ensures Demanded(o, m, c) <==>
              && c.libraryCode && o.mode == "candidate" && o.phase in {"build", "unit"}
              && o.phase in r.bindings && o.target == r.bindings[o.phase].target
  {
    hide Bound, FindConsumer, ProperPhases, NoRepeats;
    PhasesBound(m.directory, c);
    RecordFacts(r);
    assert CiPhases[0] == "build" && CiPhases[1] == "unit";
  }

  // ---- root work -----------------------------------------------------------------------------------------

  /** The names that are root work whatever follows them, even within the name itself. */
  const RootNames := ["go-module-topology.json", "pyproject.toml", "uv.lock", ".python-version", "Makefile"]

  const WorkflowNames := ["go-pr-shared.yml", "go-release-lib.yml"]

  predicate BeginsWithOne(name: string, texts: seq<string>) { exists k :: 0 <= k < |texts| && texts[k] <= name }

  /** Which files are root work: those of the two script directories, and those at the root or among the
      workflows whose name begins with one of the listed ones. */
  predicate RootFile(parts: seq<string>)
    requires parts != []
  {
    || (|parts| >= 3 && parts[0] == "scripts" && parts[1] in {"go", "python"})
    || (|parts| >= 3 && parts[0] == ".github" && parts[1] == "workflows" && BeginsWithOne(parts[2], WorkflowNames))
    || BeginsWithOne(parts[0], RootNames)
  }

  /** A change is root work exactly when one of its files is. */
  lemma RootWorkExact(change: Change)
    requires Named(change)
    ensures RootWork(Texts(change)) <==> exists i :: 0 <= i < |change| && RootFile(change[i])
  {
    hide RootInput, RootFile, Join, PartNames;
    var paths := Texts(change);
    forall i | 0 <= i < |change| ensures RootInput(paths[i]) <==> RootFile(change[i]) { RootInputExact(change[i]); }
  }

  lemma RootInputExact(parts: seq<string>)
    requires PartNames(parts) && parts != []
    ensures RootInput(Join(parts)) <==> RootFile(parts)
  {
    hide Join, PartName, PartNames, RootInput, BeginsBetween, BeginsWithOne;
    var path := Join(parts);
    ScriptsExact(path, parts);
    WorkflowsExact(path, parts);
    NamesExact(path, parts);
    RootInputCases(path);
  }

  ghost predicate BeginsBetween(path: string, from: nat, to: nat)
    requires to <= |RootInputs|
  {
    exists i :: from <= i < to && RootInputs[i] <= path
  }

  lemma RootInputCases(path: string)
    ensures RootInput(path) <==>
              BeginsBetween(path, 0, 2) || BeginsBetween(path, 2, 7) || BeginsBetween(path, 7, 9)
  {
  }

  lemma ScriptsExact(path: string, parts: seq<string>)
    requires PartNames(parts) && parts != [] && path == Join(parts)
    ensures BeginsBetween(path, 0, 2) <==> |parts| >= 3 && parts[0] == "scripts" && parts[1] in {"go", "python"}
  {
    hide Join, PartNames, PartName;
    ScriptText();
    ThirdBegins(RootInputs[0], "scripts", "go", "", parts);
    ThirdBegins(RootInputs[1], "scripts", "python", "", parts);
  }

  lemma ScriptText()
    ensures RootInputs[0] == Join(["scripts", "go", ""]) && PartName("scripts")
    ensures RootInputs[1] == Join(["scripts", "python", ""]) && PartName("go") && PartName("python")
  {
    hide Join;
    JoinThree("scripts", "go", "");
    JoinThree("scripts", "python", "");
  }

  lemma WorkflowsExact(path: string, parts: seq<string>)
    requires PartNames(parts) && parts != [] && path == Join(parts)
    ensures BeginsBetween(path, 7, 9) <==>
              |parts| >= 3 && parts[0] == ".github" && parts[1] == "workflows"
              && BeginsWithOne(parts[2], WorkflowNames)
  {
    hide Join, PartNames, PartName;
    WorkflowNamesPlain();
    WorkflowText(WorkflowNames[0]);
    WorkflowText(WorkflowNames[1]);
    ThirdBegins(RootInputs[7], ".github", "workflows", WorkflowNames[0], parts);
    ThirdBegins(RootInputs[8], ".github", "workflows", WorkflowNames[1], parts);
  }

  lemma WorkflowText(name: string)
    ensures PartName(".github") && PartName("workflows")
    ensures WorkflowFiles + name == Join([".github", "workflows", name])
  {
    hide Join;
    JoinThree(".github", "workflows", name);
    assert WorkflowFiles == ".github" + "/" + "workflows" + "/";
  }

  lemma WorkflowNamesPlain()
    ensures '/' !in WorkflowNames[0] && '/' !in WorkflowNames[1]
  {
  }

  lemma NamesExact(path: string, parts: seq<string>)
    requires PartNames(parts) && parts != [] && path == Join(parts)
    ensures BeginsBetween(path, 2, 7) <==> BeginsWithOne(parts[0], RootNames)
  {
    hide Join, PartNames;
    forall k | 0 <= k < |RootNames| ensures RootInputs[k + 2] <= path <==> RootNames[k] <= parts[0] {
      NameBegins(RootNames[k], parts);
    }
    if BeginsBetween(path, 2, 7) {
      var i :| 2 <= i < 7 && RootInputs[i] <= path;
      var k := i - 2;
      assert RootInputs[k + 2] <= path;
      assert RootNames[k] <= parts[0];
    }
    if BeginsWithOne(parts[0], RootNames) {
      var k :| 0 <= k < |RootNames| && RootNames[k] <= parts[0];
      assert RootInputs[k + 2] <= path;
    }
  }

  lemma NameBegins(name: string, parts: seq<string>)
    requires PartNames(parts) && parts != [] && '/' !in name
    ensures name <= Join(parts) <==> name <= parts[0]
  {
    PrefixOfJoin([], name, parts);
    assert [] + [name] == [name];
  }

  lemma ThirdBegins(text: string, first: string, second: string, name: string, parts: seq<string>)
    requires PartNames(parts) && parts != [] && PartName(first) && PartName(second) && '/' !in name
    requires text == Join([first, second, name])
    ensures text <= Join(parts) <==>
              |parts| >= 3 && parts[0] == first && parts[1] == second && name <= parts[2]
  {
    hide *;
    TwoNames(first, second, name, parts);
    PrefixOfJoin([first, second], name, parts);
  }

  lemma TwoNames(first: string, second: string, name: string, parts: seq<string>)
    requires PartName(first) && PartName(second)
    ensures PartNames([first, second]) && [first, second] + [name] == [first, second, name]
    ensures |parts| >= 3 ==> ([first, second] == parts[..2] <==> parts[0] == first && parts[1] == second)
  {
    hide PartName;
  }

  lemma JoinThree(a: string, b: string, c: string)
    ensures Join([a, b, c]) == a + "/" + b + "/" + c
  {
    JoinTwo(b, c);
    assert [a, b, c][1..] == [b, c];
    assert a + "/" + (b + "/" + c) == a + "/" + b + "/" + c;
  }
}
