/** A change whose hosted plan is not part of its full plan: the library is registered as its own
    consumer, and the only changed file of it is `.md`. */
module HostedException {
  import opened Common
  import opened Paths
  import opened Selection
  import opened Registration
  import opened Planner
  import opened PlanProperties

  const Path := "libs/servicekit/.md"

  function Self(): Consumer {
    Consumer(LibraryModule, LibraryDirectory, "owner", "active", LibraryModule, [Workflow("w", "j")], LibraryPhases,
             map p | p in Required :: Binding("check", ["normal", "candidate"]),
             map p | p in AllPhases - Required :: "none")
  }

  function Modules(): seq<Module> { [Module(LibraryDirectory, LibraryModule, "check-go-pr")] }

  function Commit(): Tree {
    Tree(Inventory(Modules(), [Self()], [], "github.com/"), true, true, true, m => Inputs("digest", "locks"))
  }

  lemma PathParts()
    ensures Parts(Path) == ["libs", "servicekit", ".md"]
  {
    hide Parts, First;
    var parts := ["libs", "servicekit", ".md"];
    assert parts[1..] == ["servicekit", ".md"] && parts[1..][1..] == [".md"];
    assert Join(parts[1..]) == "servicekit/.md";
    assert Join(parts) == Path;
    PartsOfJoin(parts);
  }

  lemma PathOwner()
    ensures ClassifyModule(Path) == Some(LibraryDirectory)
  {
    hide Parts, EndsWith;
    PathParts();
    assert !Absolute(Path) by { assert Path[0] == 'l'; }
    assert "libs/" + "servicekit" == LibraryDirectory;
  }

  lemma NamesAreSafe()
    ensures SafeRelative("w") && SafeRelative(LibraryDirectory)
  {
    hide Parts, First;
    PartsOfJoin(["w"]);
    assert Join(["w"]) == "w";
    var parts := ["libs", "servicekit"];
    assert parts[1..] == ["servicekit"];
    assert Join(parts) == LibraryDirectory;
    PartsOfJoin(parts);
  }

  lemma LibraryPhasesAreRequired()
    ensures Elements(LibraryPhases) == Required
  {
    assert LibraryPhases[0] == "build" && LibraryPhases[1] == "dependency" && LibraryPhases[2] == "format"
        && LibraryPhases[3] == "lint" && LibraryPhases[4] == "race" && LibraryPhases[5] == "unit"
        && LibraryPhases[6] == "vulnerability";
  }

  lemma TwoModes()
    ensures ProperBinding(Binding("check", ["normal", "candidate"]))
  {
    var modes := ["normal", "candidate"];
    assert modes[0] == "normal" && modes[1] == "candidate" && |modes[0]| != |modes[1]|;
    assert Elements(modes) == {"normal", "candidate"};
    assert TargetName("check");
  }

  lemma SelfPhases()
    ensures ProperPhases(Self())
  {
    hide ProperBinding, Elements;
    ConstantPhases();
    LibraryPhasesAreRequired();
    TwoModes();
    assert !Blank("none") by { assert !Space("none"[0]); }
  }

  lemma SelfIsProper()
    ensures ProperRecords([Self()])
  {
    hide ProperPhases, SafeRelative;
    NamesAreSafe();
    SelfPhases();
    assert ProperWorkflow(Workflow("w", "j"));
    assert !Blank("owner") by { assert !Space("owner"[0]); }
  }

  lemma PathTouches()
    ensures Touches(Path, LibraryDirectory) && !LibraryCode(Path)
  {
    hide *;
    LibraryGap(Path);
    PathTail();
    PathPrefix();
  }

  lemma PathPrefix()
    ensures LibraryDirectory + "/" <= Path
  {
    assert Path[..|LibraryDirectory| + 1] == LibraryDirectory + "/";
  }

  lemma PathTail()
    ensures DottedMd(Tail(Path))
  {
    hide Tail;
    TailEnds(Path);
    var t, n := Tail(Path), |Path|;
    assert Path[n - 4] == '/' && Path[n - 3] == '.' && Path[n - 2] == 'm' && Path[n - 1] == 'd';
    assert forall k :: n - |t| <= k < n ==> Path[k] == t[k - (n - |t|)] && Path[k] != '/';
    assert |t| == 3;
    assert t == ".md";
    assert ".md"[1..] == "md";
    assert LeadingDots("md") == 0;
  }

  lemma OneRoot()
    ensures Directories(Modules()) == {LibraryDirectory}
    ensures Roots(Commit(), Commit()) == {LibraryDirectory}
  {
    var ms := Modules();
    assert ms[0] in ms && ms[0].directory == LibraryDirectory;
    forall d | d in Directories(ms) ensures d == LibraryDirectory {}
  }

  lemma LibraryChanged()
    ensures Changed(Commit(), Commit(), [Path]) == {LibraryDirectory}
  {
    hide Roots, Touches;
    OneRoot();
    PathTouches();
    assert TouchedBy([Path], LibraryDirectory) by { assert Touches([Path][0], LibraryDirectory); }
  }

  lemma TreesCompatible()
    ensures CompatibleTrees(Commit(), Commit())
  {
    hide ProperRecords, Elements;
    SelfIsProper();
    assert Modules()[0].modulePath == LibraryModule;
    assert PlacedAt(Self(), Modules());
    assert FindByModule([Self()], LibraryModule) == Some(Self());
    assert KeepsPhases(Self(), [Self()]);
  }

  lemma CommitIsPlannable(profile: string)
    requires profile in {"ci", "full"}
    ensures Plannable(profile, Commit(), Commit(), [Path])
  {
    hide CompatibleTrees, Changed, Roots, ClassifyModule;
    TreesCompatible();
    OneRoot();
    LibraryChanged();
    PathOwner();
    assert forall i :: 0 <= i < |[Path]| ==> [Path][i] == Path;
  }

  /** Both plans exist, and the hosted one is not within the full one. */
  lemma HostedOutsideFull()
    ensures Plannable("ci", Commit(), Commit(), [Path]) && Plannable("full", Commit(), Commit(), [Path])
    ensures Bound([Self()])
    ensures var c := ContextOf("ci", Commit(), Commit(), [Path]);
            !Within(Obligations(Modules(), Hosted(c)), Obligations(Modules(), Full(c)))
  {
    hide Plannable, ContextOf, Obligations, Bound, LibraryCode, ProperRecords, Touches;
    CommitIsPlannable("ci");
    CommitIsPlannable("full");
    SelfIsProper();
    RecordsBound([Self()]);
    PathTouches();
    HostedWithinFullByPaths("ci", Commit(), Commit(), [Path]);
    assert [Self()][0].directory == LibraryDirectory;
    assert LibraryDirectory in Roots(Commit(), Commit()) by { assert Modules()[0] in Modules(); }
    assert TouchedBy([Path], LibraryDirectory) by { assert Touches([Path][0], LibraryDirectory); }
  }
}
