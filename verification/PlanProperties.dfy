/** What every plan guarantees: distinct obligations, one mode per module, complete coverage of root
    and library changes, and when a hosted plan is part of the full one. */
module PlanProperties {
  import opened Common
  import opened Selection
  import opened Registration
  import opened Planner

  datatype Key = Key(mod: string, phase: string, mode: string)

  function KeyOf(o: Obligation): Key { Key(o.mod, o.phase, o.mode) }

  function Keys(os: seq<Obligation>): (ks: seq<Key>)
    ensures |ks| == |os| && forall i :: 0 <= i < |os| ==> ks[i] == KeyOf(os[i])
  {
    seq(|os|, i requires 0 <= i < |os| => KeyOf(os[i]))
  }

  /** No two obligations share module and phase; in particular their keys are distinct. */
  ghost predicate DistinctPhases(os: seq<Obligation>) {
    forall i, j :: 0 <= i < j < |os| ==> os[i].mod != os[j].mod || os[i].phase != os[j].phase
  }

  ghost predicate OneMode(os: seq<Obligation>) {
    forall i, j :: 0 <= i < |os| && 0 <= j < |os| && os[i].mod == os[j].mod ==> os[i].mode == os[j].mode
  }

  /** The obligation is one of the module's. */
  ghost predicate Demanded(o: Obligation, m: Module, c: Context)
    requires Bound(c.consumers)
  {
    && o.mod == m.directory && Planned(m.directory, c) && o.mode == Mode(m.directory, c)
    && o.phase in Phases(m.directory, c)
    && (PhasesBound(m.directory, c); o.target == Target(m, o.phase, c))
  }

  lemma ModuleDemands(m: Module, c: Context, o: Obligation)
    requires Bound(c.consumers)
    ensures o in ModuleObligations(m, c) <==> Demanded(o, m, c)
  {
    hide Bound, FindConsumer, Phases, Mode, ProperPhases, NoRepeats, Planned;
    PhasesBound(m.directory, c);
    var os, phases := ModuleObligations(m, c), Phases(m.directory, c);
    if o in os {
      var i :| 0 <= i < |os| && os[i] == o;
      assert os[i] == ObligationFor(m, c, i);
    }
    if Demanded(o, m, c) {
      var i :| 0 <= i < |phases| && phases[i] == o.phase;
      assert os[i] == ObligationFor(m, c, i);
    }
  }

  ghost predicate DemandedBy(o: Obligation, ms: seq<Module>, c: Context)
    requires Bound(c.consumers)
  {
    exists i :: 0 <= i < |ms| && Demanded(o, ms[i], c)
  }

  /** The obligations are those demanded for some module, no more and no less. */
  lemma {:induction false} PlanDemands(ms: seq<Module>, c: Context, o: Obligation)
    requires Bound(c.consumers)
    ensures o in Obligations(ms, c) <==> DemandedBy(o, ms, c)
  {
    hide Bound, Demanded, ModuleObligations;
    if ms != [] {
      var last := |ms| - 1;
      PlanDemands(ms[..last], c, o);
      ModuleDemands(ms[last], c, o);
      if DemandedBy(o, ms, c) {
        var i :| 0 <= i < |ms| && Demanded(o, ms[i], c);
        if i < last { assert Demanded(o, ms[..last][i], c); }
      }
      if DemandedBy(o, ms[..last], c) {
        var i :| 0 <= i < last && Demanded(o, ms[..last][i], c);
        assert Demanded(o, ms[i], c);
      }
    }
  }

  lemma ModuleDistinct(m: Module, c: Context)
    requires Bound(c.consumers)
    ensures DistinctPhases(ModuleObligations(m, c))
    ensures forall o :: o in ModuleObligations(m, c) ==> o.mod == m.directory && o.mode == Mode(m.directory, c)
  {
    hide Bound, FindConsumer, Phases, Mode, ProperPhases;
    PhasesBound(m.directory, c);
    var os := ModuleObligations(m, c);
    assert forall i :: 0 <= i < |os| ==> os[i] == ObligationFor(m, c, i);
  }

  /** Obligation keys are distinct and each module has one mode. */
  lemma {:induction false} PlanDistinct(ms: seq<Module>, c: Context)
    requires Bound(c.consumers) && DistinctModules(ms)
    ensures DistinctPhases(Obligations(ms, c)) && Distinct(Keys(Obligations(ms, c)))
    ensures OneMode(Obligations(ms, c))
  {
    hide Bound, ModuleObligations, Mode, DistinctPhases, OneMode;
    var os := Obligations(ms, c);
    if ms == [] {
      NothingDistinct();
    } else {
      var last := |ms| - 1;
      var before, own := Obligations(ms[..last], c), ModuleObligations(ms[last], c);
      PlanDistinct(ms[..last], c);
      ModuleDistinct(ms[last], c);
      forall o | o in before ensures o.mod != ms[last].directory {
        PlanDemands(ms[..last], c, o);
        OtherDirectory(o, ms, c);
      }
      AppendDistinct(before, own, ms[last].directory);
    }
    KeysDistinct(os);
  }

  lemma NothingDistinct()
    ensures DistinctPhases([]) && OneMode([])
  {
  }

  lemma OtherDirectory(o: Obligation, ms: seq<Module>, c: Context)
    requires Bound(c.consumers) && DistinctModules(ms) && ms != [] && DemandedBy(o, ms[..|ms| - 1], c)
    ensures o.mod != ms[|ms| - 1].directory
  {
    hide Bound, Planned, Mode, Phases;
  }

  lemma AppendDistinct(before: seq<Obligation>, own: seq<Obligation>, directory: string)
    requires DistinctPhases(before) && OneMode(before) && DistinctPhases(own)
    requires forall o :: o in before ==> o.mod != directory
    requires forall o :: o in own ==> o.mod == directory
    requires forall o, o' :: o in own && o' in own ==> o.mode == o'.mode
    ensures DistinctPhases(before + own) && OneMode(before + own)
  {
    var all := before + own;
    assert forall i :: 0 <= i < |before| ==> all[i] in before;
    assert forall i :: |before| <= i < |all| ==> all[i] in own;
  }

  lemma KeysDistinct(os: seq<Obligation>)
    requires DistinctPhases(os)
    ensures Distinct(Keys(os))
  {
    forall i, j | 0 <= i < j < |os| ensures Keys(os)[i] != Keys(os)[j] {
      assert Keys(os)[i] == KeyOf(os[i]) && Keys(os)[j] == KeyOf(os[j]);
    }
  }

  // ---- coverage ------------------------------------------------------------------------------------------

  /** A full plan with root changes obliges every module. */
  lemma RootWorkCoversAll(ms: seq<Module>, c: Context, i: nat)
    requires Bound(c.consumers) && c.full && c.rootWork && i < |ms|
    ensures exists o :: o in Obligations(ms, c) && o.mod == ms[i].directory
  {
    hide Bound, Phases, Mode, Obligations, FindConsumer;
    PhasesBound(ms[i].directory, c);
    assert Planned(ms[i].directory, c);
    var o := ObligationFor(ms[i], c, 0);
    assert Demanded(o, ms[i], c);
    PlanDemands(ms, c, o);
  }

  /** A library change under the full profile obliges, for every consumer, exactly its candidate
      phases, in candidate mode and at their owning targets; no other consumer obligation exists. */
  lemma LibraryChangeObligesConsumers(inv: Inventory, c: Context, r: Consumer, o: Obligation)
    requires ProperRecords(inv.consumers) && Placed(inv) && c.consumers == inv.consumers && Bound(c.consumers)
    requires DistinctModules(inv.modules)
    requires c.full && LibraryDirectory in c.changed
    requires r in inv.consumers && (r.modulePath == LibraryModule ==> r.directory in Directories(inv.modules))
    requires o.mod == r.directory
    ensures o in Obligations(inv.modules, c) <==>
              o.mode == "candidate" && o.phase in r.phases && o.phase in r.bindings
              && o.target == r.bindings[o.phase].target
  {
    hide ProperConsumer, Bound, Obligations, Demanded, Placed, PlacedAt;
    var i :| 0 <= i < |inv.consumers| && inv.consumers[i] == r;
    var m := ModuleOf(inv, r, i);
    FoundConsumer(inv.consumers, r);
    PlanDemands(inv.modules, c, o);
    var k :| 0 <= k < |inv.modules| && inv.modules[k] == m;
    ConsumerDemand(m, c, r, o);
    forall j | 0 <= j < |inv.modules| && Demanded(o, inv.modules[j], c) ensures j == k {
      OwnDirectory(o, inv.modules[j], c);
    }
  }

  lemma OwnDirectory(o: Obligation, m: Module, c: Context)
    requires Bound(c.consumers)
    ensures Demanded(o, m, c) ==> o.mod == m.directory
  {
  }

  lemma ConsumerDemand(m: Module, c: Context, r: Consumer, o: Obligation)
    requires Bound(c.consumers) && FindConsumer(c.consumers, m.directory) == Some(r)
    requires c.full && LibraryDirectory in c.changed && o.mod == m.directory
    ensures Demanded(o, m, c) <==>
              o.mode == "candidate" && o.phase in r.phases && o.phase in r.bindings
              && o.target == r.bindings[o.phase].target
  {
    hide Bound, FindConsumer, ProperPhases, NoRepeats;
    PhasesBound(m.directory, c);
    RecordFacts(r);
  }

  lemma ModuleOf(inv: Inventory, r: Consumer, i: nat) returns (m: Module)
    requires Placed(inv) && i < |inv.consumers| && inv.consumers[i] == r
    requires r.modulePath == LibraryModule ==> r.directory in Directories(inv.modules)
    ensures m in inv.modules && m.directory == r.directory
  {
    assert PlacedAt(r, inv.modules);
    if r.modulePath == LibraryModule {
      m :| m in inv.modules && m.directory == r.directory;
    } else {
      var k :| 0 <= k < |inv.modules| && inv.modules[k].modulePath == r.modulePath
                && inv.modules[k].directory == r.directory;
      m := inv.modules[k];
    }
  }

  lemma {:induction false} FoundConsumer(cs: seq<Consumer>, r: Consumer)
    requires DistinctConsumers(cs) && r in cs
    ensures FindConsumer(cs, r.directory) == Some(r)
  {
    var f := FindConsumer(cs, r.directory);
    var i :| 0 <= i < |cs| && cs[i] == r;
    var j :| 0 <= j < |cs| && cs[j] == f.value;
  }

  // ---- the two profiles ----------------------------------------------------------------------------------

  ghost predicate Within(os: seq<Obligation>, all: seq<Obligation>) { forall o :: o in os ==> o in all }

  /** The hosted plan of the same inputs. */
  function Hosted(c: Context): Context { c.(full := false) }

  function Full(c: Context): Context { c.(full := true) }

  /** The library changed, is itself registered as a consumer, and none of its code changed. */
  predicate Exception(c: Context) {
    LibraryDirectory in c.changed && FindConsumer(c.consumers, LibraryDirectory).Some? && !c.libraryCode
  }

  lemma HostedDemand(m: Module, c: Context, o: Obligation)
    requires Bound(c.consumers) && !Exception(c) && Demanded(o, m, Hosted(c))
    ensures Demanded(o, m, Full(c))
  {
    hide Bound, FindConsumer, NoRepeats, ProperPhases;
    var r := FindConsumer(c.consumers, m.directory);
    if r.Some? && IsCandidate(m.directory, Hosted(c)) {
      PhasesBound(m.directory, c);
      RecordFacts(r.value);
    }
  }

  lemma HostedOutside(m: Module, c: Context) returns (o: Obligation)
    requires Bound(c.consumers) && Exception(c) && m.directory == LibraryDirectory
    ensures Demanded(o, m, Hosted(c)) && o.mod == LibraryDirectory && o.mode == "normal"
  {
    hide Bound, FindConsumer, Phases;
    PhasesBound(m.directory, Hosted(c));
    o := ObligationFor(m, Hosted(c), 0);
  }

  /** A hosted plan's obligations are among those of the full plan, except when the library changed
      without code, being registered as its own consumer. */
  lemma HostedWithinFull(ms: seq<Module>, c: Context)
    requires Bound(c.consumers) && DistinctModules(ms) && c.changed <= Directories(ms)
    ensures Within(Obligations(ms, Hosted(c)), Obligations(ms, Full(c))) <==> !Exception(c)
  {
    hide Bound, Demanded, Obligations, Exception, Planned, Mode, Phases;
    if Exception(c) {
      LibraryPresent(ms, c);
      var k :| 0 <= k < |ms| && ms[k].directory == LibraryDirectory;
      var o := HostedOutside(ms[k], c);
      PlanDemands(ms, Hosted(c), o);
      PlanDemands(ms, Full(c), o);
      CandidateUnderFull(ms, c, o);
    } else {
      forall o | o in Obligations(ms, Hosted(c)) ensures o in Obligations(ms, Full(c)) {
        PlanDemands(ms, Hosted(c), o);
        PlanDemands(ms, Full(c), o);
        var i :| 0 <= i < |ms| && Demanded(o, ms[i], Hosted(c));
        HostedDemand(ms[i], c, o);
      }
    }
  }

  lemma LibraryPresent(ms: seq<Module>, c: Context)
    requires Exception(c) && c.changed <= Directories(ms)
    ensures exists k :: 0 <= k < |ms| && ms[k].directory == LibraryDirectory
  {
    hide FindConsumer;
    assert LibraryDirectory in Directories(ms);
  }

  lemma CandidateUnderFull(ms: seq<Module>, c: Context, o: Obligation)
    requires Bound(c.consumers) && Exception(c) && o.mod == LibraryDirectory && o.mode == "normal"
    ensures !DemandedBy(o, ms, Full(c))
  {
    hide Bound, FindConsumer, Phases, Planned;
  }

  /** In terms of the change: the hosted plan leaves the full one exactly when the library is its own
      consumer and some path counts as a change of it, but none as library code (`LibraryGap` says
      which paths those are). */
  lemma HostedWithinFullByPaths(profile: string, base: Tree, head: Tree, paths: seq<string>)
    requires Plannable(profile, base, head, paths) && Bound(head.inventory.consumers)
    ensures var c := ContextOf(profile, base, head, paths);
            Within(Obligations(head.inventory.modules, Hosted(c)), Obligations(head.inventory.modules, Full(c))) <==>
              !(FindConsumer(head.inventory.consumers, LibraryDirectory).Some?
                && LibraryDirectory in Roots(base, head) && TouchedBy(paths, LibraryDirectory)
                && forall i :: 0 <= i < |paths| ==> !LibraryCode(paths[i]))
  {
    hide Touches, LibraryCode, Bound, Obligations, RootInput, FindConsumer, ProperRecords, KeepsPhases, OwnerKnown,
         Placed;
    HostedWithinFull(head.inventory.modules, ContextOf(profile, base, head, paths));
  }
}
