/** The reports of a validation and their reconciliation with the plan (`reconcile`). */
module Reconciliation {
  import opened Common
  import opened Sorting
  import opened Paths
  import opened Registration
  import opened Planner
  import opened PlanProperties

  // ---- paths and module graphs ---------------------------------------------------------------------------

  datatype PosixPath = PosixPath(absolute: bool, parts: seq<string>)

  function Parse(s: string): PosixPath { PosixPath(Absolute(s), Parts(s)) }

  function Text(p: PosixPath): string { if p.absolute then "/" + Join(p.parts) else Posix(p.parts) }

  function Under(p: PosixPath, name: string): PosixPath { p.(parts := p.parts + [name]) }

  datatype Replacement = Replacement(dir: string, goMod: string)

  /** A record of `go list -m -json all`; absent fields are empty. */
  datatype GraphRecord = GraphRecord(path: string, main: bool, dir: string, goMod: string, replace: Option<Replacement>)

  function FirstMain(graph: seq<GraphRecord>): Option<GraphRecord> {
    if graph == [] then None else if graph[0].main then Some(graph[0]) else FirstMain(graph[1..])
  }

  function FirstNamed(graph: seq<GraphRecord>, path: string): (r: Option<GraphRecord>)
    ensures r.Some? ==> graph != []
  {
    if graph == [] then None else if graph[0].path == path then Some(graph[0]) else FirstNamed(graph[1..], path)
  }

  /** `verify_selection`: the library is taken from the candidate's directory and the alternate
      manifest is in force. */
  predicate SelectionVerified(graph: seq<GraphRecord>, candidate: PosixPath, alternate: PosixPath) {
    var record, main := FirstNamed(graph, LibraryModule), FirstMain(graph);
    && record.Some? && record.value.replace == Some(Replacement(Text(candidate), Text(Under(candidate, "go.mod"))))
    && main.Some? && main.value.goMod == Text(alternate)
  }

  // ---- reports -------------------------------------------------------------------------------------------

  /** A phase result; absent fields are empty. */
  datatype Report = Report(
    mod: string, phase: string, mode: string, target: string, base: string, head: string, status: string,
    manifest: string, locks: string, graph: seq<GraphRecord>,
    candidateSha: string, alternateLocks: string, candidateManifest: string, candidateDirectory: string)

  function ReportKey(r: Report): Key { Key(r.mod, r.phase, r.mode) }

  function ReportKeys(rs: seq<Report>): (ks: seq<Key>)
    ensures |ks| == |rs| && forall i :: 0 <= i < |rs| ==> ks[i] == ReportKey(rs[i])
  {
    seq(|rs|, i requires 0 <= i < |rs| => ReportKey(rs[i]))
  }

  function Wanted(os: seq<Obligation>): set<Key> { set o | o in os :: KeyOf(o) }

  /** `next(r for r in expected["obligations"] …)`. */
  function FirstWith(os: seq<Obligation>, k: Key): (o: Option<Obligation>)
    ensures o.Some? ==> o.value in os && KeyOf(o.value) == k
    ensures o.None? ==> k !in Wanted(os)
  {
    if os == [] then None
    else if KeyOf(os[0]) == k then Some(os[0])
    else
      assert forall o :: o in os ==> o == os[0] || o in os[1..];
      FirstWith(os[1..], k)
  }

  predicate MatchesIdentity(r: Report, p: Plan) {
    && r.base == p.base && r.head == p.head && r.status == "passed"
    && r.manifest != "" && r.locks != "" && r.graph != []
    && r.mod in p.inputs && p.inputs[r.mod] == Inputs(r.manifest, r.locks)
  }

  predicate EndsInLibrary(p: PosixPath) {
    p.absolute && |p.parts| >= 2 && p.parts[|p.parts| - 2..] == ["libs", "servicekit"]
  }

  predicate MatchesCandidate(r: Report, p: Plan) {
    var directory, main := Parse(r.candidateDirectory), FirstMain(r.graph);
    var root := Parse(if main.Some? then main.value.dir else "");
    && r.candidateSha == p.head && r.alternateLocks != "" && r.candidateManifest != ""
    && p.candidateManifest == Some(r.candidateManifest)
    && EndsInLibrary(directory)
    && SelectionVerified(r.graph, directory, Under(root, "candidate.mod"))
  }

  predicate NoReplacement(graph: seq<GraphRecord>) {
    forall i :: 0 <= i < |graph| ==> graph[i].path != LibraryModule || graph[i].replace.None?
  }

  /** The report answers an obligation of the plan, with the evidence its mode requires. */
  predicate Fits(r: Report, p: Plan) {
    var o := FirstWith(p.obligations, ReportKey(r));
    && o.Some? && r.target == o.value.target && MatchesIdentity(r, p)
    && (if r.mode == "candidate" then MatchesCandidate(r, p) else NoReplacement(r.graph))
  }

  /** What `reconcile` accepts: every report fits, and the reports answer the wanted keys, each
      exactly once. */
  ghost predicate Accepts(p: Plan, reports: seq<Report>) {
    && (forall i :: 0 <= i < |reports| ==> Fits(reports[i], p))
    && multiset(ReportKeys(reports)) == multiset(Wanted(p.obligations))
  }

  method Reconcile(p: Plan, reports: seq<Report>) returns (ok: bool)
    ensures ok <==> Accepts(p, reports)
  {
    hide Fits, MatchesIdentity, MatchesCandidate, Wanted;
    var wanted := Wanted(p.obligations);
    var seen: set<Key> := {};
    for i := 0 to |reports|
      invariant forall k :: 0 <= k < i ==> Fits(reports[k], p)
      invariant seen == set k | 0 <= k < i :: ReportKey(reports[k])
      invariant multiset(ReportKeys(reports[..i])) == multiset(seen)
    {
      var key := ReportKey(reports[i]);
      var prefix := ReportKeys(reports[..i]);
      assert ReportKeys(reports[..i + 1]) == prefix + [key];
      if key in seen {
        Repeated(reports, i, wanted);
        return false;
      }
      if !Fits(reports[i], p) { return false; }
      FitsWanted(reports[i], p);
      seen := seen + {key};
    }
    assert reports[..|reports|] == reports;
    ok := seen == wanted;
    SameSets(seen, wanted);
  }

  lemma FitsWanted(r: Report, p: Plan)
    requires Fits(r, p)
    ensures ReportKey(r) in Wanted(p.obligations)
  {
  }

  lemma SameSets(a: set<Key>, b: set<Key>)
    ensures multiset(a) == multiset(b) <==> a == b
  {
    if multiset(a) == multiset(b) {
      forall k ensures k in a <==> k in b { assert k in multiset(a) <==> k in multiset(b); }
    }
  }

  /** A key that occurs twice occurs once too often. */
  lemma Repeated(reports: seq<Report>, i: nat, wanted: set<Key>)
    requires i < |reports| && exists k :: 0 <= k < i && ReportKey(reports[k]) == ReportKey(reports[i])
    ensures multiset(ReportKeys(reports)) != multiset(wanted)
  {
    var k :| 0 <= k < i && ReportKey(reports[k]) == ReportKey(reports[i]);
    var ks := ReportKeys(reports);
    assert ks == ks[..i] + ([ks[i]] + ks[i + 1..]);
    assert ks[k] in ks[..i];
    assert multiset(ks[..i])[ks[i]] >= 1;
    assert multiset(ks)[ks[i]] >= 2;
  }

  // ---- what acceptance means -----------------------------------------------------------------------------

  /** For a plan with distinct keys, as every planned one is: acceptance is a one-to-one
      correspondence between reports and obligations in which every report fits. */
  lemma AcceptsExactly(p: Plan, reports: seq<Report>)
    requires Distinct(Keys(p.obligations))
    ensures Accepts(p, reports) <==>
              && (forall i :: 0 <= i < |reports| ==> Fits(reports[i], p))
              && multiset(ReportKeys(reports)) == multiset(Keys(p.obligations))
  {
    hide Fits;
    WantedOnce(p.obligations);
  }

  /** The index is that of the graph's first record of that path, or of its first main record. */
  predicate FirstPathAt(graph: seq<GraphRecord>, path: string, k: nat) {
    k < |graph| && graph[k].path == path && forall j :: 0 <= j < k ==> graph[j].path != path
  }

  predicate FirstMainAt(graph: seq<GraphRecord>, k: nat) {
    k < |graph| && graph[k].main && forall j :: 0 <= j < k ==> !graph[j].main
  }

  lemma {:induction false} NamedAt(graph: seq<GraphRecord>, path: string) returns (k: nat)
    requires FirstNamed(graph, path).Some?
    ensures FirstPathAt(graph, path, k) && graph[k] == FirstNamed(graph, path).value
  {
    if graph[0].path == path { return 0; }
    k := NamedAt(graph[1..], path);
    assert forall j :: 0 < j <= k ==> graph[j] == graph[1..][j - 1];
    k := k + 1;
  }

  lemma {:induction false} MainAt(graph: seq<GraphRecord>) returns (k: nat)
    requires FirstMain(graph).Some?
    ensures FirstMainAt(graph, k) && graph[k] == FirstMain(graph).value
  {
    if graph[0].main { return 0; }
    k := MainAt(graph[1..]);
    assert forall j :: 0 < j <= k ==> graph[j] == graph[1..][j - 1];
    k := k + 1;
  }

  /** What an accepted report is evidence of: an obligation of the plan passed at its target, on the
      plan's commits, with the module's planned manifest and locks. */
  lemma AcceptedEvidence(p: Plan, reports: seq<Report>, i: nat) returns (o: Obligation)
    requires Accepts(p, reports) && i < |reports|
    ensures var r := reports[i];
            && o in p.obligations && o == Obligation(r.mod, r.phase, r.mode, r.target)
            && r.status == "passed" && r.base == p.base && r.head == p.head && r.graph != []
            && r.mod in p.inputs && p.inputs[r.mod].manifest == r.manifest != ""
            && p.inputs[r.mod].locks == r.locks != ""
    ensures var r := reports[i];
            r.mode != "candidate" ==>
              forall k :: 0 <= k < |r.graph| && r.graph[k].path == LibraryModule ==> r.graph[k].replace.None?
  {
    hide FirstWith, Wanted;
    assert Fits(reports[i], p);
    o := FirstWith(p.obligations, ReportKey(reports[i])).value;
  }

  /** An accepted candidate report used the library of the head commit: its graph takes the library's
      first record from a directory of that name, with the manifest there, and its first main module
      is built with the alternate manifest in its own directory. */
  lemma CandidateEvidence(p: Plan, reports: seq<Report>, i: nat) returns (k: nat, j: nat)
    requires Accepts(p, reports) && i < |reports| && reports[i].mode == "candidate"
    ensures var r := reports[i];
            && r.candidateSha == p.head && p.candidateManifest == Some(r.candidateManifest)
            && r.candidateManifest != "" && r.alternateLocks != ""
    ensures var r := reports[i]; var directory := Parse(r.candidateDirectory);
            && directory.absolute && |directory.parts| >= 2
            && directory.parts[|directory.parts| - 2] == "libs"
            && directory.parts[|directory.parts| - 1] == "servicekit"
            && FirstPathAt(r.graph, LibraryModule, k) && r.graph[k].replace.Some?
            && r.graph[k].replace.value.dir == Text(directory)
            && r.graph[k].replace.value.goMod == Text(directory.(parts := directory.parts + ["go.mod"]))
    ensures var r := reports[i];
            && FirstMainAt(r.graph, j)
            && var root := Parse(r.graph[j].dir);
               r.graph[j].goMod == Text(root.(parts := root.parts + ["candidate.mod"]))
  {
    hide FirstWith, Wanted, FirstNamed, FirstMain, Text, Parts, MatchesIdentity;
    assert Fits(reports[i], p);
    k := NamedAt(reports[i].graph, LibraryModule);
    j := MainAt(reports[i].graph);
    var parts := Parse(reports[i].candidateDirectory).parts;
    assert parts[|parts| - 2..][0] == "libs" && parts[|parts| - 2..][1] == "servicekit";
  }

  lemma WantedOnce(os: seq<Obligation>)
    requires Distinct(Keys(os))
    ensures multiset(Keys(os)) == multiset(Wanted(os))
  {
    DistinctMultiset(Keys(os));
    WantedIsKeys(os);
  }

  lemma WantedIsKeys(os: seq<Obligation>)
    ensures Wanted(os) == set k | k in Keys(os)
  {
    forall k | k in Keys(os) ensures k in Wanted(os) {
      var i :| 0 <= i < |os| && Keys(os)[i] == k;
      assert os[i] in os;
    }
    forall k | k in Wanted(os) ensures k in Keys(os) {
      var i :| 0 <= i < |os| && KeyOf(os[i]) == k;
      assert Keys(os)[i] == k;
    }
  }

  lemma {:induction false} KeysOfSame(rs: seq<Report>, ts: seq<Report>)
    requires multiset(rs) == multiset(ts)
    ensures multiset(ReportKeys(rs)) == multiset(ReportKeys(ts))
  {
    hide Without;
    if rs == [] {
      assert |ts| == |multiset(ts)| == 0;
    } else {
      assert rs[0] in multiset(ts);
      var j :| 0 <= j < |ts| && ts[j] == rs[0];
      DropSame(rs, ts, j);
      KeysOfSame(rs[1..], Without(ts, j));
      assert ReportKeys(rs)[1..] == ReportKeys(rs[1..]);
      KeysWithout(ts, j);
      DropSame(ReportKeys(rs), ReportKeys(ts), j);
    }
  }

  lemma KeysWithout(ts: seq<Report>, j: nat)
    requires j < |ts|
    ensures ReportKeys(Without(ts, j)) == Without(ReportKeys(ts), j)
  {
  }

  /** Acceptance does not depend on the order of the reports. */
  lemma AcceptanceIgnoresOrder(p: Plan, rs: seq<Report>, ts: seq<Report>)
    requires multiset(rs) == multiset(ts)
    ensures Accepts(p, rs) <==> Accepts(p, ts)
  {
    hide Fits;
    KeysOfSame(rs, ts);
    assert forall r :: r in rs <==> r in multiset(rs);
    assert forall r :: r in ts <==> r in multiset(ts);
    assert (forall i :: 0 <= i < |rs| ==> Fits(rs[i], p)) <==> forall r :: r in rs ==> Fits(r, p);
    assert (forall i :: 0 <= i < |ts| ==> Fits(ts[i], p)) <==> forall r :: r in ts ==> Fits(r, p);
  }

  // ---- slices --------------------------------------------------------------------------------------------

  function Only(os: seq<Obligation>, m: string): (r: seq<Obligation>)
    ensures forall o :: o in r <==> o in os && o.mod == m
  {
    if os == [] then []
    else
      assert os == [os[0]] + os[1..];
      (if os[0].mod == m then [os[0]] else []) + Only(os[1..], m)
  }

  function OnlyReports(rs: seq<Report>, m: string): (r: seq<Report>)
    ensures forall x :: x in r <==> x in rs && x.mod == m
  {
    if rs == [] then []
    else
      assert rs == [rs[0]] + rs[1..];
      (if rs[0].mod == m then [rs[0]] else []) + OnlyReports(rs[1..], m)
  }

  /** `release_module_expected`: one module's share of the plan; without a value it raises. */
  function Slice(p: Plan, m: string): (r: Option<Plan>)
    ensures r.Some? <==> m in Modules(p.obligations) && m in p.inputs
  {
    if Only(p.obligations, m) == [] then
      assert m !in Modules(p.obligations);
      None
    else
      assert Only(p.obligations, m)[0] in Only(p.obligations, m);
      if m !in p.inputs then None
      else Some(p.(obligations := Only(p.obligations, m), inputs := map[m := p.inputs[m]]))
  }

  lemma {:induction false} FirstInSlice(os: seq<Obligation>, m: string, k: Key)
    ensures FirstWith(Only(os, m), k) == if k.mod == m then FirstWith(os, k) else None
  {
    if os != [] {
      FirstInSlice(os[1..], m, k);
      if os[0].mod == m { assert Only(os, m)[1..] == Only(os[1..],
                                                          m); } else { assert Only(os, m) == Only(os[1..], m); }
    }
  }

  /** A report fits the plan exactly when it fits its module's share. */
  lemma FitsInSlice(p: Plan, m: string, r: Report)
    requires Slice(p, m).Some?
    ensures Fits(r, Slice(p, m).value) <==> r.mod == m && Fits(r, p)
  {
    hide MatchesCandidate, NoReplacement, FirstWith;
    FirstInSlice(p.obligations, m, ReportKey(r));
    assert MatchesCandidate(r, Slice(p, m).value) <==> MatchesCandidate(r, p) by { CandidateInSlice(p, m, r); }
  }

  lemma CandidateInSlice(p: Plan, m: string, r: Report)
    requires Slice(p, m).Some?
    ensures MatchesCandidate(r, Slice(p, m).value) <==> MatchesCandidate(r, p)
  {
    hide SelectionVerified, EndsInLibrary;
  }

  lemma {:induction false} KeysInSlice(rs: seq<Report>, m: string, k: Key)
    ensures multiset(ReportKeys(OnlyReports(rs, m)))[k] == if k.mod == m then multiset(ReportKeys(rs))[k] else 0
  {
    if rs == [] {
      assert OnlyReports(rs, m) == [];
      assert ReportKeys([]) == [];
    } else {
      hide ReportKeys;
      var rest := OnlyReports(rs[1..], m);
      KeysInSlice(rs[1..], m, k);
      KeysCons(rs[0], rs[1..]);
      KeysCons(rs[0], rest);
      assert rs == [rs[0]] + rs[1..];
      CountCons(ReportKey(rs[0]), ReportKeys(rs[1..]), k);
      CountCons(ReportKey(rs[0]), ReportKeys(rest), k);
      assert OnlyReports(rs, m) == (if rs[0].mod == m then [rs[0]] else []) + rest;
      assert [] + rest == rest;
    }
  }

  lemma KeysCons(r: Report, rs: seq<Report>)
    ensures ReportKeys([r] + rs) == [ReportKey(r)] + ReportKeys(rs)
  {
  }

  ghost predicate AllPlanned(p: Plan, reports: seq<Report>) {
    forall i :: 0 <= i < |reports| ==> reports[i].mod in Modules(p.obligations)
  }

  ghost predicate SliceAccepts(p: Plan, reports: seq<Report>, m: string) {
    Slice(p, m).Some? && Accepts(Slice(p, m).value, OnlyReports(reports, m))
  }

  /** A plan is accepted exactly when all its report modules are planned and every module's share is
      accepted with the module's own reports. */
  lemma AcceptanceSplits(p: Plan, reports: seq<Report>)
    requires Modules(p.obligations) <= p.inputs.Keys
    ensures Accepts(p, reports) <==>
              AllPlanned(p, reports) && forall m :: m in Modules(p.obligations) ==> SliceAccepts(p, reports, m)
  {
    hide Fits, Slice, Only, OnlyReports, ReportKeys;
    if Accepts(p, reports) {
      forall i | 0 <= i < |reports| ensures reports[i].mod in Modules(p.obligations) {
        FitsPlanned(reports[i], p);
      }
      forall m | m in Modules(p.obligations) ensures SliceAccepts(p, reports, m) {
        AcceptedShare(p, reports, m);
      }
    }
    if AllPlanned(p, reports) && forall m :: m in Modules(p.obligations) ==> SliceAccepts(p, reports, m) {
      forall i | 0 <= i < |reports| ensures Fits(reports[i], p) { FitsByShare(p, reports, i); }
      forall k ensures multiset(ReportKeys(reports))[k] == multiset(Wanted(p.obligations))[k] {
        CountedByShare(p, reports, k);
      }
    }
  }

  lemma FitsPlanned(r: Report, p: Plan)
    requires Fits(r, p)
    ensures r.mod in Modules(p.obligations)
  {
    hide MatchesIdentity, MatchesCandidate, NoReplacement;
    var o := FirstWith(p.obligations, ReportKey(r)).value;
    assert o.mod == r.mod;
  }

  lemma SliceObligations(p: Plan, m: string)
    requires Slice(p, m).Some?
    ensures Slice(p, m).value.obligations == Only(p.obligations, m)
  {
  }

  lemma WantedInSlice(os: seq<Obligation>, m: string, k: Key)
    ensures multiset(Wanted(Only(os, m)))[k] == if k.mod == m then multiset(Wanted(os))[k] else 0
  {
    hide Only;
    if k.mod == m && k in Wanted(os) {
      var o :| o in os && KeyOf(o) == k;
      assert o in Only(os, m);
    }
  }

  lemma AcceptedShare(p: Plan, reports: seq<Report>, m: string)
    requires Modules(p.obligations) <= p.inputs.Keys && m in Modules(p.obligations) && Accepts(p, reports)
    ensures SliceAccepts(p, reports, m)
  {
    hide Fits, Slice, Only, OnlyReports, ReportKeys, Wanted;
    var s, rs := Slice(p, m).value, OnlyReports(reports, m);
    SliceObligations(p, m);
    forall i | 0 <= i < |rs| ensures Fits(rs[i], s) {
      assert rs[i] in rs;
      FitsInSlice(p, m, rs[i]);
    }
    forall k ensures multiset(ReportKeys(rs))[k] == multiset(Wanted(s.obligations))[k] {
      KeysInSlice(reports, m, k);
      WantedInSlice(p.obligations, m, k);
    }
  }

  lemma FitsByShare(p: Plan, reports: seq<Report>, i: nat)
    requires i < |reports| && SliceAccepts(p, reports, reports[i].mod)
    ensures Fits(reports[i], p)
  {
    hide Fits, Slice, OnlyReports, ReportKeys, Wanted;
    var m := reports[i].mod;
    var rs := OnlyReports(reports, m);
    assert reports[i] in rs;
    var j :| 0 <= j < |rs| && rs[j] == reports[i];
    FitsInSlice(p, m, rs[j]);
  }

  lemma CountedByShare(p: Plan, reports: seq<Report>, k: Key)
    requires AllPlanned(p, reports) && forall m :: m in Modules(p.obligations) ==> SliceAccepts(p, reports, m)
    ensures multiset(ReportKeys(reports))[k] == multiset(Wanted(p.obligations))[k]
  {
    hide Fits, Slice, Only, OnlyReports;
    if k.mod in Modules(p.obligations) {
      SliceObligations(p, k.mod);
      KeysInSlice(reports, k.mod, k);
      WantedInSlice(p.obligations, k.mod, k);
      assert SliceAccepts(p, reports, k.mod);
    } else {
      assert k !in ReportKeys(reports);
      assert k !in Wanted(p.obligations);
    }
  }
}
