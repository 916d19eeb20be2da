/** The live context of a candidate validation (`Candidate`): it issues receipts for phases that were
    begun and ended while their target was being run, under identities fixed at its construction. */
module CandidateProtocol {
  import opened Common
  import opened Reconciliation

  datatype Receipt = Receipt(
    graph: seq<GraphRecord>, locks: string, alternateLocks: string, candidateSha: string,
    candidateManifest: string, candidateDirectory: string, manifest: string)

  /** What a verification finds: the locks, the library's and the consumer's sources, the alternate
      locks and the selected graph. */
  datatype Observed = Observed(
    locks: string, libraryManifest: string, source: string, alternateLocks: string, graph: seq<GraphRecord>)

  datatype Request = Request(token: string, phase: string, cwd: string, operation: string)

  /** A request, and what the verification that it triggers finds. */
  datatype Exchange = Exchange(value: Request, found: Observed)

  /** The Go tool is faithful about one thing: the main module of a graph is the one it was asked
      about. */
  predicate FaithfulMain(graph: seq<GraphRecord>, root: PosixPath) {
    FirstMain(graph).Some? ==> FirstMain(graph).value.dir == Text(root)
  }

  /** `verify`: what is found agrees with the identities, and the candidate is what is selected. */
  predicate Agrees(identity: Observed, library: PosixPath, alternate: PosixPath, found: Observed) {
    found == identity.(graph := found.graph) && SelectionVerified(found.graph, library, alternate)
  }

  // ---- traces ------------------------------------------------------------------------------------------

  /** A granted request and the number of the target group it was granted in. */
  datatype Event = Event(operation: string, phase: string, group: nat)

  /** The trace of a context: which phases were begun and ended, in which of the groups. */
  ghost predicate Protocol(log: seq<Event>, groups: seq<set<string>>, started: set<string>, receipted: set<string>) {
    && (forall i :: 0 <= i < |log| ==> InGroup(log[i], groups))
    && (forall i, j :: 0 <= i < j < |log| ==>
          (log[i].operation, log[i].phase) != (log[j].operation, log[j].phase) && log[i].group <= log[j].group)
    && (forall p :: p in started <==> Happened(log, |log|, "begin", p))
    && (forall p :: p in receipted <==> Happened(log, |log|, "end", p))
    && (forall j :: 0 <= j < |log| && log[j].operation == "end" ==> Happened(log, j, "begin", log[j].phase))
  }

  ghost predicate InGroup(e: Event, groups: seq<set<string>>) {
    e.group < |groups| && e.phase in groups[e.group] && e.operation in {"begin", "end"}
  }

  ghost predicate Happened(log: seq<Event>, n: nat, operation: string, phase: string)
    requires n <= |log|
  {
    exists i :: 0 <= i < n && Is(log[i], operation, phase)
  }

  predicate Is(e: Event, operation: string, phase: string) { e.operation == operation && e.phase == phase }

  ghost predicate Disjoint(groups: seq<set<string>>) {
    forall i, j :: 0 <= i < j < |groups| ==> groups[i] !! groups[j]
  }

  lemma HappenedAppend(log: seq<Event>, e: Event, operation: string, phase: string)
    ensures Happened(log + [e], |log| + 1, operation, phase) <==>
              Happened(log, |log|, operation, phase) || Is(e, operation, phase)
    ensures forall j: nat :: j <= |log| ==>
              (Happened(log + [e], j, operation, phase) <==> Happened(log, j, operation, phase))
  {
    var more := log + [e];
    assert forall i :: 0 <= i < |log| ==> more[i] == log[i];
    assert more[|log|] == e;
    if Happened(log, |log|, operation, phase) {
      var i :| 0 <= i < |log| && Is(log[i], operation, phase);
      assert Is(more[i], operation, phase);
    }
  }

  /** A granted request extends the trace. */
  lemma Granted(log: seq<Event>, groups: seq<set<string>>, started: set<string>, receipted: set<string>, e: Event)
    requires Protocol(log, groups, started, receipted) && InGroup(e, groups) && e.group == |groups| - 1
    requires e.operation == "begin" ==> e.phase !in started
    requires e.operation == "end" ==> e.phase in started && e.phase !in receipted
    ensures Protocol(log + [e], groups,
                     if e.operation == "begin" then started + {e.phase} else started,
                     if e.operation == "end" then receipted + {e.phase} else receipted)
  {
    hide Happened;
    var more := log + [e];
    forall p, operation | operation in {"begin", "end"}
      ensures Happened(more, |more|, operation, p) <==> Happened(log, |log|, operation, p) || Is(e, operation, p)
    {
      HappenedAppend(log, e, operation, p);
    }
    forall i | 0 <= i < |log|
      ensures (more[i].operation, more[i].phase) != (e.operation, e.phase) && more[i].group <= e.group
    {
      EventHappened(log, i);
      assert InGroup(log[i], groups);
    }
    forall j | 0 <= j < |more| && more[j].operation == "end" ensures Happened(more, j, "begin", more[j].phase) {
      HappenedAppend(log, e, "begin", more[j].phase);
    }
  }

  lemma EventHappened(log: seq<Event>, i: nat)
    requires i < |log|
    ensures Happened(log, |log|, log[i].operation, log[i].phase)
  {
    assert Is(log[i], log[i].operation, log[i].phase);
  }

  lemma NextGroup(log: seq<Event>, groups: seq<set<string>>, started: set<string>, receipted: set<string>,
                  group: set<string>)
    requires Protocol(log, groups, started, receipted)
    ensures Protocol(log, groups + [group], started, receipted)
  {
    hide Happened;
    forall i | 0 <= i < |log| ensures InGroup(log[i], groups + [group]) { assert InGroup(log[i], groups); }
  }

  /** When no phase is in two groups, every receipt is for a phase that was begun earlier in the same
      group, and both its events are the only ones of their kind. */
  lemma ReceiptWithinGroup(log: seq<Event>, groups: seq<set<string>>, started: set<string>, receipted: set<string>,
                           p: string)
    returns (i: nat, j: nat)
    requires Protocol(log, groups, started, receipted) && Disjoint(groups) && p in receipted
    ensures i < j < |log| && Is(log[i], "begin", p) && Is(log[j], "end", p) && log[i].group == log[j].group
    ensures forall k :: 0 <= k < |log| && log[k].phase == p ==> k == i || k == j
  {
    assert Happened(log, |log|, "end", p);
    j :| 0 <= j < |log| && Is(log[j], "end", p);
    assert Happened(log, j, "begin", p);
    i :| 0 <= i < j && Is(log[i], "begin", p);
    assert InGroup(log[i], groups) && InGroup(log[j], groups);
    assert forall k :: 0 <= k < |log| ==> InGroup(log[k], groups);
  }

  // ---- the context -------------------------------------------------------------------------------------

  class Candidate {
    const root: PosixPath
    const library: PosixPath
    const alternate: PosixPath
    const head: string
    const token: string
    const original: string              // the consumer's locks
    const libraryManifest: string
    const source: string
    const alternateLocks: string
    var receipts: map<string, Receipt>
    var active: set<string>
    var started: set<string>
    ghost var log: seq<Event>
    ghost var groups: seq<set<string>>

    constructor (root: PosixPath, library: PosixPath, head: string, token: string, found: Observed)
      ensures Valid() && receipts == map[] && groups == [{}] && Disjoint(groups) && Used() == {}
      ensures this.token == token
      ensures this.root == root && this.library == library && this.head == head
      ensures alternate == Under(root, "candidate.mod")
      ensures original == found.locks && libraryManifest == found.libraryManifest && source == found.source
      ensures alternateLocks == found.alternateLocks
    {
      this.root, this.library, this.head, this.token := root, library, head, token;
      alternate := Under(root, "candidate.mod");
      original, libraryManifest, source, alternateLocks :=
        found.locks, found.libraryManifest, found.source, found.alternateLocks;
      receipts, active, started := map[], {}, {};
      log, groups := [], [{}];
    }

    /** The receipt for a graph: everything else in it is fixed at construction. */
    function ReceiptFor(graph: seq<GraphRecord>): Receipt {
      Receipt(graph, original, alternateLocks, head, libraryManifest, Text(library), source)
    }

    predicate Genuine(r: Receipt) {
      r == ReceiptFor(r.graph) && SelectionVerified(r.graph, library, alternate) && FaithfulMain(r.graph, root)
    }

    /** The phases of all groups so far. */
    ghost function Used(): set<string> reads this`groups {
      set g, p | g in groups && p in g :: p
    }

    ghost predicate Valid() reads this {
      && groups != [] && active == groups[|groups| - 1]
      && Protocol(log, groups, started, receipts.Keys)
      && forall p :: p in receipts ==> Genuine(receipts[p])
    }

    function Identity(): Observed { Observed(original, libraryManifest, source, alternateLocks, []) }

    /** `verify` on what it finds. */
    predicate Verified(found: Observed) { Agrees(Identity(), library, alternate, found) }

    predicate Proper(e: Exchange, operation: string, phase: string) {
      e.value == Request(token, phase, Text(root), operation) && Verified(e.found)
    }

    /** The phase is properly begun, and later properly ended, among the first `n` requests. */
    ghost predicate Completed(script: seq<Exchange>, n: nat, phase: string)
      requires n <= |script|
    {
      exists j :: 0 <= j < n && Proper(script[j], "end", phase) && Begun(script, j, phase)
    }

    ghost predicate Begun(script: seq<Exchange>, n: nat, phase: string)
      requires n <= |script|
    {
      exists i :: 0 <= i < n && Proper(script[i], "begin", phase)
    }

    predicate Acceptable(value: Request, found: Observed) reads this`active, this`started, this`receipts {
      && value.token == token && value.phase in active && value.cwd == Text(root)
      && value.operation in {"begin", "end"} && Verified(found)
      && (value.operation == "begin" ==> value.phase !in started)
      && (value.operation == "end" ==> value.phase in started && value.phase !in receipts)
    }

    /** `request`: a refused request changes nothing; a granted one starts a phase of the active group
        once, or writes the one receipt of a started phase. */
    method Handle(value: Request, found: Observed) returns (granted: bool)
      requires Valid() && FaithfulMain(found.graph, root)
      modifies this`receipts, this`started, this`log
      ensures Valid()
      ensures granted <==> old(Acceptable(value, found))
      // whoever is granted anything knows the token, asks from the consumer's directory for a phase of the
      // active group, and the locks and sources are still those of construction
      ensures granted ==>
                && value.token == token && value.phase in active && value.cwd == Text(root)
                && found.locks == original && found.libraryManifest == libraryManifest && found.source == source
                && found.alternateLocks == alternateLocks && SelectionVerified(found.graph, library, alternate)
      ensures !granted ==> receipts == old(receipts) && started == old(started) && log == old(log)
      ensures granted ==> log == old(log) + [Event(value.operation, value.phase, |groups| - 1)]
      ensures granted && value.operation == "begin" ==>
                started == old(started) + {value.phase} && receipts == old(receipts)
      ensures granted && value.operation == "end" ==>
                started == old(started) && receipts == old(receipts)[value.phase := ReceiptFor(found.graph)]
    {
      hide Protocol, SelectionVerified, FaithfulMain;
      if value.token != token || value.phase !in active { return false; }
      if value.cwd != Text(root) { return false; }
      if value.operation !in {"begin", "end"} { return false; }
      if !Verified(found) { return false; }
      ghost var e := Event(value.operation, value.phase, |groups| - 1);
      if value.operation == "begin" {
        if value.phase in started { return false; }
        Granted(log, groups, started, receipts.Keys, e);
        started := started + {value.phase};
      }
      if value.operation == "end" {
        if value.phase !in started || value.phase in receipts { return false; }
        Granted(log, groups, started, receipts.Keys, e);
        assert (receipts[value.phase := ReceiptFor(found.graph)]).Keys == receipts.Keys + {value.phase};
        receipts := receipts[value.phase := ReceiptFor(found.graph)];
      }
      log := log + [e];
      return true;
    }

    /** The controller moves on to the next target's phases. */
    method Activate(phases: set<string>)
      requires Valid()
      modifies this`active, this`groups
      ensures Valid() && active == phases && groups == old(groups) + [phases]
      ensures Used() == old(Used()) + phases
      ensures old(Disjoint(groups)) && old(Used()) !! phases ==> Disjoint(groups)
    {
      hide Protocol;
      NextGroup(log, groups, started, receipts.Keys, phases);
      forall i | 0 <= i < |groups| && groups[i] <= Used() && Used() !! phases ensures groups[i] !! phases {}
      ghost var before := groups;
      active := phases;
      groups := groups + [phases];
      assert forall i :: 0 <= i < |before| ==> groups[i] == before[i];
      assert forall g :: g in groups <==> g in before || g == phases;
    }

    ghost predicate Ended(script: seq<Exchange>, n: nat, phase: string)
      requires n <= |script|
    {
      exists j :: 0 <= j < n && Proper(script[j], "end", phase)
    }

    /** The event is a proper request among the first `n`. */
    ghost predicate Requested(script: seq<Exchange>, n: nat, e: Event)
      requires n <= |script|
    {
      exists j :: 0 <= j < n && Proper(script[j], e.operation, e.phase)
    }

    /** The receipt was written by a proper request for the end of the phase. */
    ghost predicate WrittenBy(script: seq<Exchange>, n: nat, phase: string, receipt: Receipt)
      requires n <= |script|
    {
      exists j :: 0 <= j < n && Proper(script[j], "end", phase) && receipt == ReceiptFor(script[j].found.graph)
    }

    /** While a target runs, its adapters may send any requests.  Receipts are only added, and every
        event, every start and every receipt is the work of proper requests: a phase of the group is
        started exactly when it is begun, and has a receipt exactly when it is ended after that. */
    method Serve(script: seq<Exchange>)
      requires Valid() && forall i :: 0 <= i < |script| ==> FaithfulMain(script[i].found.graph, root)
      modifies this`receipts, this`started, this`log
      ensures Valid()
      ensures old(log) <= log
      ensures forall k :: |old(log)| <= k < |log| ==> Requested(script, |script|, log[k])
      ensures forall p :: p in started <==> p in old(started) || (p in active && Begun(script, |script|, p))
      ensures forall p :: p in old(receipts) ==> p in receipts && receipts[p] == old(receipts[p])
      ensures forall p :: p in receipts <==>
                p in old(receipts)
                || (p in active
                    && (Completed(script, |script|, p) || (p in old(started) && Ended(script, |script|, p))))
      ensures forall p :: p in receipts && p !in old(receipts) ==> WrittenBy(script, |script|, p, receipts[p])
    {
      hide Protocol, Candidate.Genuine, Candidate.Verified, FaithfulMain, Text;
      for i := 0 to |script|
        invariant Valid() && old(log) <= log
        invariant forall k :: |old(log)| <= k < |log| ==> Requested(script, i, log[k])
        invariant forall p :: p in started <==> p in old(started) || (p in active && Begun(script, i, p))
        invariant forall p :: p in old(receipts) ==> p in receipts && receipts[p] == old(receipts[p])
        invariant forall p :: p in receipts <==>
                    p in old(receipts)
                    || (p in active && (Completed(script, i, p) || (p in old(started) && Ended(script, i, p))))
        invariant forall p :: p in receipts && p !in old(receipts) ==> WrittenBy(script, i, p, receipts[p])
      {
        hide Candidate.Begun, Candidate.Ended, Candidate.Completed, Candidate.WrittenBy, Candidate.Requested;
        var e := script[i];
        ghost var before, events := receipts, log;
        var granted := Handle(e.value, e.found);
        NextExchange(script, i);
        assert granted ==> Proper(e, e.value.operation, e.value.phase);
        forall k | |old(log)| <= k < |log| ensures Requested(script, i + 1, log[k]) {
          if k < |events| { assert log[k] == events[k]; }
        }
      }
    }

    /** What one more exchange adds. */
    lemma NextExchange(script: seq<Exchange>, i: nat)
      requires i < |script|
      ensures forall p :: Begun(script, i + 1, p) <==> Begun(script, i, p) || Proper(script[i], "begin", p)
      ensures forall p :: Ended(script, i + 1, p) <==> Ended(script, i, p) || Proper(script[i], "end", p)
      ensures forall p :: Completed(script, i + 1, p) <==>
                Completed(script, i, p) || (Proper(script[i], "end", p) && Begun(script, i, p))
      ensures forall p, r :: WrittenBy(script, i + 1, p, r) <==>
                WrittenBy(script, i, p, r) || (Proper(script[i], "end", p) && r == ReceiptFor(script[i].found.graph))
      ensures forall e :: Requested(script, i + 1, e) <==>
                Requested(script, i, e) || Proper(script[i], e.operation, e.phase)
    {
      hide Candidate.Proper;
      forall p, r | WrittenBy(script, i + 1, p, r)
        ensures WrittenBy(script, i, p, r) || (Proper(script[i], "end", p) && r == ReceiptFor(script[i].found.graph))
      {
        var j :| 0 <= j < i + 1 && Proper(script[j], "end", p) && r == ReceiptFor(script[j].found.graph);
      }
      forall p | Completed(script, i + 1, p)
        ensures Completed(script, i, p) || (Proper(script[i], "end", p) && Begun(script, i, p))
      {
        var j :| 0 <= j < i + 1 && Proper(script[j], "end", p) && Begun(script, j, p);
      }
    }
  }

  /** Whatever was started belongs to a group so far. */
  lemma StartedIsUsed(candidate: Candidate)
    requires candidate.Valid()
    ensures candidate.started <= candidate.Used() && candidate.receipts.Keys <= candidate.Used()
  {
    var log, groups := candidate.log, candidate.groups;
    forall p | p in candidate.started ensures p in candidate.Used() {
      assert Happened(log, |log|, "begin", p);
      var i :| 0 <= i < |log| && Is(log[i], "begin", p);
      assert InGroup(log[i], groups);
      assert groups[log[i].group] in groups;
    }
    forall p | p in candidate.receipts ensures p in candidate.Used() {
      assert Happened(log, |log|, "end", p);
      var i :| 0 <= i < |log| && Is(log[i], "end", p);
      assert InGroup(log[i], groups);
      assert groups[log[i].group] in groups;
    }
  }
}
