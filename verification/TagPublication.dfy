/** Publication of a release tag (`publish_tag`, `GitHub.tag_sha`) by any number of publishers that
    race on a create-if-absent reference, where a create may fail with or without effect. */
module TagPublication {
  import opened Common

  /** What a reference points at: a commit, or annotated tag objects around one. */
  datatype GitObject = Commit(sha: string) | Annotated(inner: GitObject) | OtherKind

  /** The commit under all annotations. */
  function CommitUnder(obj: GitObject): Option<string> {
    match obj
    case Commit(sha) => Some(sha)
    case Annotated(inner) => CommitUnder(inner)
    case OtherKind => None
  }

  function Annotations(obj: GitObject): nat {
    if obj.Annotated? then 1 + Annotations(obj.inner) else 0
  }

  /** What `tag_sha` resolves: at most four annotations are followed. */
  function Resolve(obj: GitObject): Option<string> {
    if Annotations(obj) < 5 then CommitUnder(obj) else None
  }

  /** The bounded loop of `tag_sha`; `None` where it raises. */
  method Peel(obj: GitObject) returns (sha: Option<string>)
    ensures sha == Resolve(obj)
  {
    var current := obj;
    var i := 0;
    while i < 5
      invariant 0 <= i <= 5
      invariant CommitUnder(current) == CommitUnder(obj) && Annotations(current) + i == Annotations(obj)
    {
      if current.Commit? { return Some(current.sha); }
      if !current.Annotated? { return None; }
      current := current.inner;
      i := i + 1;
    }
    return None;
  }

  /** That many annotated tag objects around a commit. */
  function Annotate(times: nat, sha: string): GitObject {
    if times == 0 then Commit(sha) else Annotated(Annotate(times - 1, sha))
  }

  /** A tag resolves to a commit exactly when at most four annotations are around it. */
  lemma ResolveExact(obj: GitObject, sha: string)
    ensures Resolve(obj) == Some(sha) <==> exists times: nat :: times <= 4 && obj == Annotate(times, sha)
  {
    if CommitUnder(obj) == Some(sha) { Unwrap(obj, sha); }
    forall times: nat | obj == Annotate(times, sha)
      ensures CommitUnder(obj) == Some(sha) && Annotations(obj) == times
    {
      Wrap(times, sha);
    }
  }

  lemma {:induction false} Unwrap(obj: GitObject, sha: string)
    requires CommitUnder(obj) == Some(sha)
    ensures obj == Annotate(Annotations(obj), sha)
  {
    if obj.Annotated? { Unwrap(obj.inner, sha); }
  }

  lemma {:induction false} Wrap(times: nat, sha: string)
    ensures CommitUnder(Annotate(times, sha)) == Some(sha) && Annotations(Annotate(times, sha)) == times
  {
    if times > 0 { Wrap(times - 1, sha); }
  }

  // ---- the protocol -------------------------------------------------------------------------------

  /** Where a publisher is: before its first read, before listing the release history, before the
      create, in the handler of a failed create, before the final readback, or done. */
  datatype Pc = Start | Listing | Creating | Rereading | Confirming | Succeeded | Failed

  /** `clean`: no request of this publisher has failed in transport so far. */
  datatype Publisher = Publisher(sha: string, pc: Pc, clean: bool)

  /** `history`: the repository has earlier library releases. */
  datatype System = System(tag: Option<GitObject>, history: bool, publishers: map<nat, Publisher>)

  /** The reply to a request: it arrives, or it is lost before or after taking effect. */
  type Reply = Fault

  /** What a read of the tag tells: its commit, its absence, or nothing at all. */
  function TagSays(tag: Option<GitObject>, sha: string): bool {
    tag.Some? && Resolve(tag.value) == Some(sha)
  }

  /** Create-if-absent. */
  function AfterCreate(tag: Option<GitObject>, sha: string, reply: Reply): Option<GitObject> {
    if tag.None? && !reply.LostBefore? then Some(Commit(sha)) else tag
  }

  /** The program counter after one request. */
  function Advance(tag: Option<GitObject>, history: bool, p: Publisher, reply: Reply): Pc {
    match p.pc
    case Start =>
      if !reply.Fine? then Failed
      else if tag.None? then Listing
      else if TagSays(tag, p.sha) then Confirming else Failed
    case Listing => if reply.Fine? && history then Creating else Failed
    case Creating => if reply.Fine? && tag.None? then Confirming else Rereading
    case Rereading => if reply.Fine? && TagSays(tag, p.sha) then Confirming else Failed
    case Confirming => if reply.Fine? && TagSays(tag, p.sha) then Succeeded else Failed
    case Succeeded => Succeeded
    case Failed => Failed
  }

  /** One request of publisher `id`. */
  function Step(s: System, id: nat, reply: Reply): System
    requires id in s.publishers
  {
    var p := s.publishers[id];
    var moved := Publisher(p.sha, Advance(s.tag, s.history, p, reply), p.clean && reply.Fine?);
    System(if p.pc.Creating? then AfterCreate(s.tag, p.sha, reply) else s.tag, s.history, s.publishers[id := moved])
  }

  ghost predicate Next(s: System, s': System) {
    exists id, reply :: id in s.publishers && s' == Step(s, id, reply)
  }

  ghost predicate Initial(s: System) {
    forall id :: id in s.publishers ==> s.publishers[id].pc == Start && s.publishers[id].clean
  }

  /** An interleaving of any length. */
  ghost predicate Run(trace: seq<System>) {
    trace != [] && Initial(trace[0]) && forall i :: 0 <= i < |trace| - 1 ==> Next(trace[i], trace[i + 1])
  }

  /** What holds of each publisher at every moment. */
  ghost predicate Sound(s: System, p: Publisher) {
    && (p.pc in {Confirming, Succeeded} ==> TagSays(s.tag, p.sha))
    && (p.pc == Creating ==> s.history)
    && (p.pc == Rereading && p.clean ==> s.tag.Some?)
    && (p.pc == Failed && p.clean && s.history ==> s.tag.Some? && !TagSays(s.tag, p.sha))
  }

  ghost predicate Invariant(s: System) {
    forall id :: id in s.publishers ==> Sound(s, s.publishers[id])
  }

  lemma StepKeepsTag(s: System, id: nat, reply: Reply)
    requires id in s.publishers
    ensures s.tag.Some? ==> Step(s, id, reply).tag == s.tag
  {
  }

  lemma StepKeepsInvariant(s: System, id: nat, reply: Reply)
    requires id in s.publishers && Invariant(s)
    ensures Invariant(Step(s, id, reply))
  {
    var s' := Step(s, id, reply);
    forall other | other in s'.publishers ensures Sound(s', s'.publishers[other]) {
      assert Sound(s, s.publishers[other]);
    }
  }

  lemma {:induction false} InvariantHolds(trace: seq<System>, i: nat)
    requires Run(trace) && i < |trace|
    ensures Invariant(trace[i])
  {
    if i > 0 {
      InvariantHolds(trace, i - 1);
      assert Next(trace[i - 1], trace[i]);
      var id, reply :| id in trace[i - 1].publishers && trace[i] == Step(trace[i - 1], id, reply);
      StepKeepsInvariant(trace[i - 1], id, reply);
    }
  }

  /** A tag that is set never changes, whoever else publishes. */
  lemma {:induction false} TagIsImmutable(trace: seq<System>, i: nat, j: nat)
    requires Run(trace) && i <= j < |trace| && trace[i].tag.Some?
    ensures trace[j].tag == trace[i].tag
  {
    if i < j {
      TagIsImmutable(trace, i, j - 1);
      assert Next(trace[j - 1], trace[j]);
      var id, reply :| id in trace[j - 1].publishers && trace[j] == Step(trace[j - 1], id, reply);
      StepKeepsTag(trace[j - 1], id, reply);
    }
  }

  lemma {:induction false} PublishersPersist(trace: seq<System>, i: nat, j: nat, id: nat)
    requires Run(trace) && i <= j < |trace| && id in trace[i].publishers
    ensures id in trace[j].publishers && trace[j].publishers[id].sha == trace[i].publishers[id].sha
    ensures trace[i].publishers[id].pc in {Succeeded, Failed} ==>
              trace[j].publishers[id].pc == trace[i].publishers[id].pc
    ensures trace[j].history == trace[i].history
  {
    if i < j {
      PublishersPersist(trace, i, j - 1, id);
      assert Next(trace[j - 1], trace[j]);
    }
  }

  /** Every publisher that ever succeeds published the commit the tag has at the end of the run. */
  lemma SuccessIsTheTag(trace: seq<System>, i: nat, id: nat)
    requires Run(trace) && i < |trace| && id in trace[i].publishers && trace[i].publishers[id].pc == Succeeded
    ensures TagSays(trace[|trace| - 1].tag, trace[i].publishers[id].sha)
  {
    InvariantHolds(trace, i);
    assert Sound(trace[i], trace[i].publishers[id]);
    TagIsImmutable(trace, i, |trace| - 1);
  }

  /** Two publishers of different commits never both succeed, at whatever times. */
  lemma NoTwoWinners(trace: seq<System>, i: nat, id: nat, j: nat, id': nat)
    requires Run(trace) && i < |trace| && j < |trace|
    requires id in trace[i].publishers && trace[i].publishers[id].pc == Succeeded
    requires id' in trace[j].publishers && trace[j].publishers[id'].pc == Succeeded
    ensures trace[i].publishers[id].sha == trace[j].publishers[id'].sha
  {
    SuccessIsTheTag(trace, i, id);
    SuccessIsTheTag(trace, j, id');
  }

  /** Losing is never an accident: with release history, a finished publisher whose requests all
      got through succeeded if and only if the tag is its commit. */
  lemma CleanOutcomeIsExact(trace: seq<System>, i: nat, id: nat)
    requires Run(trace) && i < |trace| && trace[i].history && id in trace[i].publishers
    requires trace[i].publishers[id].clean && trace[i].publishers[id].pc in {Succeeded, Failed}
    ensures trace[i].tag.Some?
    ensures trace[i].publishers[id].pc == Succeeded <==> TagSays(trace[i].tag, trace[i].publishers[id].sha)
  {
    InvariantHolds(trace, i);
    assert Sound(trace[i], trace[i].publishers[id]);
  }

  /** The final readback never finds another commit: it can fail only in transport. */
  lemma ReadbackAgrees(trace: seq<System>, i: nat, id: nat, reply: Reply)
    requires Run(trace) && i < |trace| && id in trace[i].publishers && trace[i].publishers[id].pc == Confirming
    ensures Advance(trace[i].tag, trace[i].history, trace[i].publishers[id], reply) == Failed <==> !reply.Fine?
  {
    InvariantHolds(trace, i);
    assert Sound(trace[i], trace[i].publishers[id]);
  }

  /** A tag that appears during a run is the commit of one of its publishers, never anything else. */
  lemma {:induction false} TagHasAnAuthor(trace: seq<System>, i: nat)
    requires Run(trace) && i < |trace| && trace[0].tag.None? && trace[i].tag.Some?
    ensures exists id :: id in trace[i].publishers && trace[i].tag == Some(Commit(trace[i].publishers[id].sha))
  {
    if i > 0 {
      assert Next(trace[i - 1], trace[i]);
      var id, reply :| id in trace[i - 1].publishers && trace[i] == Step(trace[i - 1], id, reply);
      if trace[i - 1].tag.Some? {
        TagHasAnAuthor(trace, i - 1);
        var author :| author in trace[i - 1].publishers
                      && trace[i - 1].tag == Some(Commit(trace[i - 1].publishers[author].sha));
        PublishersPersist(trace, i - 1, i, author);
        StepKeepsTag(trace[i - 1], id, reply);
        assert trace[i].tag == Some(Commit(trace[i].publishers[author].sha));
      } else {
        assert trace[i].tag == Some(Commit(trace[i].publishers[id].sha));
      }
    }
  }

  /** A publisher makes at most five requests before it is done. */
  lemma ProgressMeasure(s: System, id: nat, reply: Reply)
    requires id in s.publishers && s.publishers[id].pc !in {Succeeded, Failed}
    ensures Remaining(Step(s, id, reply).publishers[id].pc) < Remaining(s.publishers[id].pc) <= 5
  {
  }

  function Remaining(pc: Pc): nat {
    match pc
    case Start => 5
    case Listing => 4
    case Creating => 3
    case Rereading => 2
    case Confirming => 1
    case Succeeded => 0
    case Failed => 0
  }

  // ---- the publisher as written -------------------------------------------------------------------------

  /** The remote repository, shared with publishers this one does not see. */
  class Remote {
    var tag: Option<GitObject>
    const history: bool

    constructor (tag: Option<GitObject>, history: bool)
      ensures this.tag == tag && this.history == history
    {
      this.tag, this.history := tag, history;
    }

    /** Anything the other publishers may do meanwhile. */
    method Others()
      modifies this
      ensures old(tag).Some? ==> tag == old(tag)
    {
      if tag.None? {
        var appeared: Option<GitObject> := *;
        tag := appeared;
      }
    }

    /** `tag_sha`: the tag's commit or its absence; `ok` is false where it raises. */
    method TagSha(reply: Reply) returns (ok: bool, sha: Option<string>)
      modifies this
      ensures old(tag).Some? ==> tag == old(tag)
      ensures ok <==> reply.Fine? && (tag.Some? ==> Resolve(tag.value).Some?)
      ensures ok ==> sha == if tag.None? then None else Resolve(tag.value)
    {
      Others();
      if !reply.Fine? { return false, None; }
      if tag.None? { return true, None; }
      sha := Peel(tag.value);
      ok := sha.Some?;
    }

    method Create(sha: string, reply: Reply) returns (ok: bool)
      modifies this
      ensures old(tag).Some? ==> tag == old(tag)
      ensures ok ==> tag == Some(Commit(sha))
      ensures !ok && reply.Fine? ==> tag.Some?
    {
      Others();
      ok := reply.Fine? && tag.None?;
      tag := AfterCreate(tag, sha, reply);
    }
  }

  /** `publish_tag`, with a reply for each request and other publishers between any two: success
      means that the tag is this commit, a tag that was set is never moved, and when every reply
      arrives the result is decided by the tag alone. */
  method PublishTag(remote: Remote, sha: string, replies: nat -> Reply) returns (ok: bool)
    modifies remote
    ensures old(remote.tag).Some? ==> remote.tag == old(remote.tag)
    ensures ok ==> TagSays(remote.tag, sha)
    ensures (forall k :: 0 <= k < 5 ==> replies(k).Fine?) && remote.history ==>
              remote.tag.Some? && (ok <==> TagSays(remote.tag, sha))
  {
    var existing;
    ok, existing := remote.TagSha(replies(0));
    if !ok { return false; }
    if existing.None? {
      if !replies(1).Fine? || !remote.history { return false; }
    } else if existing != Some(sha) {
      return false;
    }
    if existing.None? {
      ok := remote.Create(sha, replies(2));
      if !ok {
        ok, existing := remote.TagSha(replies(3));
        if !ok || existing != Some(sha) { return false; }
      }
    }
    ok, existing := remote.TagSha(replies(4));
    ok := ok && existing == Some(sha);
  }
}
