/** What `changed_lines` makes of a rendered edit script: its numbers are exact precisely when, in
    every Go file, no added text starts with `++` and no removed text starting with `--` stands
    before an addition of its hunk. */
module DiffNumbering {
  import opened Common
  import opened DiffText
  import opened UnifiedDiff

  predicate DashRemoval(op: Op) { op.Remove? && "--" <= op.text }

  predicate PlusAddition(op: Op) { op.Add? && "++" <= op.text }

  /** An addition whose line reads like a file header. */
  predicate HeaderLike(op: Op) { op.Add? && "++ b/" <= op.text }

  predicate NoneIn(ops: seq<Op>, p: Op -> bool) { forall i :: 0 <= i < |ops| ==> !p(ops[i]) }

  predicate NoneInHunks(segments: seq<Segment>, p: Op -> bool) {
    forall i :: 0 <= i < |segments| && segments[i].Hunk? ==> NoneIn(segments[i].ops, p)
  }

  /** No removal that looks like a file header stands before an addition. */
  predicate InOrder(ops: seq<Op>) {
    forall i, j :: 0 <= i < j < |ops| && DashRemoval(ops[i]) ==> !ops[j].Add?
  }

  predicate InOrderHunks(segments: seq<Segment>) {
    forall i :: 0 <= i < |segments| ==> InOrderSegment(segments[i])
  }

  predicate InOrderSegment(segment: Segment) { segment.Hunk? ==> InOrder(segment.ops) }

  /** The condition under which the numbers are exact. */
  predicate Legible(files: seq<FileDiff>) { forall k :: 0 <= k < |files| ==> LegibleFile(files[k]) }

  predicate LegibleFile(f: FileDiff) {
    Go(f.path) ==> NoneInHunks(f.segments, PlusAddition) && InOrderHunks(f.segments)
  }

  /** An addition whose line reads like the header of a Go file. */
  predicate GoHeader(op: Op) { HeaderLike(op) && Go(op.text[5..]) }

  predicate HasHunk(segments: seq<Segment>) { exists i :: 0 <= i < |segments| && segments[i].Hunk? }

  /** No hunk that adds such a line has a later hunk of the same file. */
  predicate StrayFree(segments: seq<Segment>) {
    forall i, j :: 0 <= i < j < |segments| && segments[i].Hunk? && segments[j].Hunk? ==>
      NoneIn(segments[i].ops, GoHeader)
  }

  /** In a file other than a Go file, no added line that reads like a Go file's header is followed by
      another hunk. */
  predicate NoStrayHeader(files: seq<FileDiff>) {
    forall k :: 0 <= k < |files| && !Go(files[k].path) ==> StrayFree(files[k].segments)
  }

  // ---- true positions and positions as read -----------------------------------------------------------

  function At(path: string, ns: seq<nat>): (r: seq<Coordinate>)
    ensures |r| == |ns| && forall i :: 0 <= i < |ns| ==> r[i] == (path, ns[i])
  {
    seq(|ns|, i requires 0 <= i < |ns| => (path, ns[i]))
  }

  /** The positions of the added lines when the hunk's first line is at `n`. */
  function Positions(ops: seq<Op>, n: nat): seq<nat> {
    if ops == [] then []
    else
      match ops[0]
      case Add(_) => [n] + Positions(ops[1..], n + 1)
      case Keep(_) => Positions(ops[1..], n + 1)
      case _ => Positions(ops[1..], n)
  }

  function SegmentPositions(segment: Segment, n: nat): seq<nat> {
    if segment.Hunk? then Positions(segment.ops, n) else []
  }

  function PositionsIn(segments: seq<Segment>, n: nat): seq<nat> {
    if segments == [] then []
    else SegmentPositions(segments[0], n) + PositionsIn(segments[1..], n + |NewOfSegment(segments[0])|)
  }

  function Truths(files: seq<FileDiff>): seq<Coordinate> {
    if files == [] then []
    else (if Go(files[0].path) then At(files[0].path, PositionsIn(files[0].segments, 1)) else []) + Truths(files[1..])
  }

  /** The line counter after a line that is not a plus addition. */
  function Next(op: Op, n: nat): nat {
    match op
    case NoNewline => n
    case Remove(text) => if "--" <= text then n + 1 else n
    case _ => n + 1
  }

  function Readings(ops: seq<Op>, n: nat): seq<nat> {
    if ops == [] then []
    else (if ops[0].Add? then [n] else []) + Readings(ops[1..], Next(ops[0], n))
  }

  function SegmentReadings(segment: Segment, n: nat): seq<nat>
    requires n >= 1
  {
    if segment.Hunk? then Readings(segment.ops, Start(n, |NewOf(segment.ops)|)) else []
  }

  function ReadingsIn(segments: seq<Segment>, n: nat): seq<nat>
    requires n >= 1
  {
    if segments == [] then []
    else SegmentReadings(segments[0], n) + ReadingsIn(segments[1..], n + |NewOfSegment(segments[0])|)
  }

  function AllReadings(files: seq<FileDiff>): seq<Coordinate> {
    if files == [] then []
    else
      (if Go(files[0].path) then At(files[0].path, ReadingsIn(files[0].segments, 1)) else []) + AllReadings(files[1..])
  }

  // ---- the log of a rendered script --------------------------------------------------------------------

  lemma {:induction false} LogAppend(a: seq<string>, b: seq<string>, s: State)
    ensures Log(a + b, s) == Log(a, s) + Log(b, End(a, s))
    ensures End(a + b, s) == End(b, End(a, s))
  {
    hide After, Recorded;
    if a == [] {
      assert a + b == b;
    } else {
      assert (a + b)[1..] == a[1..] + b;
      LogAppend(a[1..], b, After(s, a[0]));
    }
  }

  lemma BehindSign(sign: char, prefix: string, text: string)
    ensures [sign] + prefix <= [sign] + text <==> prefix <= text
  {
    var a, b := [sign] + prefix, [sign] + text;
    assert a[1..] == prefix && b[1..] == text;
    if prefix <= text { assert a <= b; }
    if a <= b { assert b[..|a|][1..] == text[..|prefix|]; }
  }

  lemma OpPrefixes(op: Op)
    ensures "+++ b/" <= OpLine(op) <==> HeaderLike(op)
    ensures "+++" <= OpLine(op) <==> PlusAddition(op)
    ensures "---" <= OpLine(op) <==> DashRemoval(op)
    ensures ("+" <= OpLine(op) <==> op.Add?) && ("-" <= OpLine(op) <==> op.Remove?)
    ensures "\\" <= OpLine(op) <==> op.NoNewline?
    ensures MatchHunk(OpLine(op)).None?
    ensures HeaderLike(op) ==> PlusAddition(op)
  {
    assert OpLine(op)[0] != '@';
    assert "+++ b/" == ['+'] + "++ b/" && "+++" == ['+'] + "++" && "---" == ['-'] + "--";
    if op.Add? {
      BehindSign('+', "++ b/", op.text);
      BehindSign('+', "++", op.text);
    }
    if op.Remove? { BehindSign('-', "--", op.text); }
    assert "++ b/"[..2] == "++";
  }

  lemma OpRead(op: Op, path: string, n: nat)
    requires !PlusAddition(op)
    ensures After(State(Some(path), Some(n)), OpLine(op)) == State(Some(path), Some(Next(op, n)))
    ensures Recorded(State(Some(path), Some(n)), OpLine(op)) == if op.Add? && Go(path) then [(path, n)] else []
  {
    hide Go, MatchHunk, OpLine;
    OpPrefixes(op);
  }

  lemma AtAppend(path: string, ns: seq<nat>, ms: seq<nat>)
    ensures At(path, ns + ms) == At(path, ns) + At(path, ms)
  {
  }

  lemma {:induction false} OpsRead(ops: seq<Op>, path: string, n: nat)
    requires NoneIn(ops, PlusAddition) && Go(path)
    ensures Log(OpLines(ops), State(Some(path), Some(n))) == At(path, Readings(ops, n))
    ensures End(OpLines(ops), State(Some(path), Some(n))).source == Some(path)
  {
    hide After, Recorded, OpLine, Go, PlusAddition, At, Next;
    var s := State(Some(path), Some(n));
    if ops == [] {
      assert At(path, []) == [];
    } else {
      OpRead(ops[0], path, n);
      OpsRead(ops[1..], path, Next(ops[0], n));
      assert OpLines(ops)[1..] == OpLines(ops[1..]);
      var now: seq<nat> := if ops[0].Add? then [n] else [];
      AtAppend(path, now, Readings(ops[1..], Next(ops[0], n)));
      assert At(path, now) == Recorded(s, OpLine(ops[0]));
    }
  }

  /** The counter of a Go file is off. */
  predicate Silent(s: State) { s.source.Some? && (Go(s.source.value) ==> s.number.None?) }

  lemma SilentStep(op: Op, s: State)
    requires Silent(s)
    ensures Silent(After(s, OpLine(op))) && Recorded(s, OpLine(op)) == []
    ensures !Go(s.source.value) && !GoHeader(op) ==> !Go(After(s, OpLine(op)).source.value)
  {
    hide Go, MatchHunk;
    OpPrefixes(op);
    if HeaderLike(op) { assert OpLine(op)[6..] == op.text[5..]; }
  }

  /** Nothing is recorded in a hunk of a file that is not a Go file. */
  lemma {:induction false} OpsForeign(ops: seq<Op>, s: State)
    requires Silent(s)
    ensures Log(OpLines(ops), s) == [] && Silent(End(OpLines(ops), s))
    ensures NoneIn(ops, GoHeader) && !Go(s.source.value) ==> !Go(End(OpLines(ops), s).source.value)
  {
    hide Go, OpLine, GoHeader, After, Recorded;
    if ops != [] {
      SilentStep(ops[0], s);
      OpsForeign(ops[1..], After(s, OpLine(ops[0])));
      assert OpLines(ops)[1..] == OpLines(ops[1..]);
    }
  }

  function PlainAdditions(ops: seq<Op>): nat {
    if ops == [] then 0 else (if ops[0].Add? && !PlusAddition(ops[0]) then 1 else 0) + PlainAdditions(ops[1..])
  }

  /** Whatever the state, only an addition without a plus is recorded. */
  lemma {:induction false} OpsBounded(ops: seq<Op>, s: State)
    ensures |Log(OpLines(ops), s)| <= PlainAdditions(ops)
  {
    hide MatchHunk, Go, OpLine, PlusAddition;
    if ops != [] {
      OpPrefixes(ops[0]);
      OpsBounded(ops[1..], After(s, OpLine(ops[0])));
      assert OpLines(ops)[1..] == OpLines(ops[1..]);
    }
  }

  function PlainAdditionsIn(segments: seq<Segment>): nat {
    if segments == [] then 0
    else (if segments[0].Hunk? then PlainAdditions(segments[0].ops) else 0) + PlainAdditionsIn(segments[1..])
  }

  lemma HeaderLineRead(before: nat, o: nat, after: nat, n: nat, heading: string, s: State)
    requires PlainHeading(heading)
    ensures After(s, Header(before, o, after, n, heading)) == State(s.source, Some(after))
    ensures Recorded(s, Header(before, o, after, n, heading)) == []
  {
    hide MatchHunk, Range, Go;
    HeaderRead(before, o, after, n, heading);
    assert Header(before, o, after, n, heading)[0] == '@';
  }

  lemma HunkRead(before: nat, o: nat, after: nat, n: nat, heading: string, ops: seq<Op>, rest: seq<string>, s: State)
    requires PlainHeading(heading)
    ensures var s1 := State(s.source, Some(after));
            && Log([Header(before, o, after, n, heading)] + OpLines(ops) + rest, s) ==
                 Log(OpLines(ops), s1) + Log(rest, End(OpLines(ops), s1))
            && End([Header(before, o, after, n, heading)] + OpLines(ops) + rest, s) ==
                 End(rest, End(OpLines(ops), s1))
  {
    hide After, Recorded, OpLines, Header;
    var h := Header(before, o, after, n, heading);
    HeaderLineRead(before, o, after, n, heading, s);
    assert [h] + OpLines(ops) + rest == [h] + (OpLines(ops) + rest);
    assert ([h] + (OpLines(ops) + rest))[1..] == OpLines(ops) + rest;
    LogAppend(OpLines(ops), rest, State(s.source, Some(after)));
  }

  predicate PlainHeadings(segments: seq<Segment>) {
    forall i :: 0 <= i < |segments| && segments[i].Hunk? ==> PlainHeading(segments[i].heading)
  }

  lemma {:induction false} SegmentsRead(segments: seq<Segment>, before: nat, after: nat, s: State)
    requires before >= 1 && after >= 1 && PlainHeadings(segments) && NoneInHunks(segments, PlusAddition)
    requires s.source.Some? && Go(s.source.value)
    ensures Log(SegmentLines(segments, before, after), s) == At(s.source.value, ReadingsIn(segments, after))
  {
    hide Go, Header, OpLines, Log, PlusAddition, PlainHeading, NoneIn, At, Readings, NewOf, OldCount;
    if segments == [] {
      LogEnds(s);
      assert At(s.source.value, []) == [];
    } else if segments[0].Skip? {
      SegmentsRead(segments[1..], before + |segments[0].lines|, after + |segments[0].lines|, s);
    } else {
      var Hunk(ops, heading) := segments[0];
      var o, n := OldCount(ops), |NewOf(ops)|;
      var s1 := State(s.source, Some(Start(after, n)));
      OpsRead(ops, s.source.value, Start(after, n));
      HunkRead(Start(before, o), o, Start(after, n), n, heading, ops,
               SegmentLines(segments[1..], before + o, after + n), s);
      SegmentsRead(segments[1..], before + o, after + n, End(OpLines(ops), s1));
      AtAppend(s.source.value, Readings(ops, Start(after, n)), ReadingsIn(segments[1..], after + n));
    }
  }

  lemma {:induction false} NoHunkNoLines(segments: seq<Segment>, before: nat, after: nat)
    requires before >= 1 && after >= 1 && !HasHunk(segments)
    ensures SegmentLines(segments, before, after) == []
  {
    if segments != [] {
      assert segments[0].Skip?;
      assert !HasHunk(segments[1..]) by { assert segments == [segments[0]] + segments[1..]; }
      NoHunkNoLines(segments[1..], before + |segments[0].lines|, after + |segments[0].lines|);
    }
  }

  lemma StrayFreeRest(segments: seq<Segment>)
    requires segments != [] && StrayFree(segments)
    ensures StrayFree(segments[1..])
    ensures segments[0].Hunk? && HasHunk(segments[1..]) ==> NoneIn(segments[0].ops, GoHeader)
  {
    hide NoneIn;
    var rest := segments[1..];
    if segments[0].Hunk? && HasHunk(rest) {
      var j :| 0 <= j < |rest| && rest[j].Hunk?;
      assert segments[j + 1].Hunk?;
    }
  }

  lemma {:induction false} SegmentsForeign(segments: seq<Segment>, before: nat, after: nat, s: State)
    requires before >= 1 && after >= 1 && PlainHeadings(segments) && StrayFree(segments)
    requires s.source.Some? && (HasHunk(segments) ==> !Go(s.source.value))
    ensures Log(SegmentLines(segments, before, after), s) == []
  {
    hide Go, Header, OpLines, Log, GoHeader, PlainHeading, NoneIn, StrayFree;
    if !HasHunk(segments) {
      NoHunkNoLines(segments, before, after);
      LogEnds(s);
    } else {
      var rest := segments[1..];
      StrayFreeRest(segments);
      assert segments[0].Hunk? || HasHunk(rest) by { assert segments == [segments[0]] + rest; }
      if segments[0].Skip? {
        SegmentsForeign(rest, before + |segments[0].lines|, after + |segments[0].lines|, s);
      } else {
        var Hunk(ops, heading) := segments[0];
        var o, n := OldCount(ops), |NewOf(ops)|;
        var s1 := State(s.source, Some(Start(after, n)));
        OpsForeign(ops, s1);
        HunkRead(Start(before, o), o, Start(after, n), n, heading, ops, SegmentLines(rest, before + o, after + n), s);
        SegmentsForeign(rest, before + o, after + n, End(OpLines(ops), s1));
      }
    }
  }

  lemma {:induction false} SegmentsBounded(segments: seq<Segment>, before: nat, after: nat, s: State)
    requires before >= 1 && after >= 1 && PlainHeadings(segments)
    ensures |Log(SegmentLines(segments, before, after), s)| <= PlainAdditionsIn(segments)
  {
    hide Header, OpLines, Log, PlainHeading;
    if segments == [] {
      LogEnds(s);
    } else if segments[0].Skip? {
      SegmentsBounded(segments[1..], before + |segments[0].lines|, after + |segments[0].lines|, s);
    } else {
      var Hunk(ops, heading) := segments[0];
      var o, n := OldCount(ops), |NewOf(ops)|;
      var s1 := State(s.source, Some(Start(after, n)));
      OpsBounded(ops, s1);
      HunkRead(Start(before, o), o, Start(after, n), n, heading, ops,
               SegmentLines(segments[1..], before + o, after + n), s);
      SegmentsBounded(segments[1..], before + o, after + n, End(OpLines(ops), s1));
    }
  }

  lemma {:induction false} PreambleRead(lines: seq<string>, s: State)
    requires forall i :: 0 <= i < |lines| ==> !("+" <= lines[i])
    ensures Log(lines, s) == []
  {
    hide MatchHunk, Go, After;
    if lines != [] {
      assert !("+" <= lines[0]);
      PreambleRead(lines[1..], After(s, lines[0]));
    }
  }

  /** Only the lines after the file's header count, read with the file's path in force. */
  lemma FileRead(f: FileDiff, s: State)
    requires ProperFile(f)
    ensures Log(FileLines(f), s) == Log(SegmentLines(f.segments, 1, 1), State(Some(f.path), None))
  {
    hide MatchHunk, SegmentLines, PlainPath, ProperSegment;
    var header, body := "+++ b/" + f.path, SegmentLines(f.segments, 1, 1);
    LogAppend(f.preamble, [header] + body, s);
    PreambleRead(f.preamble, s);
    assert header[6..] == f.path;
    assert ([header] + body)[1..] == body;
  }

  // ---- the log of a whole diff -------------------------------------------------------------------------

  lemma ProperSegments(f: FileDiff)
    requires ProperFile(f)
    ensures PlainHeadings(f.segments)
  {
    hide PlainHeading, PlainPath, OneLine;
  }

  /** With no plus addition in a Go file and no stray header, the log is what the counters say. */
  lemma {:induction false} DiffRead(files: seq<FileDiff>, s: State)
    requires forall i :: 0 <= i < |files| ==> ProperFile(files[i])
    requires forall i :: 0 <= i < |files| && Go(files[i].path) ==> NoneInHunks(files[i].segments, PlusAddition)
    requires NoStrayHeader(files)
    ensures Log(DiffLines(files), s) == AllReadings(files)
  {
    hide ProperFile, Go, FileLines, SegmentLines, Log, After, NoneInHunks, PlainHeadings, StrayFree;
    if files == [] {
      LogEnds(s);
    } else {
      var f, s1 := files[0], State(Some(files[0].path), None);
      LogAppend(FileLines(f), DiffLines(files[1..]), s);
      FileRead(f, s);
      ProperSegments(f);
      if Go(f.path) { SegmentsRead(f.segments, 1, 1, s1); } else { SegmentsForeign(f.segments, 1, 1, s1); }
      DiffRead(files[1..], End(FileLines(f), s));
    }
  }

  function GoPlainAdditions(files: seq<FileDiff>): nat {
    if files == [] then 0
    else (if Go(files[0].path) then PlainAdditionsIn(files[0].segments) else 0) + GoPlainAdditions(files[1..])
  }

  lemma {:induction false} DiffBounded(files: seq<FileDiff>, s: State)
    requires forall i :: 0 <= i < |files| ==> ProperFile(files[i])
    requires NoStrayHeader(files)
    ensures |Log(DiffLines(files), s)| <= GoPlainAdditions(files)
  {
    hide ProperFile, Go, FileLines, SegmentLines, Log, After, NoneInHunks, PlainHeadings, StrayFree;
    if files == [] {
      LogEnds(s);
    } else {
      var f, s1 := files[0], State(Some(files[0].path), None);
      LogAppend(FileLines(f), DiffLines(files[1..]), s);
      FileRead(f, s);
      ProperSegments(f);
      if Go(f.path) { SegmentsBounded(f.segments, 1, 1, s1); } else { SegmentsForeign(f.segments, 1, 1, s1); }
      DiffBounded(files[1..], End(FileLines(f), s));
    }
  }

  // ---- counting the additions --------------------------------------------------------------------------

  lemma {:induction false} AdditionsCounted(ops: seq<Op>, n: nat)
    ensures PlainAdditions(ops) <= |Positions(ops, n)|
    ensures !NoneIn(ops, PlusAddition) ==> PlainAdditions(ops) < |Positions(ops, n)|
  {
    hide PlusAddition;
    if ops != [] {
      var m := if ops[0].Add? || ops[0].Keep? then n + 1 else n;
      AdditionsCounted(ops[1..], m);
      if NoneIn(ops[1..], PlusAddition) && !NoneIn(ops, PlusAddition) {
        assert PlusAddition(ops[0]);
        assert ops[0].Add? by { assert PlusAddition(ops[0]); PlusIsAdd(ops[0]); }
      }
    }
  }

  lemma PlusIsAdd(op: Op)
    ensures PlusAddition(op) ==> op.Add?
  {
  }

  lemma {:induction false} AdditionsCountedIn(segments: seq<Segment>, n: nat)
    ensures PlainAdditionsIn(segments) <= |PositionsIn(segments, n)|
    ensures !NoneInHunks(segments, PlusAddition) ==> PlainAdditionsIn(segments) < |PositionsIn(segments, n)|
  {
    hide PlusAddition, NoneIn;
    if segments != [] {
      match segments[0]
      case Skip(lines) =>
        AdditionsCountedIn(segments[1..], n + |lines|);
      case Hunk(ops, _) =>
        AdditionsCounted(ops, n);
        AdditionsCountedIn(segments[1..], n + |NewOf(ops)|);
    }
  }

  lemma {:induction false} GoAdditionsCounted(files: seq<FileDiff>)
    ensures GoPlainAdditions(files) <= |Truths(files)|
    ensures (exists i :: 0 <= i < |files| && Go(files[i].path) && !NoneInHunks(files[i].segments, PlusAddition)) ==>
              GoPlainAdditions(files) < |Truths(files)|
  {
    hide Go, NoneInHunks, PlainAdditionsIn, PositionsIn;
    if files != [] {
      AdditionsCountedIn(files[0].segments, 1);
      GoAdditionsCounted(files[1..]);
    }
  }

  // ---- readings against positions ------------------------------------------------------------------------

  ghost predicate AtLeast(r: seq<nat>, t: seq<nat>) {
    |r| == |t| && forall i :: 0 <= i < |r| ==> r[i] >= t[i]
  }

  lemma {:induction false} ReadingsAgainst(ops: seq<Op>, n: nat, m: nat)
    requires n >= m
    ensures AtLeast(Readings(ops, n), Positions(ops, m))
    ensures Readings(ops, n) == Positions(ops, m) <==>
              (Positions(ops, m) == [] || (n == m && InOrder(ops)))
  {
    hide DashRemoval;
    if ops != [] {
      var n', m' := Next(ops[0], n), if ops[0].Add? || ops[0].Keep? then m + 1 else m;
      DashAndNext(ops[0], n);
      ReadingsAgainst(ops[1..], n', m');
      NoPositions(ops[1..], m');
      InOrderStep(ops);
      if ops[0].Add? {
        assert Readings(ops, n) == [n] + Readings(ops[1..], n');
        assert Positions(ops, m) == [m] + Positions(ops[1..], m');
        if Readings(ops, n) == Positions(ops, m) {
          assert Readings(ops, n)[0] == n && Readings(ops, n)[1..] == Readings(ops[1..], n');
          assert Positions(ops, m)[0] == m && Positions(ops, m)[1..] == Positions(ops[1..], m');
        }
      }
    }
  }

  lemma DashAndNext(op: Op, n: nat)
    ensures DashRemoval(op) ==> op.Remove? && Next(op, n) == n + 1
    ensures op.Remove? && !DashRemoval(op) ==> Next(op, n) == n
  {
  }

  predicate HasAddition(ops: seq<Op>) { exists j :: 0 <= j < |ops| && ops[j].Add? }

  lemma {:induction false} NoPositions(ops: seq<Op>, n: nat)
    ensures Positions(ops, n) == [] <==> !HasAddition(ops)
  {
    if ops != [] {
      NoPositions(ops[1..], if ops[0].Add? || ops[0].Keep? then n + 1 else n);
      assert ops == [ops[0]] + ops[1..];
    }
  }

  lemma InOrderStep(ops: seq<Op>)
    requires ops != []
    ensures InOrder(ops) <==> InOrder(ops[1..]) && (DashRemoval(ops[0]) ==> !HasAddition(ops[1..]))
    ensures !HasAddition(ops[1..]) ==> InOrder(ops[1..])
  {
    hide DashRemoval;
    var rest := ops[1..];
    if InOrder(ops) {
      forall i, j | 0 <= i < j < |rest| && DashRemoval(rest[i]) ensures !rest[j].Add? {
        assert rest[i] == ops[i + 1] && rest[j] == ops[j + 1];
      }
      if HasAddition(rest) {
        var j :| 0 <= j < |rest| && rest[j].Add?;
        assert ops[j + 1].Add?;
      }
    }
    if InOrder(rest) && (DashRemoval(ops[0]) ==> !HasAddition(rest)) {
      forall i, j | 0 <= i < j < |ops| && DashRemoval(ops[i]) ensures !ops[j].Add? {
        assert ops[j] == rest[j - 1];
        if i > 0 { assert ops[i] == rest[i - 1]; }
      }
    }
  }

  lemma AtLeastNone()
    ensures AtLeast([], [])
  {
  }

  lemma AtLeastAppend(r: seq<nat>, t: seq<nat>, r': seq<nat>, t': seq<nat>)
    requires AtLeast(r, t) && AtLeast(r', t')
    ensures AtLeast(r + r', t + t')
    ensures r + r' == t + t' <==> r == t && r' == t'
  {
    if r + r' == t + t' {
      assert r == (r + r')[..|r|] && t == (t + t')[..|t|];
      assert r' == (r + r')[|r|..] && t' == (t + t')[|t|..];
    }
  }

  lemma {:induction false} HunkReadings(ops: seq<Op>, n: nat)
    requires n >= 1
    ensures AtLeast(Readings(ops, Start(n, |NewOf(ops)|)), Positions(ops, n))
    ensures Readings(ops, Start(n, |NewOf(ops)|)) == Positions(ops, n) <==> InOrder(ops)
  {
    hide NewOf, Readings, Positions, InOrder;
    NoPositions(ops, n);
    WithoutAdditions(ops, n - 1);
    AdditionIsNew(ops);
    if |NewOf(ops)| > 0 { ReadingsAgainst(ops, n, n); }
  }

  lemma {:induction false} AdditionIsNew(ops: seq<Op>)
    ensures HasAddition(ops) ==> |NewOf(ops)| > 0
  {
    if ops != [] && HasAddition(ops) {
      AdditionIsNew(ops[1..]);
      assert ops == [ops[0]] + ops[1..];
    }
  }

  lemma {:induction false} WithoutAdditions(ops: seq<Op>, n: nat)
    ensures !HasAddition(ops) ==> Readings(ops, n) == [] && InOrder(ops)
  {
    if ops != [] && !HasAddition(ops) {
      assert HasAddition(ops[1..]) ==> HasAddition(ops) by { assert ops == [ops[0]] + ops[1..]; }
      WithoutAdditions(ops[1..], Next(ops[0], n));
    }
  }

  lemma SegmentAgainst(segment: Segment, n: nat)
    requires n >= 1
    ensures AtLeast(SegmentReadings(segment, n), SegmentPositions(segment, n))
    ensures SegmentReadings(segment, n) == SegmentPositions(segment, n) <==> InOrderSegment(segment)
  {
    hide InOrder, Readings, Positions, NewOf;
    if segment.Hunk? { HunkReadings(segment.ops, n); }
  }

  lemma {:induction false} SegmentsAgainst(segments: seq<Segment>, n: nat)
    requires n >= 1
    ensures AtLeast(ReadingsIn(segments, n), PositionsIn(segments, n))
    ensures ReadingsIn(segments, n) == PositionsIn(segments, n) <==> InOrderHunks(segments)
  {
    hide InOrderSegment, SegmentReadings, SegmentPositions, NewOfSegment, AtLeast;
    if segments == [] {
      AtLeastNone();
    } else {
      var n' := n + |NewOfSegment(segments[0])|;
      SegmentAgainst(segments[0], n);
      SegmentsAgainst(segments[1..], n');
      AtLeastAppend(SegmentReadings(segments[0], n), SegmentPositions(segments[0], n),
                    ReadingsIn(segments[1..], n'), PositionsIn(segments[1..], n'));
      assert segments == [segments[0]] + segments[1..];
    }
  }

  /** The same paths, with numbers no smaller. */
  ghost predicate Ahead(g: seq<Coordinate>, e: seq<Coordinate>) {
    |g| == |e| && forall i :: 0 <= i < |g| ==> g[i].0 == e[i].0 && g[i].1 >= e[i].1
  }

  lemma AheadNone()
    ensures Ahead([], [])
  {
  }

  lemma AheadAppend(g: seq<Coordinate>, e: seq<Coordinate>, g': seq<Coordinate>, e': seq<Coordinate>)
    requires Ahead(g, e) && Ahead(g', e')
    ensures Ahead(g + g', e + e')
    ensures g + g' == e + e' <==> g == e && g' == e'
  {
    if g + g' == e + e' {
      assert g == (g + g')[..|g|] && e == (e + e')[..|e|];
      assert g' == (g + g')[|g|..] && e' == (e + e')[|e|..];
    }
  }

  lemma AtTellsApart(path: string, r: seq<nat>, t: seq<nat>)
    requires AtLeast(r, t)
    ensures Ahead(At(path, r), At(path, t))
    ensures At(path, r) == At(path, t) <==> r == t
  {
    if At(path, r) == At(path, t) {
      forall i | 0 <= i < |r| ensures r[i] == t[i] { assert At(path, r)[i] == At(path, t)[i]; }
    }
  }

  lemma {:induction false} AllReadingsAgainst(files: seq<FileDiff>)
    ensures Ahead(AllReadings(files), Truths(files))
    ensures AllReadings(files) == Truths(files) <==>
              forall k :: 0 <= k < |files| && Go(files[k].path) ==> InOrderHunks(files[k].segments)
  {
    hide Go, ReadingsIn, PositionsIn, At, InOrderHunks, Ahead;
    assert Ahead([], []) by { AheadNone(); }
    if files != [] {
      var f := files[0];
      SegmentsAgainst(f.segments, 1);
      AtTellsApart(f.path, ReadingsIn(f.segments, 1), PositionsIn(f.segments, 1));
      AllReadingsAgainst(files[1..]);
      AheadAppend(if Go(f.path) then At(f.path, ReadingsIn(f.segments, 1)) else [],
                  if Go(f.path) then At(f.path, PositionsIn(f.segments, 1)) else [],
                  AllReadings(files[1..]), Truths(files[1..]));
      assert files == [files[0]] + files[1..];
    }
  }

  // ---- positions are those of the new file -----------------------------------------------------------------

  ghost predicate Increasing(s: seq<nat>, least: nat, bound: nat) {
    && (forall i :: 0 <= i < |s| ==> least <= s[i] < bound)
    && (forall i, j :: 0 <= i < j < |s| ==> s[i] < s[j])
  }

  /** `ns` are the places, counted from `n`, of the added lines. */
  ghost predicate Marks(ns: seq<nat>, lines: seq<NewLine>, n: nat) {
    && Increasing(ns, n, n + |lines|)
    && forall x :: x in ns <==> n <= x < n + |lines| && lines[x - n].added
  }

  lemma MarksAppend(ns: seq<nat>, lines: seq<NewLine>, ms: seq<nat>, more: seq<NewLine>, n: nat)
    requires Marks(ns, lines, n) && Marks(ms, more, n + |lines|)
    ensures Marks(ns + ms, lines + more, n)
  {
    forall x ensures x in ns + ms <==> n <= x < n + |lines + more| && (lines + more)[x - n].added {
    }
  }

  lemma MarksNone(lines: seq<NewLine>, n: nat)
    requires forall i :: 0 <= i < |lines| ==> !lines[i].added
    ensures Marks([], lines, n)
  {
  }

  lemma MarksOne(text: string, n: nat)
    ensures Marks([n], [NewLine(text, true)], n)
  {
  }

  lemma {:induction false} PositionsMark(ops: seq<Op>, n: nat)
    ensures Marks(Positions(ops, n), NewOf(ops), n)
  {
    hide Marks;
    if ops == [] {
      MarksNone([], n);
    } else {
      match ops[0]
      case Add(text) =>
        PositionsMark(ops[1..], n + 1);
        MarksOne(text, n);
        MarksAppend([n], [NewLine(text, true)], Positions(ops[1..], n + 1), NewOf(ops[1..]), n);
      case Keep(text) =>
        PositionsMark(ops[1..], n + 1);
        MarksNone([NewLine(text, false)], n);
        MarksAppend([], [NewLine(text, false)], Positions(ops[1..], n + 1), NewOf(ops[1..]), n);
        assert [] + Positions(ops[1..], n + 1) == Positions(ops, n);
      case _ =>
        PositionsMark(ops[1..], n);
        assert [] + NewOf(ops[1..]) == NewOf(ops[1..]);
    }
  }

  lemma SegmentMarks(segment: Segment, n: nat)
    ensures Marks(SegmentPositions(segment, n), NewOfSegment(segment), n)
  {
    hide Marks, NewOf, Positions;
    if segment.Hunk? { PositionsMark(segment.ops, n); } else { MarksNone(Unchanged(segment.lines), n); }
  }

  lemma {:induction false} PositionsInMark(segments: seq<Segment>, n: nat)
    ensures Marks(PositionsIn(segments, n), NewFile(segments), n)
  {
    hide Marks, NewOfSegment, SegmentPositions;
    if segments == [] {
      MarksNone([], n);
    } else {
      var n' := n + |NewOfSegment(segments[0])|;
      SegmentMarks(segments[0], n);
      PositionsInMark(segments[1..], n');
      MarksAppend(SegmentPositions(segments[0], n), NewOfSegment(segments[0]),
                  PositionsIn(segments[1..], n'), NewFile(segments[1..]), n);
    }
  }
}
