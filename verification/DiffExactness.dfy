/** When the numbers of `changed_lines` are exact, for every rendered edit script. */
module DiffExactness {
  import opened Common
  import opened Sorting
  import opened DiffText
  import opened UnifiedDiff
  import opened DiffNumbering

  // ---- the true coordinates ----------------------------------------------------------------------------

  lemma FileTruths(f: FileDiff)
    ensures Distinct(At(f.path, PositionsIn(f.segments, 1)))
    ensures forall at :: Go(f.path) ==> (at in At(f.path, PositionsIn(f.segments, 1)) <==> AddedIn(f, at))
    ensures forall at :: at in At(f.path, PositionsIn(f.segments, 1)) ==> at.0 == f.path
  {
    hide Go, PositionsIn, NewFile, At;
    PositionsInMark(f.segments, 1);
    AtMembers(f.path, PositionsIn(f.segments, 1));
  }

  lemma AtMembers(path: string, ns: seq<nat>)
    ensures forall at :: at in At(path, ns) <==> at.0 == path && at.1 in ns
  {
    hide At;
    forall at: Coordinate ensures at in At(path, ns) <==> at.0 == path && at.1 in ns {
      if at.0 == path && at.1 in ns {
        var i :| 0 <= i < |ns| && ns[i] == at.1;
        assert At(path, ns)[i] == at;
      }
    }
  }

  lemma DistinctAppend(s: seq<Coordinate>, t: seq<Coordinate>)
    requires Distinct(s) && Distinct(t) && forall x :: x in s ==> x !in t
    ensures Distinct(s + t)
  {
    forall i, j | 0 <= i < j < |s + t| ensures (s + t)[i] != (s + t)[j] {
      if i < |s| <= j { assert (s + t)[i] in s && (s + t)[j] in t; }
    }
  }

  ghost predicate DistinctPaths(files: seq<FileDiff>) {
    forall i, j :: 0 <= i < j < |files| ==> files[i].path != files[j].path
  }

  /** The coordinates of the added lines, each once. */
  lemma {:induction false} TruthsAreAdded(files: seq<FileDiff>)
    requires DistinctPaths(files)
    ensures Distinct(Truths(files))
    ensures forall at :: at in Truths(files) <==> AddedAt(files, at)
  {
    hide Go, NewFile, PositionsIn, At, AddedIn;
    if files != [] {
      var f, rest := files[0], files[1..];
      var mine := if Go(f.path) then At(f.path, PositionsIn(f.segments, 1)) else [];
      FileTruths(f);
      TruthsAreAdded(rest);
      forall at | AddedIn(f, at) ensures Go(f.path) && at.0 == f.path { PathOfAdded(f, at); }
      assert forall k :: 0 <= k < |rest| ==> rest[k].path != f.path;
      forall at | at in mine ensures at !in Truths(rest) {
        if at in Truths(rest) {
          var k :| 0 <= k < |rest| && AddedIn(rest[k], at);
          PathOfAdded(rest[k], at);
          assert false;
        }
      }
      DistinctAppend(mine, Truths(rest));
      AddedStep(files);
    }
  }

  lemma PathOfAdded(f: FileDiff, at: Coordinate)
    requires AddedIn(f, at)
    ensures at.0 == f.path && Go(f.path)
  {
  }

  lemma AddedStep(files: seq<FileDiff>)
    requires files != []
    ensures forall at :: AddedAt(files, at) <==> AddedIn(files[0], at) || AddedAt(files[1..], at)
  {
    hide AddedIn;
    forall at ensures AddedAt(files, at) <==> AddedIn(files[0], at) || AddedAt(files[1..], at) {
      if AddedAt(files, at) {
        var k :| 0 <= k < |files| && AddedIn(files[k], at);
        if k > 0 { assert files[1..][k - 1] == files[k]; }
      }
      if AddedAt(files[1..], at) {
        var k :| 0 <= k < |files[1..]| && AddedIn(files[1..][k], at);
        assert files[k + 1] == files[1..][k];
      }
    }
  }

  // ---- larger numbers never make the same set ------------------------------------------------------------

  function Sum(s: seq<Coordinate>): nat { if s == [] then 0 else s[0].1 + Sum(s[1..]) }

  lemma {:induction false} SumAppend(s: seq<Coordinate>, t: seq<Coordinate>)
    ensures Sum(s + t) == Sum(s) + Sum(t)
  {
    if s == [] {
      assert s + t == t;
    } else {
      assert (s + t)[1..] == s[1..] + t;
      SumAppend(s[1..], t);
    }
  }

  lemma {:induction false} SumOfSame(s: seq<Coordinate>, t: seq<Coordinate>)
    requires multiset(s) == multiset(t)
    ensures Sum(s) == Sum(t)
  {
    hide Without;
    if s == [] {
      assert |t| == |multiset(t)| == 0;
    } else {
      assert s[0] in multiset(t);
      var j :| 0 <= j < |t| && t[j] == s[0];
      DropSame(s, t, j);
      SumOfSame(s[1..], Without(t, j));
      SumWithout(t, j);
    }
  }

  lemma SumWithout(t: seq<Coordinate>, j: nat)
    requires j < |t|
    ensures Sum(t) == t[j].1 + Sum(Without(t, j))
  {
    hide *;
    WithoutParts(t, j);
    SumParts(t[..j], t[j], t[j + 1..]);
  }

  lemma WithoutParts(t: seq<Coordinate>, j: nat)
    requires j < |t|
    ensures Without(t, j) == t[..j] + t[j + 1..]
    ensures t == t[..j] + [t[j]] + t[j + 1..]
  {
  }

  lemma SumParts(front: seq<Coordinate>, x: Coordinate, back: seq<Coordinate>)
    ensures Sum(front + [x] + back) == x.1 + Sum(front + back)
  {
    hide Sum;
    SumAppend(front + [x], back);
    SumAppend(front, [x]);
    SumAppend(front, back);
    SumOne(x);
  }

  lemma SumOne(x: Coordinate)
    ensures Sum([x]) == x.1
  {
  }

  lemma {:induction false} SumAhead(g: seq<Coordinate>, e: seq<Coordinate>)
    requires Ahead(g, e)
    ensures Sum(g) >= Sum(e) && (Sum(g) == Sum(e) ==> g == e)
  {
    if g != [] {
      SumAhead(g[1..], e[1..]);
      assert g == [g[0]] + g[1..] && e == [e[0]] + e[1..];
    }
  }

  /** Distinct coordinates cannot all be rearranged upwards. */
  lemma AheadSameSet(g: seq<Coordinate>, e: seq<Coordinate>)
    requires Ahead(g, e) && Distinct(e) && Elements(g) == Elements(e)
    ensures g == e
  {
    DistinctSize(e);
    assert |Elements(g)| == |g|;
    DistinctWhenFull(g);
    forall i | 0 <= i < |g| ensures g[i] in e { assert g[i] in Elements(e); }
    SameDistinct(g, e);
    SumOfSame(g, e);
    SumAhead(g, e);
  }

  lemma {:induction false} ElementsBound(s: seq<Coordinate>)
    ensures |Elements(s)| <= |s|
  {
    if s != [] {
      ElementsBound(s[1..]);
      assert Elements(s) == {s[0]} + Elements(s[1..]);
    }
  }

  lemma DistinctWhenFull(s: seq<Coordinate>)
    requires |Elements(s)| == |s|
    ensures Distinct(s)
  {
    forall i, j | 0 <= i < j < |s| ensures s[i] != s[j] {
      if s[i] == s[j] {
        var r := s[..j] + s[j + 1..];
        forall x | x in s ensures x in r { WithoutRepeat(s, i, j, x); }
        assert Elements(r) == Elements(s);
        ElementsBound(r);
        assert false;
      }
    }
  }

  lemma WithoutRepeat(s: seq<Coordinate>, i: nat, j: nat, x: Coordinate)
    requires i < j < |s| && s[i] == s[j] && x in s
    ensures x in s[..j] + s[j + 1..]
  {
    var r := s[..j] + s[j + 1..];
    var k :| 0 <= k < |s| && s[k] == x;
    var at := if k < j then k else if k == j then i else k - 1;
    assert r[at] == x;
  }

  // ---- the theorem -----------------------------------------------------------------------------------------

  lemma {:induction false} LinesAreLines(files: seq<FileDiff>)
    requires forall i :: 0 <= i < |files| ==> ProperFile(files[i])
    ensures forall i :: 0 <= i < |DiffLines(files)| ==> OneLine(DiffLines(files)[i])
  {
    hide OneLine, ProperFile, FileLines;
    if files != [] {
      FileIsLines(files[0]);
      LinesAreLines(files[1..]);
    }
  }

  lemma FileIsLines(f: FileDiff)
    requires ProperFile(f)
    ensures forall i :: 0 <= i < |FileLines(f)| ==> OneLine(FileLines(f)[i])
  {
    hide SegmentLines, ProperSegment, OneLine;
    assert OneLine("+++ b/" + f.path) by { PathLine(f.path); }
    SegmentsAreLines(f.segments, 1, 1);
  }

  lemma PathLine(path: string)
    requires PlainPath(path)
    ensures OneLine("+++ b/" + path)
  {
  }

  lemma {:induction false} SegmentsAreLines(segments: seq<Segment>, before: nat, after: nat)
    requires before >= 1 && after >= 1 && forall i :: 0 <= i < |segments| ==> ProperSegment(segments[i])
    ensures forall i :: 0 <= i < |SegmentLines(segments, before, after)| ==>
              OneLine(SegmentLines(segments, before, after)[i])
  {
    hide OneLine, PlainHeading, Header, OpLines, NewOf, OldCount;
    if segments != [] {
      match segments[0]
      case Skip(lines) => SegmentsAreLines(segments[1..], before + |lines|, after + |lines|);
      case Hunk(ops, heading) =>
        var o, n := OldCount(ops), |NewOf(ops)|;
        assert ProperSegment(segments[0]);
        OpsAreLines(ops);
        HeaderIsLine(Start(before, o), o, Start(after, n), n, heading);
        SegmentsAreLines(segments[1..], before + o, after + n);
    }
  }

  lemma {:induction false} OpsAreLines(ops: seq<Op>)
    requires forall i :: 0 <= i < |ops| ==> OneLineOp(ops[i])
    ensures forall i :: 0 <= i < |OpLines(ops)| ==> OneLine(OpLines(ops)[i])
  {
    hide OneLine, OpLine;
    if ops != [] {
      assert OneLineOp(ops[0]);
      OpsAreLines(ops[1..]);
    }
  }

  lemma HeaderIsLine(before: nat, o: nat, after: nat, n: nat, heading: string)
    requires OneLine(heading)
    ensures OneLine(Header(before, o, after, n, heading))
  {
    hide Range;
    RangeCharacters(before, o);
    RangeCharacters(after, n);
    JoinOneLine(" +" + Range(after, n) + " @@", heading);
    JoinOneLine("@@ -" + Range(before, o), " +" + Range(after, n) + " @@" + heading);
  }

  lemma JoinOneLine(s: string, t: string)
    requires OneLine(s) && OneLine(t)
    ensures OneLine(s + t)
  {
  }

  /** The coordinates `changed_lines` returns for the rendered script. */
  ghost function Result(files: seq<FileDiff>): set<Coordinate> {
    Elements(Log(SplitLines(Render(files)), Initial))
  }

  /** Diff numbering is exact: for every edit script over any number of files and hunks, the result
      holds exactly the new-file positions of the lines added to Go files, if and only if each Go
      file is legible. */
  lemma NumberingExact(files: seq<FileDiff>)
    requires ProperDiff(files) && NoStrayHeader(files)
    ensures (forall at :: at in Result(files) <==> AddedAt(files, at)) <==> Legible(files)
  {
    hide Log, DiffLines, Truths, AllReadings, ProperFile, AddedAt, NoStrayHeader, NoneInHunks, InOrderHunks, Go;
    LinesAreLines(files);
    SplitJoin(DiffLines(files));
    TruthsAreAdded(files);
    var log, truths := Log(DiffLines(files), Initial), Truths(files);
    assert Result(files) == Elements(log);
    assert (forall at :: at in Result(files) <==> AddedAt(files, at)) <==> Elements(log) == Elements(truths);
    if exists k :: 0 <= k < |files| && Go(files[k].path) && !NoneInHunks(files[k].segments, PlusAddition) {
      DiffBounded(files, Initial);
      GoAdditionsCounted(files);
      ElementsBound(log);
      DistinctSize(truths);
    } else {
      DiffRead(files, Initial);
      AllReadingsAgainst(files);
      if Elements(log) == Elements(truths) { AheadSameSet(log, truths); }
    }
  }

  const StrayFirst := [Add("++ b/x.go")]

  const StrayLast := [Add("y")]

  const StraySegments := [Hunk(StrayFirst, ""), Skip([""]), Hunk(StrayLast, "")]

  const StrayFile := FileDiff([], "notes", StraySegments)

  /** Without the assumption about other files: a line added to one of them can pass for the header
      of a Go file, whose name then carries the additions of that file's later hunks. */
  lemma StrayHeaderMisleads()
    ensures ProperDiff([StrayFile]) && Legible([StrayFile])
    ensures ("x.go", 3) in Result([StrayFile]) && !AddedAt([StrayFile], ("x.go", 3))
  {
    hide Log, Header, FileLines, NewFile, SegmentLines, PlainAdditions, DiffLines;
    StrayIsProper();
    StrayText();
    LinesAreLines([StrayFile]);
    SplitJoin(DiffLines([StrayFile]));
    FileRead(StrayFile, Initial);
    StrayLog();
    assert !AddedIn(StrayFile, ("x.go", 3));
  }

  lemma StrayText()
    ensures DiffLines([StrayFile]) == FileLines(StrayFile)
  {
    hide FileLines;
    assert [StrayFile][1..] == [];
    assert DiffLines([StrayFile]) == FileLines(StrayFile) + DiffLines([]);
    assert DiffLines([]) == [];
  }

  lemma StrayIsProper()
    ensures ProperFile(StrayFile) && !Go(StrayFile.path)
  {
    assert OneLineOp(StrayFirst[0]) && OneLineOp(StrayLast[0]);
  }

  lemma StrayLog()
    ensures ("x.go", 3) in Log(SegmentLines(StraySegments, 1, 1), State(Some("notes"), None))
  {
    hide MatchHunk, Header, Log, OpLines, End, Readings;
    var s := State(Some("notes"), None);
    var rest := SegmentLines([Hunk(StrayLast, "")], 2, 3);
    StrayLines();
    StrayEnd();
    HunkRead(0, 0, 1, 1, "", StrayFirst, rest, s);
    HunkRead(1, 0, 3, 1, "", StrayLast, [], State(Some("x.go"), None));
    OpsRead(StrayLast, "x.go", 3);
    assert Readings(StrayLast, 3) == [3] by { StrayReadings(); }
    assert At("x.go", [3])[0] == ("x.go", 3);
  }

  lemma StrayReadings()
    ensures Readings(StrayLast, 3) == [3]
  {
    assert StrayLast[1..] == [];
  }

  lemma StrayLines()
    ensures SegmentLines(StraySegments, 1, 1) ==
              [Header(0, 0, 1, 1, "")] + OpLines(StrayFirst) + SegmentLines([Hunk(StrayLast, "")], 2, 3)
    ensures SegmentLines([Hunk(StrayLast, "")], 2, 3) == [Header(1, 0, 3, 1, "")] + OpLines(StrayLast) + []
  {
    hide Header, OpLines;
    assert StraySegments[1..] == [Skip([""]), Hunk(StrayLast, "")];
    assert StraySegments[1..][1..] == [Hunk(StrayLast, "")];
    var last: seq<Segment> := [Hunk(StrayLast, "")];
    assert last[1..] == [];
    assert StrayFirst[1..] == [] && StrayLast[1..] == [];
    assert |NewOf(StrayFirst)| == 1 && OldCount(StrayFirst) == 0;
    assert |NewOf(StrayLast)| == 1 && OldCount(StrayLast) == 0;
    assert SegmentLines(StraySegments[1..], 1, 2) == SegmentLines([Hunk(StrayLast, "")], 2, 3);
  }

  lemma StrayEnd()
    ensures End(OpLines(StrayFirst), State(Some("notes"), Some(1))) == State(Some("x.go"), None)
  {
    hide MatchHunk;
    var line := OpLine(StrayFirst[0]);
    assert StrayFirst[1..] == [];
    assert OpLines(StrayFirst) == [line];
    var lines: seq<string> := [line];
    assert lines[1..] == [];
    assert line[..6] == "+++ b/" && line[6..] == "x.go";
  }

  const FeedOps := [Add("x\U{0C}y"), Add("z")]

  const FeedFile := FileDiff([], "a.go", [Hunk(FeedOps, "")])

  /** Without the assumption that texts are on one line: an added text with a form feed counts as two
      lines, and the next addition is reported one line too far. */
  lemma FormFeedCountsTwice()
    ensures Legible([FeedFile]) && NoStrayHeader([FeedFile])
    ensures AddedAt([FeedFile], ("a.go", 2)) && ("a.go", 2) !in Result([FeedFile])
    ensures ("a.go", 3) in Result([FeedFile]) && !AddedAt([FeedFile], ("a.go", 3))
  {
    hide Log, SplitLines, FileLines, Header, NewFile;
    FeedIsLegible();
    FeedAdds();
    FeedLines();
    FeedLog();
  }

  lemma FeedIsLegible()
    ensures Legible([FeedFile]) && NoStrayHeader([FeedFile])
  {
    assert "a.go"[1..] == ".go" && Go(FeedFile.path);
    assert FeedOps[0].text[0] == 'x' && FeedOps[1].text[0] == 'z' && "++"[0] == '+';
    assert !PlusAddition(FeedOps[0]) && !PlusAddition(FeedOps[1]);
    assert !DashRemoval(FeedOps[0]) && !DashRemoval(FeedOps[1]);
  }

  lemma FeedNew()
    ensures NewFile(FeedFile.segments) == [NewLine("x\U{0C}y", true), NewLine("z", true)]
  {
    var one: seq<Segment> := FeedFile.segments;
    assert one[1..] == [];
    assert NewOf(FeedOps[1..]) == [NewLine("z", true)] by { assert FeedOps[1..][1..] == []; }
    assert NewFile(one[1..]) == [];
  }

  lemma FeedAdds()
    ensures AddedAt([FeedFile], ("a.go", 2)) && !AddedAt([FeedFile], ("a.go", 3))
  {
    hide NewFile;
    FeedNew();
    assert "a.go"[1..] == ".go" && Go(FeedFile.path);
    assert AddedIn(FeedFile, ("a.go", 2));
    assert AddedIn([FeedFile][0], ("a.go", 2));
    assert !AddedIn(FeedFile, ("a.go", 3));
  }

  function FeedHeader(): string { Header(0, 0, 1, 2, "") }

  lemma FeedRendered()
    ensures DiffLines([FeedFile]) == ["+++ b/a.go", FeedHeader(), "+x\U{0C}y", "+z"]
  {
    hide Header;
    var segments: seq<Segment> := FeedFile.segments;
    assert segments[1..] == [] && FeedOps[1..] == [Add("z")] && FeedOps[1..][1..] == [];
    assert |NewOf(FeedOps)| == 2 && OldCount(FeedOps) == 0;
    assert OpLine(FeedOps[0]) == "+x\U{0C}y" && OpLine(FeedOps[1]) == "+z";
    assert OpLines(FeedOps[1..]) == ["+z"] by { assert OpLines([]) == []; }
    assert OpLines(FeedOps) == ["+x\U{0C}y", "+z"];
    assert SegmentLines(segments[1..], 1, 3) == [];
    assert SegmentLines(segments, 1, 1) == [FeedHeader()] + OpLines(FeedOps);
    assert "+++ b/" + "a.go" == "+++ b/a.go";
    assert FileLines(FeedFile) == [] + (["+++ b/a.go"] + SegmentLines(segments, 1, 1));
    var files: seq<FileDiff> := [FeedFile];
    assert files[1..] == [];
    assert DiffLines([]) == [];
  }

  lemma FeedLines()
    ensures SplitLines(Render([FeedFile])) == ["+++ b/a.go", FeedHeader(), "+x", "y", "+z"]
  {
    hide SplitLines, Header, DiffLines;
    FeedRendered();
    HeaderIsLine(0, 0, 1, 2, "");
    var lines := DiffLines([FeedFile]);
    FeedJoined(lines);
    var tail := "y" + ("\n" + ("+z" + ("\n" + "")));
    SplitFirst("+z", '\n', "");
    SplitFirst("y", '\n', "+z" + ("\n" + ""));
    SplitFirst("+x", '\U{0C}', tail);
    SplitFirst(FeedHeader(), '\n', "+x" + ("\U{0C}" + tail));
    SplitFirst("+++ b/a.go", '\n', FeedHeader() + ("\n" + ("+x" + ("\U{0C}" + tail))));
    assert SplitLines("") == [] by { NoLines(); }
  }

  lemma NoLines()
    ensures SplitLines("") == []
  {
  }

  lemma FeedJoined(lines: seq<string>)
    requires lines == ["+++ b/a.go", FeedHeader(), "+x\U{0C}y", "+z"]
    ensures var tail := "y" + ("\n" + ("+z" + ("\n" + "")));
            JoinLines(lines) == "+++ b/a.go" + ("\n" + (FeedHeader() + ("\n" + ("+x" + ("\U{0C}" + tail)))))
  {
    hide Header;
    assert lines[1..] == [FeedHeader(), "+x\U{0C}y", "+z"] && lines[1..][1..] == ["+x\U{0C}y", "+z"];
    assert lines[1..][1..][1..] == ["+z"] && lines[1..][1..][1..][1..] == [];
    assert "+x\U{0C}y" == "+x" + ("\U{0C}" + "y");
    var tail := "y" + ("\n" + ("+z" + ("\n" + "")));
    assert JoinLines(["+z"]) == "+z" + ("\n" + "") by { JoinNext("+z", []); }
    JoinNext("+x\U{0C}y", ["+z"]);
    assert JoinLines(["+x\U{0C}y", "+z"]) == "+x" + ("\U{0C}" + tail);
    JoinNext(FeedHeader(), ["+x\U{0C}y", "+z"]);
    JoinNext("+++ b/a.go", [FeedHeader(), "+x\U{0C}y", "+z"]);
  }

  lemma JoinNext(line: string, rest: seq<string>)
    ensures JoinLines([line] + rest) == line + ("\n" + JoinLines(rest))
    ensures JoinLines([]) == ""
  {
    assert ([line] + rest)[1..] == rest;
  }

  lemma FeedLog()
    ensures Log(["+++ b/a.go", FeedHeader(), "+x", "y", "+z"], Initial) == [("a.go", 1), ("a.go", 3)]
  {
    hide MatchHunk, Header, Go, Log;
    var s1, s2 := State(Some("a.go"), None), State(Some("a.go"), Some(1));
    assert Go("a.go") by { FeedIsGo(); }
    assert "+++ b/a.go"[6..] == "a.go" && "+++ b/a.go"[..6] == "+++ b/";
    HeaderLineRead(0, 0, 1, 2, "", s1);
    NotHunk("+x");
    NotHunk("y");
    NotHunk("+z");
    var s3, s4 := State(Some("a.go"), Some(2)), State(Some("a.go"), Some(3));
    assert "+x"[0] == '+' && "+z"[0] == '+' && "y"[0] == 'y' && |"+x"| == 2 && |"+z"| == 2;
    assert "+" <= "+x" && "+" <= "+z" && !("+" <= "y") && !("-" <= "y") && !("\\" <= "y");
    assert Recorded(s4, "+z") == [("a.go", 3)];
    assert Recorded(s3, "y") == [] && After(s3, "y") == s4;
    assert Recorded(s2, "+x") == [("a.go", 1)] && After(s2, "+x") == s3;
    assert Recorded(Initial, "+++ b/a.go") == [] && After(Initial, "+++ b/a.go") == s1;
    LogNext("+z", [], s4);
    LogEnds(After(s4, "+z"));
    assert Log(["+z"], s4) == [("a.go", 3)] by { assert ["+z"] + [] == ["+z"]; }
    LogNext("y", ["+z"], s3);
    assert Log(["y", "+z"], s3) == [("a.go", 3)] by { assert ["y"] + ["+z"] == ["y", "+z"]; }
    LogNext("+x", ["y", "+z"], s2);
    assert Log(["+x", "y", "+z"], s2) == [("a.go", 1), ("a.go", 3)] by {
      assert ["+x"] + ["y", "+z"] == ["+x", "y", "+z"];
    }
    var body := [FeedHeader(), "+x", "y", "+z"];
    LogNext(FeedHeader(), ["+x", "y", "+z"], s1);
    assert Log(body, s1) == [("a.go", 1), ("a.go", 3)] by {
      assert [FeedHeader()] + ["+x", "y", "+z"] == body;
    }
    LogNext("+++ b/a.go", body, Initial);
    assert ["+++ b/a.go"] + body == ["+++ b/a.go", FeedHeader(), "+x", "y", "+z"];
  }

  lemma FeedIsGo()
    ensures Go("a.go")
  {
    assert "a.go"[1..] == ".go";
  }

  lemma NotHunk(line: string)
    requires line != "" && line[0] != '@'
    ensures MatchHunk(line).None?
  {
  }

  lemma LogNext(line: string, rest: seq<string>, s: State)
    ensures Log([line] + rest, s) == Recorded(s, line) + Log(rest, After(s, line))
  {
    hide Recorded, After;
    assert ([line] + rest)[1..] == rest;
  }
}
