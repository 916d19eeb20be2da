/** Edit scripts, their rendering as a unified diff, and the reading of that diff by `changed_lines`:
    which lines of the new files were added. */
module UnifiedDiff {
  import opened Common
  import opened DiffText

  /** A path and a line number of the new version, counted from one. */
  type Coordinate = (string, nat)

  // ---- edit scripts ----------------------------------------------------------------------------------

  datatype Op = Keep(text: string) | Remove(text: string) | Add(text: string) | NoNewline

  /** A file's lines in order: unchanged stretches the diff does not show, and hunks. */
  datatype Segment = Skip(lines: seq<string>) | Hunk(ops: seq<Op>, heading: string)

  datatype FileDiff = FileDiff(preamble: seq<string>, path: string, segments: seq<Segment>)

  datatype NewLine = NewLine(text: string, added: bool)

  function NewOf(ops: seq<Op>): seq<NewLine> {
    if ops == [] then []
    else
      (match ops[0]
       case Keep(text) => [NewLine(text, false)]
       case Add(text) => [NewLine(text, true)]
       case _ => []) + NewOf(ops[1..])
  }

  function OldCount(ops: seq<Op>): nat {
    if ops == [] then 0 else (if ops[0].Keep? || ops[0].Remove? then 1 else 0) + OldCount(ops[1..])
  }

  function Unchanged(lines: seq<string>): (r: seq<NewLine>)
    ensures |r| == |lines| && forall i :: 0 <= i < |r| ==> !r[i].added
  {
    seq(|lines|, i requires 0 <= i < |lines| => NewLine(lines[i], false))
  }

  /** The new version of a file, each line marked as added or not. */
  function NewFile(segments: seq<Segment>): seq<NewLine> {
    if segments == [] then []
    else NewOfSegment(segments[0]) + NewFile(segments[1..])
  }

  function NewOfSegment(segment: Segment): seq<NewLine> {
    match segment
    case Skip(lines) => Unchanged(lines)
    case Hunk(ops, _) => NewOf(ops)
  }

  predicate Go(path: string) { |path| >= 3 && path[|path| - 3..] == ".go" }

  /** The coordinate is that of an added line of a Go file. */
  ghost predicate AddedAt(files: seq<FileDiff>, at: Coordinate) {
    exists k :: 0 <= k < |files| && AddedIn(files[k], at)
  }

  ghost predicate AddedIn(f: FileDiff, at: Coordinate) {
    f.path == at.0 && Go(f.path) && 1 <= at.1 <= |NewFile(f.segments)| && NewFile(f.segments)[at.1 - 1].added
  }

  // ---- rendering -------------------------------------------------------------------------------------

  function OpLine(op: Op): string {
    match op
    case Keep(text) => " " + text
    case Remove(text) => "-" + text
    case Add(text) => "+" + text
    case NoNewline => "\\ No newline at end of file"
  }

  function OpLines(ops: seq<Op>): seq<string> {
    if ops == [] then [] else [OpLine(ops[0])] + OpLines(ops[1..])
  }

  /** An empty range names the line before it. */
  function Start(position: nat, count: nat): nat
    requires position >= 1
  {
    if count == 0 then position - 1 else position
  }

  function SegmentLines(segments: seq<Segment>, before: nat, after: nat): seq<string>
    requires before >= 1 && after >= 1
  {
    if segments == [] then []
    else
      match segments[0]
      case Skip(lines) => SegmentLines(segments[1..], before + |lines|, after + |lines|)
      case Hunk(ops, heading) =>
        var o, n := OldCount(ops), |NewOf(ops)|;
        [Header(Start(before, o), o, Start(after, n), n, heading)] + OpLines(ops)
        + SegmentLines(segments[1..], before + o, after + n)
  }

  function FileLines(f: FileDiff): seq<string> {
    f.preamble + (["+++ b/" + f.path] + SegmentLines(f.segments, 1, 1))
  }

  function DiffLines(files: seq<FileDiff>): seq<string> {
    if files == [] then [] else FileLines(files[0]) + DiffLines(files[1..])
  }

  function Render(files: seq<FileDiff>): string { JoinLines(DiffLines(files)) }

  /** A path that `git` writes as it is: it quotes others, and marks the end of one with a space. */
  predicate PlainPath(path: string) {
    forall i :: 0 <= i < |path| ==> ' ' < path[i] < '\U{7f}' && path[i] != '"' && path[i] != '\\'
  }

  predicate OneLineOp(op: Op) { OneLine(OpLine(op)) }

  predicate ProperSegment(s: Segment) {
    match s
    case Skip(_) => true
    case Hunk(ops, heading) =>
      PlainHeading(heading) && OneLine(heading) && forall i :: 0 <= i < |ops| ==> OneLineOp(ops[i])
  }

  predicate ProperFile(f: FileDiff) {
    && PlainPath(f.path)
    && (forall i :: 0 <= i < |f.preamble| ==> OneLine(f.preamble[i]) && !("+" <= f.preamble[i]))
    && (forall i :: 0 <= i < |f.segments| ==> ProperSegment(f.segments[i]))
  }

  /** Each file once, and every text on one line. */
  ghost predicate ProperDiff(files: seq<FileDiff>) {
    && (forall i :: 0 <= i < |files| ==> ProperFile(files[i]))
    && (forall i, j :: 0 <= i < j < |files| ==> files[i].path != files[j].path)
  }

  // ---- reading ---------------------------------------------------------------------------------------

  datatype State = State(source: Option<string>, number: Option<nat>)

  const Initial := State(None, None)

  /** The state of the loop after one more line. */
  function After(s: State, line: string): State {
    if "+++ b/" <= line then State(Some(line[6..]), None)
    else if MatchHunk(line).Some? then s.(number := MatchHunk(line))
    else if s.source.None? || s.number.None? then s
    else if "+" <= line && !("+++" <= line) then s.(number := Some(s.number.value + 1))
    else if "-" <= line && !("---" <= line) then s
    else if !("\\" <= line) then s.(number := Some(s.number.value + 1))
    else s
  }

  /** What the line adds to the result. */
  function Recorded(s: State, line: string): seq<Coordinate> {
    if !("+++ b/" <= line) && MatchHunk(line).None? && s.source.Some? && s.number.Some?
       && "+" <= line && !("+++" <= line) && Go(s.source.value)
    then [(s.source.value, s.number.value)]
    else []
  }

  function Log(lines: seq<string>, s: State): seq<Coordinate> {
    if lines == [] then [] else Recorded(s, lines[0]) + Log(lines[1..], After(s, lines[0]))
  }

  function End(lines: seq<string>, s: State): State {
    if lines == [] then s else End(lines[1..], After(s, lines[0]))
  }

  function Elements(s: seq<Coordinate>): set<Coordinate> { set at | at in s }

  /** `changed_lines`, from the text of the diff. */
  method ChangedLines(diff: string) returns (result: set<Coordinate>)
    ensures result == Elements(Log(SplitLines(diff), Initial))
  {
    hide Log, MatchHunk;
    var lines := SplitLines(diff);
    result := {};
    var source: Option<string> := None;
    var number: Option<nat> := None;
    assert lines[0..] == lines;
    for i := 0 to |lines|
      invariant Elements(Log(lines, Initial)) == result + Elements(Log(lines[i..], State(source, number)))
    {
      var line := lines[i];
      LogStep(lines, i, State(source, number));
      if "+++ b/" <= line {
        source, number := Some(line[6..]), None;
        continue;
      }
      var start := MatchHunk(line);
      if start.Some? {
        number := start;
        continue;
      }
      if source.None? || number.None? { continue; }
      if "+" <= line && !("+++" <= line) {
        if Go(source.value) { result := result + {(source.value, number.value)}; }
        number := Some(number.value + 1);
      } else if "-" <= line && !("---" <= line) {
        continue;
      } else if !("\\" <= line) {
        number := Some(number.value + 1);
      }
    }
    assert lines[|lines|..] == [];
    LogEnds(State(source, number));
  }

  lemma LogStep(lines: seq<string>, i: nat, s: State)
    requires i < |lines|
    ensures Elements(Log(lines[i..], s)) ==
              Elements(Recorded(s, lines[i])) + Elements(Log(lines[i + 1..], After(s, lines[i])))
  {
    hide Recorded, After;
    assert lines[i..][1..] == lines[i + 1..];
  }

  lemma LogEnds(s: State)
    ensures Log([], s) == []
  {
  }
}
