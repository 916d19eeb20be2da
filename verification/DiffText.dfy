/** The text of a unified diff as `changed_lines` reads it: lines, decimal numbers and hunk headers. */
module DiffText {
  import opened Common

  // ---- lines -----------------------------------------------------------------------------------------

  /** The characters at which `str.splitlines` breaks a text. */
  predicate Break(c: char) {
    c in {'\n', '\r', '\U{0B}', '\U{0C}', '\U{1C}', '\U{1D}', '\U{1E}', '\U{85}', '\U{2028}', '\U{2029}'}
  }

  predicate OneLine(s: string) { forall i :: 0 <= i < |s| ==> !Break(s[i]) }

  function LineEnd(s: string): (n: nat)
    ensures n <= |s|
  {
    if s == "" || Break(s[0]) then 0 else 1 + LineEnd(s[1..])
  }

  /** `str.splitlines`. */
  function SplitLines(s: string): seq<string> {
    if s == "" then []
    else
      var n := LineEnd(s);
      if n == |s| then [s]
      else [s[..n]] + SplitLines(s[if "\r\n" <= s[n..] then n + 2 else n + 1..])
  }

  /** A line ends at the first break, and a carriage return with its newline is one break. */
  lemma SplitBreak(line: string, end: string, rest: string)
    requires OneLine(line) && end != "" && (end == "\r\n" || (|end| == 1 && Break(end[0])))
    requires end == "\r" ==> rest == "" || rest[0] != '\n'
    ensures SplitLines(line + end + rest) == [line] + SplitLines(rest)
  {
    var s := line + end + rest;
    assert s == line + (end + rest);
    LineEndAt(line, end + rest);
    assert s[..|line|] == line && s[|line|..] == end + rest && s[|line| + |end|..] == rest;
    assert "\r\n" <= end + rest <==> end == "\r\n" by {
      assert "\r\n" <= end + rest ==> (end + rest)[0] == '\r' && (end + rest)[1] == '\n';
    }
  }

  function JoinLines(lines: seq<string>): string {
    if lines == [] then "" else lines[0] + "\n" + JoinLines(lines[1..])
  }

  lemma {:induction false} LineEndAt(line: string, rest: string)
    requires OneLine(line) && rest != "" && Break(rest[0])
    ensures LineEnd(line + rest) == |line|
  {
    if line == "" {
      assert line + rest == rest;
    } else {
      LineEndAt(line[1..], rest);
      assert (line + rest)[1..] == line[1..] + rest;
    }
  }

  /** A break ends a line, whichever break it is. */
  lemma SplitFirst(line: string, c: char, rest: string)
    requires OneLine(line) && Break(c) && c != '\r'
    ensures SplitLines(line + ([c] + rest)) == [line] + SplitLines(rest)
  {
    var tail := [c] + rest;
    var s := line + tail;
    LineEndAt(line, tail);
    assert s[|line|..] == tail && tail[0] != '\r';
    assert s[..|line|] == line && s[|line| + 1..] == rest;
  }

  lemma {:induction false} SplitJoin(lines: seq<string>)
    requires forall i :: 0 <= i < |lines| ==> OneLine(lines[i])
    ensures SplitLines(JoinLines(lines)) == lines
  {
    if lines != [] {
      var rest := "\n" + JoinLines(lines[1..]);
      var s := JoinLines(lines);
      assert s == lines[0] + rest;
      LineEndAt(lines[0], rest);
      assert s[|lines[0]|] == '\n';
      assert s[|lines[0]| + 1..] == JoinLines(lines[1..]);
      SplitJoin(lines[1..]);
    }
  }

  // ---- numbers ---------------------------------------------------------------------------------------

  predicate Digit(c: char) { '0' <= c <= '9' }

  function Decimal(n: nat): (s: string)
    ensures s != "" && forall i :: 0 <= i < |s| ==> Digit(s[i])
  {
    (if n < 10 then "" else Decimal(n / 10)) + ['0' + (n % 10) as char]
  }

  function DigitRun(s: string): (n: nat)
    ensures n <= |s| && forall i :: 0 <= i < n ==> Digit(s[i])
  {
    if s != "" && Digit(s[0]) then 1 + DigitRun(s[1..]) else 0
  }

  function Value(digits: string): nat
    requires forall i :: 0 <= i < |digits| ==> Digit(digits[i])
  {
    if digits == "" then 0
    else
      var last := digits[|digits| - 1];
      assert Digit(last);
      Value(digits[..|digits| - 1]) * 10 + (last as int - '0' as int)
  }

  lemma {:induction false} DecimalValue(n: nat)
    ensures Value(Decimal(n)) == n
  {
    var d := Decimal(n);
    if n < 10 {
      assert d == ['0' + n as char];
      assert d[..0] == "";
    } else {
      assert d[..|d| - 1] == Decimal(n / 10);
      DecimalValue(n / 10);
    }
  }

  lemma {:induction false} DigitRunStops(digits: string, rest: string)
    requires forall i :: 0 <= i < |digits| ==> Digit(digits[i])
    requires rest == "" || !Digit(rest[0])
    ensures DigitRun(digits + rest) == |digits|
  {
    if digits == "" {
      assert digits + rest == rest;
    } else {
      DigitRunStops(digits[1..], rest);
      assert (digits + rest)[1..] == digits[1..] + rest;
    }
  }

  // ---- hunk headers ----------------------------------------------------------------------------------

  /** Where a count of the form `,n` ends; it is optional. */
  function CountEnd(s: string): (n: nat)
    ensures n <= |s|
  {
    if s != "" && s[0] == ',' && DigitRun(s[1..]) > 0 then 1 + DigitRun(s[1..]) else 0
  }

  /** Matches ` +start[,count] @@` at the front of `s`; the start and where the closing ` @@` begins. */
  function NewRange(s: string): (r: Option<(nat, nat)>)
    ensures r.Some? ==> 2 < r.value.1 <= |s| - 3 && s[0] == ' ' && s[1] == '+'
    ensures r.Some? ==> s[r.value.1..r.value.1 + 3] == " @@"
  {
    if !(" +" <= s) then None
    else
      var t := s[2..];
      var n := DigitRun(t);
      var e := n + CountEnd(t[n..]);
      if n == 0 || !(" @@" <= t[e..]) then None
      else
        assert s[e + 2..e + 5] == t[e..][..3];
        Some((Value(t[..n]), e + 2))
  }

  /** The last place from `least` up to `i` where the range matches: the pattern's `.*` is greedy. */
  function LastRange(line: string, i: nat, least: nat): Option<nat>
    requires i <= |line|
  {
    if i < least then None
    else if NewRange(line[i..]).Some? then Some(NewRange(line[i..]).value.0)
    else if i == 0 then None
    else LastRange(line, i - 1, least)
  }

  /** `HUNK.match`: the new file's start line. */
  function MatchHunk(line: string): Option<nat> {
    if "@@ " <= line then LastRange(line, |line|, 3) else None
  }

  /** A count of one is not written. */
  function CountText(count: nat): string { if count == 1 then "" else "," + Decimal(count) }

  function Range(start: nat, count: nat): string { Decimal(start) + CountText(count) }

  /** A heading is absent or set off by a space; the marker of the header is not in it. */
  predicate PlainHeading(heading: string) {
    (heading == "" || heading[0] == ' ')
    && forall k :: 0 <= k < |heading| - 1 ==> heading[k] != '@' || heading[k + 1] != '@'
  }

  function Header(oldStart: nat, oldCount: nat, newStart: nat, newCount: nat, heading: string): string {
    "@@ -" + Range(oldStart, oldCount) + (" +" + Range(newStart, newCount) + " @@" + heading)
  }

  lemma RangeCharacters(start: nat, count: nat)
    ensures forall i :: 0 <= i < |Range(start, count)| ==>
              Digit(Range(start, count)[i]) || Range(start, count)[i] == ','
  {
  }

  lemma CountRead(count: nat, rest: string)
    ensures CountEnd(CountText(count) + (" @@" + rest)) == |CountText(count)|
  {
    hide Decimal;
    if count != 1 {
      DigitRunStops(Decimal(count), " @@" + rest);
      assert (CountText(count) + (" @@" + rest))[1..] == Decimal(count) + (" @@" + rest);
    }
  }

  lemma RangeRead(start: nat, count: nat, rest: string)
    ensures NewRange(" +" + Range(start, count) + " @@" + rest) == Some((start, |Range(start, count)| + 2))
  {
    hide Decimal, CountText, CountEnd, DigitRun, Value;
    var d, c, tail := Decimal(start), CountText(count), " @@" + rest;
    var s := " +" + Range(start, count) + " @@" + rest;
    var t := s[2..];
    assert t == d + (c + tail);
    CountTextBegins(count, tail);
    DigitRunStops(d, c + tail);
    CountRead(count, rest);
    assert t[|d|..] == c + tail;
    assert t[|d| + |c|..] == tail;
    assert t[..|d|] == d;
    DecimalValue(start);
  }

  lemma CountTextBegins(count: nat, tail: string)
    requires tail != "" && !Digit(tail[0])
    ensures !Digit((CountText(count) + tail)[0])
  {
  }

  /** The header as it is written is read back: the range of the new file is the last one on the
      line. */
  lemma HeaderRead(oldStart: nat, oldCount: nat, newStart: nat, newCount: nat, heading: string)
    requires PlainHeading(heading)
    ensures MatchHunk(Header(oldStart, oldCount, newStart, newCount, heading)) == Some(newStart)
  {
    hide Range, Value, Decimal, NewRange, LastRange;
    var front, r := "@@ -" + Range(oldStart, oldCount), Range(newStart, newCount);
    var line := Header(oldStart, oldCount, newStart, newCount, heading);
    var s := " +" + r + " @@" + heading;
    assert line == front + s;
    assert line[|front|..] == s;
    RangeRead(newStart, newCount, heading);
    RangeCharacters(newStart, newCount);
    assert line[..3] == "@@ ";
    forall i | |front| < i <= |line| ensures NewRange(line[i..]).None? {
      NoLaterRange(r, heading, i - |front|);
      assert line[i..] == s[i - |front|..];
    }
    LastRangeAt(line, |line|, |front|);
  }

  lemma NoLaterRange(r: string, heading: string, i: nat)
    requires PlainHeading(heading) && forall k :: 0 <= k < |r| ==> Digit(r[k]) || r[k] == ','
    requires 0 < i <= |r| + 5 + |heading|
    ensures NewRange((" +" + r + " @@" + heading)[i..]).None?
  {
    hide NewRange;
    if NewRange((" +" + r + " @@" + heading)[i..]).Some? {
      var k := LaterRange(r, heading, i);
      assert false;
    }
  }

  lemma LaterRange(r: string, heading: string, i: nat) returns (k: nat)
    requires heading == "" || heading[0] == ' '
    requires forall k :: 0 <= k < |r| ==> Digit(r[k]) || r[k] == ','
    requires 0 < i <= |r| + 5 + |heading| && NewRange((" +" + r + " @@" + heading)[i..]).Some?
    ensures k + 1 < |heading| && heading[k] == '@' && heading[k + 1] == '@'
  {
    hide NewRange;
    var s := " +" + r + " @@" + heading;
    var m := NewRange(s[i..]);
    var e := i + m.value.1;
    assert s[i] == s[i..][0] && s[i + 1] == s[i..][1];
    assert i > |r| + 2;
    assert s[e..e + 3] == s[i..][m.value.1..m.value.1 + 3];
    assert s[e..e + 3][1] == s[e + 1] && s[e..e + 3][2] == s[e + 2];
    k := e + 1 - (|r| + 5);
  }

  lemma {:induction false} LastRangeAt(line: string, i: nat, at: nat)
    requires 3 <= at <= i <= |line| && NewRange(line[at..]).Some?
    requires forall k :: at < k <= i ==> NewRange(line[k..]).None?
    ensures LastRange(line, i, 3) == Some(NewRange(line[at..]).value.0)
  {
    hide NewRange;
    if i > at { LastRangeAt(line, i - 1, at); }
  }
}
