/** The text tools of the Alloy ingestion harness: the Prometheus label parser and the rewriting of
    brace-delimited configuration blocks. */
module AlloyText {
  import opened Common
  import opened Texts

  // ---- labels: recognising ---------------------------------------------------------------------------

  predicate NameStart(c: char) { 'A' <= c <= 'Z' || 'a' <= c <= 'z' || c == '_' }

  predicate NameChar(c: char) { NameStart(c) || '0' <= c <= '9' }

  predicate ValidName(name: string) {
    name != "" && NameStart(name[0]) && forall i :: 0 <= i < |name| ==> NameChar(name[i])
  }

  /** The length of the longest run of name characters. */
  function NameRun(s: string): (n: nat)
    ensures n <= |s|
  {
    if s != "" && NameChar(s[0]) then 1 + NameRun(s[1..]) else 0
  }

  /** Where the quoted value ends: the first quote that no backslash escapes. */
  function ClosingQuote(s: string): (n: Option<nat>)
    ensures n.Some? ==> n.value < |s| && s[n.value] == '"'
  {
    if s == "" then None
    else if s[0] == '"' then Some(0)
    else if s[0] == '\\' then
      if |s| < 2 || s[1] == '\n' then None
      else
        var n := ClosingQuote(s[2..]);
        if n.Some? then Some(n.value + 2) else None
    else
      var n := ClosingQuote(s[1..]);
      if n.Some? then Some(n.value + 1) else None
  }

  /** A `\u` escape; a surrogate half becomes U+FFFD. */
  function UnicodeEscape(s: string): Option<char>
    requires |s| == 4
  {
    var a, b, c, d := HexValue(s[0]), HexValue(s[1]), HexValue(s[2]), HexValue(s[3]);
    if a.None? || b.None? || c.None? || d.None? then None
    else
      var code := ((a.value * 16 + b.value) * 16 + c.value) * 16 + d.value;
      if 0 <= code < 0xD800 || 0xE000 <= code < 0x10000 then Some(code as char) else Some('\U{FFFD}')
  }

  function SimpleEscape(c: char): Option<char> {
    match c
    case '"' => Some('"')
    case '\\' => Some('\\')
    case '/' => Some('/')
    case 'b' => Some('\U{0008}')
    case 'f' => Some('\U{000C}')
    case 'n' => Some('\n')
    case 'r' => Some('\r')
    case 't' => Some('\t')
    case _ => None
  }

  /** `json.loads` of the value between its quotes; `None` where it raises. */
  function DecodeJson(s: string): Option<string> {
    if s == "" then Some("")
    else if s[0] < ' ' || s[0] == '"' then None
    else if s[0] != '\\' then Prepend(s[0], DecodeJson(s[1..]))
    else if |s| < 2 then None
    else if s[1] == 'u' then
      if |s| < 6 then None
      else
        var c := UnicodeEscape(s[2..6]);
        if c.None? then None else Prepend(c.value, DecodeJson(s[6..]))
    else
      var c := SimpleEscape(s[1]);
      if c.None? then None else Prepend(c.value, DecodeJson(s[2..]))
  }

  function Prepend(c: char, s: Option<string>): Option<string> {
    if s.None? then None else Some([c] + s.value)
  }

  // ---- every spelling of a text ------------------------------------------------------------------------

  /** How a character may be written in JSON: as it is, by its short escape, or by its code. */
  datatype Spelling = Plain | Short | Coded(upper: bool)

  predicate Spellable(c: char, k: Spelling) {
    match k
    case Plain => c >= ' ' && c != '"' && c != '\\'
    case Short => c in {'"', '\\', '/', '\U{8}', '\U{C}', '\n', '\r', '\t'}
    case Coded(_) => c as int < 0xD800 || 0xE000 <= c as int < 0x10000
  }

  function Spell(c: char, k: Spelling): string
    requires Spellable(c, k)
  {
    match k
    case Plain => [c]
    case Short =>
      if c == '\n' then "\\n" else if c == '\r' then "\\r" else if c == '\t' then "\\t"
      else if c == '\U{8}' then "\\b" else if c == '\U{C}' then "\\f" else ['\\', c]
    case Coded(upper) => ['\\', 'u'] + Digits(c as int, upper)
  }

  function Digit(n: nat, upper: bool): char
    requires n < 16
  {
    if n < 10 then ('0' as int + n) as char else ((if upper then 'A' else 'a') as int + n - 10) as char
  }

  function Digits(code: nat, upper: bool): (s: string)
    requires code < 0x10000
    ensures |s| == 4
  {
    var high, low := code / 16 / 16, code / 16;
    [Digit(high / 16, upper), Digit(high % 16, upper), Digit(low % 16, upper), Digit(code % 16, upper)]
  }

  predicate SpellableText(value: string, ks: seq<Spelling>) {
    |ks| == |value| && forall i :: 0 <= i < |value| ==> Spellable(value[i], ks[i])
  }

  function SpellText(value: string, ks: seq<Spelling>): string
    requires SpellableText(value, ks)
  {
    if value == "" then "" else Spell(value[0], ks[0]) + SpellText(value[1..], ks[1..])
  }

  lemma DigitValue(n: nat, upper: bool)
    requires n < 16
    ensures HexValue(Digit(n, upper)) == Some(n)
  {
  }

  lemma CodeRead(c: char, upper: bool)
    requires Spellable(c, Coded(upper))
    ensures UnicodeEscape(Digits(c as int, upper)) == Some(c)
  {
    hide Digit, HexValue;
    var n := c as int;
    var low := n / 16;
    var high := low / 16;
    DigitValue(high / 16, upper);
    DigitValue(high % 16, upper);
    DigitValue(low % 16, upper);
    DigitValue(n % 16, upper);
  }

  /** However the characters of a text are escaped, it is read back. */
  lemma {:induction false} SpellingRead(value: string, ks: seq<Spelling>)
    requires SpellableText(value, ks)
    ensures DecodeJson(SpellText(value, ks)) == Some(value)
  {
    if value != "" {
      hide SpellText, Spell, DecodeJson;
      SpellingRead(value[1..], ks[1..]);
      OneRead(value[0], ks[0], SpellText(value[1..], ks[1..]));
      Unfolded(value, ks);
      assert [value[0]] + value[1..] == value;
    }
  }

  lemma Unfolded(value: string, ks: seq<Spelling>)
    requires SpellableText(value, ks) && value != ""
    ensures SpellText(value, ks) == Spell(value[0], ks[0]) + SpellText(value[1..], ks[1..])
  {
  }

  lemma OneRead(c: char, k: Spelling, tail: string)
    requires Spellable(c, k)
    ensures DecodeJson(Spell(c, k) + tail) == Prepend(c, DecodeJson(tail))
  {
    hide Digits, UnicodeEscape;
    var s := Spell(c, k) + tail;
    match k
    case Plain => assert s[0] == c && s[1..] == tail;
    case Short => assert s[0] == '\\' && s[1] == Spell(c, k)[1] != 'u' && s[2..] == tail;
    case Coded(upper) =>
      CodeRead(c, upper);
      assert s[0] == '\\' && s[1] == 'u' && s[2..6] == Digits(c as int, upper) && s[6..] == tail;
  }

  // ---- labels: parsing -------------------------------------------------------------------------------

  /** One `name="value"`: its parts and the length it takes. */
  datatype Match = Match(name: string, value: string, length: nat)

  /** The label pattern at the start of `s`. */
  function MatchLabel(s: string): (m: Option<Match>)
    ensures m.Some? ==> 0 < m.value.length <= |s|
  {
    var n := NameRun(s);
    if n == 0 || !NameStart(s[0]) || |s| < n + 2 || s[n..n + 2] != "=\"" then None
    else
      var v := ClosingQuote(s[n + 2..]);
      if v.None? then None
      else Some(Match(s[..n], s[n + 2..n + 2 + v.value], n + 3 + v.value))
  }

  /** What the loop makes of the text that is left, given the labels so far. */
  function ParseRest(s: string, labels: map<string, string>): Option<map<string, string>>
    decreases |s|
  {
    if s == "" then Some(labels)
    else
      var m := MatchLabel(s);
      if m.None? || m.value.name in labels then None
      else
        var value := DecodeJson(m.value.value);
        if value.None? then None
        else
          var labels' := labels[m.value.name := value.value];
          var rest := s[m.value.length..];
          if rest == "" then Some(labels')
          else if rest[0] != ',' then None
          else ParseRest(rest[1..], labels')
  }

  /** `parse_prometheus_labels`; `None` where it raises. */
  method ParseLabels(text: string) returns (result: Option<map<string, string>>)
    ensures result == ParseRest(text, map[])
  {
    hide MatchLabel, DecodeJson;
    var labels: map<string, string> := map[];
    var position := 0;
    assert text[0..] == text;
    while position < |text|
      invariant 0 <= position <= |text|
      invariant ParseRest(text[position..], labels) == ParseRest(text, map[])
    {
      var rest := text[position..];
      var m := MatchLabel(rest);
      if m.None? || m.value.name in labels { return None; }
      var value := DecodeJson(m.value.value);
      if value.None? { return None; }
      labels := labels[m.value.name := value.value];
      position := position + m.value.length;
      assert rest[m.value.length..] == text[position..];
      if position == |text| { return Some(labels); }
      if text[position] != ',' { return None; }
      position := position + 1;
    }
    return Some(labels);
  }

  // ---- labels: printing ------------------------------------------------------------------------------

  /** The escapes of the Prometheus text format for label values. */
  function Escape(s: string): string {
    if s == "" then "" else EscapeOne(s[0]) + Escape(s[1..])
  }

  function EscapeOne(c: char): string {
    match c case '\\' => "\\\\" case '"' => "\\\"" case '\n' => "\\n" case _ => [c]
  }

  function PrintLabel(entry: (string, string)): string {
    entry.0 + "=\"" + Escape(entry.1) + "\""
  }

  function Print(labels: seq<(string, string)>): string {
    if labels == [] then ""
    else if |labels| == 1 then PrintLabel(labels[0])
    else PrintLabel(labels[0]) + "," + Print(labels[1..])
  }

  /** Adding the labels in order, as the parser does: `None` on a name already taken or a value
      that JSON does not let through. */
  function Collected(labels: seq<(string, string)>, sofar: map<string, string>): Option<map<string, string>> {
    if labels == [] then Some(sofar)
    else if labels[0].0 in sofar || !Clean(labels[0].1) then None
    else Collected(labels[1..], sofar[labels[0].0 := labels[0].1])
  }

  /** No control character but newline. */
  predicate Clean(s: string) {
    forall i :: 0 <= i < |s| ==> s[i] >= ' ' || s[i] == '\n'
  }

  lemma {:induction false} NameRunStops(name: string, rest: string)
    requires forall i :: 0 <= i < |name| ==> NameChar(name[i])
    requires rest != "" && !NameChar(rest[0])
    ensures NameRun(name + rest) == |name|
  {
    if name == "" {
      assert name + rest == rest;
    } else {
      NameRunStops(name[1..], rest);
      assert (name + rest)[1..] == name[1..] + rest;
    }
  }

  lemma {:induction false} EscapeCloses(value: string, rest: string)
    ensures ClosingQuote(Escape(value) + "\"" + rest) == Some(|Escape(value)|)
  {
    var s := Escape(value) + "\"" + rest;
    if value == "" {
      assert s == "\"" + rest;
    } else {
      EscapeCloses(value[1..], rest);
      var tail := Escape(value[1..]) + "\"" + rest;
      if value[0] in {'\\', '"', '\n'} {
        assert s[2..] == tail;
      } else {
        assert s[1..] == tail;
      }
    }
  }

  lemma DecodesOne(c: char, tail: string)
    ensures DecodeJson(EscapeOne(c) + tail) == if c >= ' ' || c == '\n' then Prepend(c, DecodeJson(tail)) else None
  {
    hide Prepend;
    var e := EscapeOne(c);
    assert (e + tail)[|e|..] == tail;
    if |e| == 2 {
      assert (e + tail)[0] == '\\' && (e + tail)[1] == e[1] != 'u' && SimpleEscape(e[1]) == Some(c);
    } else {
      assert (e + tail)[0] == c;
    }
  }

  /** JSON reads back what was escaped, unless a control character other than newline is in it. */
  lemma {:induction false} EscapeDecodes(value: string)
    ensures DecodeJson(Escape(value)) == if Clean(value) then Some(value) else None
  {
    if value != "" {
      hide EscapeOne, DecodeJson;
      EscapeDecodes(value[1..]);
      DecodesOne(value[0], Escape(value[1..]));
      assert value == [value[0]] + value[1..];
      assert Clean(value) <==> Clean(value[1..]) && (value[0] >= ' ' || value[0] == '\n');
    }
  }

  lemma MatchesPieces(name: string, quoted: string, rest: string, s: string)
    requires ValidName(name) && s == name + "=\"" + (quoted + "\"" + rest)
    requires NameRun(s) == |name| && ClosingQuote(quoted + "\"" + rest) == Some(|quoted|)
    ensures MatchLabel(s) == Some(Match(name, quoted, |name| + 3 + |quoted|))
  {
    hide NameRun, ClosingQuote, NameChar;
    var n, tail := |name|, quoted + "\"" + rest;
    assert s[n + 2..] == tail && s[..n] == name && s[n..n + 2] == "=\"";
    assert s[n + 2..n + 2 + |quoted|] == tail[..|quoted|] == quoted;
    assert s[0] == name[0];
  }

  lemma LabelMatches(entry: (string, string), rest: string)
    requires ValidName(entry.0)
    ensures MatchLabel(PrintLabel(entry) + rest) == Some(Match(entry.0, Escape(entry.1), |PrintLabel(entry)|))
  {
    hide Escape, NameRun, ClosingQuote, MatchLabel;
    var quoted := Escape(entry.1);
    var tail := quoted + "\"" + rest;
    var s := entry.0 + "=\"" + tail;
    assert s == PrintLabel(entry) + rest;
    assert s == entry.0 + ("=\"" + tail);
    NameRunStops(entry.0, "=\"" + tail);
    EscapeCloses(entry.1, rest);
    MatchesPieces(entry.0, quoted, rest, s);
  }

  lemma {:induction false} PrintedParses(labels: seq<(string, string)>, sofar: map<string, string>)
    requires forall i :: 0 <= i < |labels| ==> ValidName(labels[i].0)
    ensures ParseRest(Print(labels), sofar) == Collected(labels, sofar)
  {
    hide MatchLabel, DecodeJson, Escape, Clean, ValidName;
    if labels != [] {
      var entry := labels[0];
      var rest := if |labels| == 1 then "" else "," + Print(labels[1..]);
      assert Print(labels) == PrintLabel(entry) + rest;
      LabelMatches(entry, rest);
      EscapeDecodes(entry.1);
      var s := Print(labels);
      assert s[|PrintLabel(entry)|..] == rest;
      PrintedParses(labels[1..], sofar[entry.0 := entry.1]);
      if |labels| > 1 { assert rest[1..] == Print(labels[1..]); }
    }
  }

  ghost predicate DistinctNames(labels: seq<(string, string)>) {
    forall i, j :: 0 <= i < j < |labels| ==> labels[i].0 != labels[j].0
  }

  ghost predicate Represents(labels: seq<(string, string)>, m: map<string, string>) {
    && m.Keys == (set i | 0 <= i < |labels| :: labels[i].0)
    && forall i :: 0 <= i < |labels| ==> m[labels[i].0] == labels[i].1
  }

  lemma {:induction false} CollectedMeaning(labels: seq<(string, string)>, sofar: map<string, string>)
    ensures Collected(labels, sofar).Some? <==>
              && DistinctNames(labels) && (forall i :: 0 <= i < |labels| ==> Clean(labels[i].1))
              && (forall i :: 0 <= i < |labels| ==> labels[i].0 !in sofar)
    ensures Collected(labels, sofar).Some? ==>
              var m := Collected(labels, sofar).value;
              && m.Keys == sofar.Keys + (set i | 0 <= i < |labels| :: labels[i].0)
              && (forall i :: 0 <= i < |labels| ==> m[labels[i].0] == labels[i].1)
              && (forall k :: k in sofar ==> m[k] == sofar[k])
  {
    if labels != [] && labels[0].0 !in sofar && Clean(labels[0].1) {
      var rest := labels[1..];
      CollectedMeaning(rest, sofar[labels[0].0 := labels[0].1]);
      assert forall i :: 0 < i < |labels| ==> labels[i] == rest[i - 1];
    }
  }

  /** The label round trip: printing any labels and parsing the text back returns the same map if
      and only if the names are distinct and no value has a control character but newline. */
  lemma LabelRoundTrip(labels: seq<(string, string)>)
    requires forall i :: 0 <= i < |labels| ==> ValidName(labels[i].0)
    ensures (exists m :: ParseRest(Print(labels), map[]) == Some(m) && Represents(labels, m)) <==>
              DistinctNames(labels) && forall i :: 0 <= i < |labels| ==> Clean(labels[i].1)
    ensures ParseRest(Print(labels), map[]).Some? ==> Represents(labels, ParseRest(Print(labels), map[]).value)
  {
    PrintedParses(labels, map[]);
    CollectedMeaning(labels, map[]);
  }

  // ---- brace blocks ----------------------------------------------------------------------------------

  datatype RangeResult = Found(start: nat, end: nat) | Missing | Unterminated

  /** The nesting depth after one more character. */
  function Nest(depth: int, c: char): int {
    if c == '{' then depth + 1 else if c == '}' then depth - 1 else depth
  }

  function Depth(s: string): int {
    if s == "" then 0 else Nest(Depth(s[..|s| - 1]), s[|s| - 1])
  }

  /** A text that opens with a brace and is closed by its last character and not before. */
  ghost predicate BalancedBlock(s: string) {
    && s != "" && s[0] == '{' && s[|s| - 1] == '}' && Depth(s) == 0
    && forall k :: 0 < k < |s| ==> Depth(s[..k]) > 0
  }

  /** The characters the loop visits: from the opening brace on; when there is none, `find`
      answers -1 and the loop starts with the last character and goes on with the whole text. */
  function Visited(config: string, opening: Option<nat>): string
    requires opening.Some? ==> opening.value <= |config|
    requires config != ""
  {
    match opening
    case Some(i) => config[i..]
    case None => [config[|config| - 1]] + config
  }

  /** The position of the character that brings the depth back to zero, from `i` on. */
  function Scan(visited: string, i: nat, depth: int): (end: Option<nat>)
    requires i <= |visited|
    ensures end.Some? ==> i <= end.value < |visited| && visited[end.value] == '}'
    decreases |visited| - i
  {
    if i == |visited| then None
    else if visited[i] == '}' && Nest(depth, visited[i]) == 0 then Some(i)
    else Scan(visited, i + 1, Nest(depth, visited[i]))
  }

  function BlockRangeOf(config: string, marker: string): RangeResult
    requires config != ""
  {
    match FindFrom(config, marker, 0)
    case None => Missing
    case Some(start) =>
      var opening := FindFrom(config, "{", start);
      match Scan(Visited(config, opening), 0, 0)
      case None => Unterminated
      case Some(i) => Found(start, if opening.Some? then opening.value + i + 1 else i)
  }

  /** `block_range` (on a text that is not empty). */
  method BlockRange(config: string, marker: string) returns (r: RangeResult)
    requires config != ""
    ensures r == BlockRangeOf(config, marker)
  {
    var start := FindFrom(config, marker, 0);
    if start.None? { return Missing; }
    var opening := FindFrom(config, "{", start.value);
    var visited := Visited(config, opening);
    var depth, i := 0, 0;
    while i < |visited|
      invariant 0 <= i <= |visited| && Scan(visited, i, depth) == Scan(visited, 0, 0)
    {
      if visited[i] == '{' {
        depth := depth + 1;
      } else if visited[i] == '}' {
        depth := depth - 1;
        if depth == 0 {
          return Found(start.value, if opening.Some? then opening.value + i + 1 else i);
        }
      }
      i := i + 1;
    }
    return Unterminated;
  }

  /** From an opening brace, the scan finds the end of the block it opens, or there is none. */
  lemma {:induction false} ScanFindsBlock(s: string, i: nat)
    requires i <= |s| && s != "" && s[0] == '{'
    requires forall k :: 0 < k <= i ==> Depth(s[..k]) > 0
    ensures var end := Scan(s, i, Depth(s[..i]));
            if end.Some? then BalancedBlock(s[..end.value + 1])
            else forall k :: i < k <= |s| ==> !BalancedBlock(s[..k])
    decreases |s| - i
  {
    if i < |s| {
      assert s[..i + 1][..i] == s[..i];
      var next := Nest(Depth(s[..i]), s[i]);
      assert Depth(s[..i + 1]) == next;
      if s[i] == '}' && next == 0 {
        var block := s[..i + 1];
        forall k | 0 < k < |block| ensures Depth(block[..k]) > 0 {
          assert block[..k] == s[..k];
        }
      } else {
        assert s[..0] == "" && next > 0;
        ScanFindsBlock(s, i + 1);
      }
    }
  }

  /** The reported range ends the block that the first brace at or after the marker opens. */
  ghost predicate DelimitsBlock(config: string, start: nat, end: nat) {
    start <= |config|
    && var opening := FindFrom(config, "{", start);
       opening.Some? && opening.value < end <= |config| && BalancedBlock(config[opening.value..end])
  }

  /** What `block_range` reports is right exactly when an opening brace follows the marker. */
  lemma BlockRangeExact(config: string, marker: string)
    requires config != ""
    ensures var r := BlockRangeOf(config, marker);
            && (r.Found? ==> FindFrom(config, marker, 0) == Some(r.start))
            && (r.Found? ==> (DelimitsBlock(config, r.start, r.end) <==> FindFrom(config, "{", r.start).Some?))
            && (r.Unterminated? ==>
                  var opening := FindFrom(config, "{", FindFrom(config, marker, 0).value);
                  opening.Some? ==>
                    forall end :: opening.value < end <= |config| ==> !BalancedBlock(config[opening.value..end]))
  {
    hide Scan, FindFrom, BalancedBlock, Depth;
    var start := FindFrom(config, marker, 0);
    if start.Some? {
      var opening := FindFrom(config, "{", start.value);
      if opening.Some? {
        BlockFromBrace(config, opening.value);
      }
    }
  }

  lemma BlockFromBrace(config: string, opening: nat)
    requires opening < |config| && config[opening] == '{'
    ensures var end := Scan(config[opening..], 0, 0);
            if end.Some? then BalancedBlock(config[opening..opening + end.value + 1])
            else forall end' :: opening < end' <= |config| ==> !BalancedBlock(config[opening..end'])
  {
    hide BalancedBlock;
    var visited := config[opening..];
    assert visited[..0] == "";
    ScanFindsBlock(visited, 0);
    var end := Scan(visited, 0, 0);
    if end.Some? {
      assert visited[..end.value + 1] == config[opening..opening + end.value + 1];
    } else {
      forall end' | opening < end' <= |config| ensures !BalancedBlock(config[opening..end']) {
        assert visited[..end' - opening] == config[opening..end'];
      }
    }
  }

  /** Without such a brace an earlier block may be reported, in front of the marker. */
  lemma MarkerWithoutBlock()
    ensures BlockRangeOf("{}m", "m") == Found(2, 2)
  {
    var config := "{}m";
    assert config[0] == '{' && config[1] == '}' && config[2] == 'm';
    assert !("m" <= config[0..]) && !("m" <= config[1..]) && "m" <= config[2..];
    assert FindFrom(config, "m", 0) == FindFrom(config, "m", 1) == FindFrom(config, "m", 2) == Some(2);
    assert !("{" <= config[2..]) && !("{" <= config[3..]);
    assert FindFrom(config, "{", 2) == FindFrom(config, "{", 3) == None;
    var visited := Visited(config, None);
    assert visited == "m{}m";
    assert Scan(visited, 0, 0) == Scan(visited, 1, 0) == Scan(visited, 2, 1) == Some(2);
  }

  /** `replace_block` (slices past either end are clipped, as in the source). */
  function ReplaceBlock(config: string, marker: string, replacement: string): Option<string>
    requires config != ""
  {
    match BlockRangeOf(config, marker)
    case Found(start, end) =>
      if start <= |config| && end <= |config| then Some(config[..start] + replacement + config[end..]) else None
    case _ => None
  }

  /** When a brace follows the marker, replacing a block by its own text is the identity, and any
      replacement leaves what stands in front of and behind the block untouched. */
  lemma ReplaceKeepsSurroundings(config: string, marker: string, replacement: string)
    requires config != "" && BlockRangeOf(config, marker).Found?
    requires FindFrom(config, "{", BlockRangeOf(config, marker).start).Some?
    ensures var r := BlockRangeOf(config, marker);
            && ReplaceBlock(config, marker, config[r.start..r.end]) == Some(config)
            && var new_ := ReplaceBlock(config, marker, replacement);
               && new_.Some? && |new_.value| == |config| - (r.end - r.start) + |replacement|
               && new_.value[..r.start] == config[..r.start]
               && new_.value[|new_.value| - (|config| - r.end)..] == config[r.end..]
  {
    hide FindFrom, BalancedBlock, Scan, Visited;
    BlockRangeExact(config, marker);
    var r := BlockRangeOf(config, marker);
    assert r.start <= r.end <= |config|;
    assert config[..r.start] + config[r.start..r.end] + config[r.end..] == config;
  }
}
