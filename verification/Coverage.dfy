/** Executable and covered lines from Go coverage profiles (`profile_lines`), and the verdict on the
    changed lines (`evaluate`). */
module Coverage {
  import opened Common
  import opened Texts
  import opened Paths
  import opened UnifiedDiff

  /** A parsed profile entry; the end column decides whether the end line belongs to the block. */
  datatype Entry = Entry(source: string, start: nat, end: nat, endColumn: nat, count: nat)

  /** A line after the header: `None` when it does not parse. */
  datatype Profile = Profile(inModule: bool, present: bool, header: bool, lines: seq<Option<Entry>>)

  datatype Config = Config(directory: seq<string>, exclusions: seq<seq<string>>)

  /** The entry's file relative to the module: what follows the first occurrence of its directory. */
  function Place(e: Entry, c: Config): Option<seq<string>> {
    var marker := "/" + Posix(c.directory) + "/";
    var i := FindFrom(e.source, marker, 0);
    if i.None? then None
    else
      var rest := e.source[i.value + |marker|..];
      if Absolute(rest) then None else Some(Parts(rest))
  }

  predicate Excluded(parts: seq<string>, c: Config) { exists k :: 0 <= k < |c.exclusions| && c.exclusions[k] <= parts }

  /** Profile end coordinates are exclusive. */
  function Stop(e: Entry): nat { e.end + if e.endColumn > 1 then 1 else 0 }

  function PathOf(e: Entry, c: Config): string
    requires Place(e, c).Some?
  {
    Posix(c.directory + Place(e, c).value)
  }

  /** The entry counts the coordinate as executable. */
  ghost predicate Spans(e: Entry, c: Config, at: Coordinate) {
    && Place(e, c).Some? && !Excluded(Place(e, c).value, c)
    && at.0 == PathOf(e, c) && e.start <= at.1 < Stop(e)
  }

  lemma Found(s: string, prefix: string, marker: string, rest: string)
    requires s == prefix + marker + rest && forall k :: 0 <= k < |prefix| ==> !(marker <= s[k..])
    ensures FindFrom(s, marker, 0) == Some(|prefix|) && s[|prefix| + |marker|..] == rest
  {
    assert s[|prefix|..] == marker + rest;
    var i := FindFrom(s, marker, 0);
    if i.Some? { assert s[i.value..][..|marker|] == s[i.value..i.value + |marker|]; }
  }

  /** The file of an entry: what stands after the module's directory in its import path, unless that
      directory's text occurs earlier in it. */
  lemma PlaceExact(e: Entry, c: Config, prefix: string, parts: seq<string>)
    requires PartNames(parts) && parts != []
    requires var marker := "/" + Posix(c.directory) + "/";
             e.source == prefix + marker + Join(parts)
             && forall k :: 0 <= k < |prefix| ==> !(marker <= e.source[k..])
    ensures Place(e, c) == Some(parts) && PathOf(e, c) == Posix(c.directory + parts)
  {
    hide Posix, Join, Parts, PartName;
    var marker := "/" + Posix(c.directory) + "/";
    Found(e.source, prefix, marker, Join(parts));
    NotAbsolute(parts);
    PartsOfJoin(parts);
  }

  /** A file is excluded exactly when its path is an excluded one or lies below it. */
  lemma ExcludedExact(parts: seq<string>, c: Config)
    requires PartNames(parts) && parts != []
    requires forall k :: 0 <= k < |c.exclusions| ==> PartNames(c.exclusions[k]) && c.exclusions[k] != []
    ensures Excluded(parts, c) <==>
              exists e :: e in c.exclusions && (Join(parts) == Join(e) || Join(e) + "/" <= Join(parts))
  {
    hide Join, PartName;
    forall e | e in c.exclusions
      ensures Join(parts) == Join(e) || Join(e) + "/" <= Join(parts) <==> e <= parts
    {
      WithinRoot(parts, e);
    }
    if Excluded(parts, c) {
      var k :| 0 <= k < |c.exclusions| && c.exclusions[k] <= parts;
      assert c.exclusions[k] in c.exclusions;
    }
  }

  /** A line and column come before another. */
  predicate Before(a: (nat, nat), b: (nat, nat)) { a.0 < b.0 || (a.0 == b.0 && a.1 < b.1) }

  /** In terms of positions: a block counts the lines from its first on of which some column, counted
      from one, comes before its end. */
  lemma SpansByPosition(e: Entry, c: Config, at: Coordinate)
    requires Place(e, c).Some? && !Excluded(Place(e, c).value, c) && at.0 == PathOf(e, c)
    ensures Spans(e, c, at) <==>
              e.start <= at.1 && exists column: nat :: column >= 1 && Before((at.1, column), (e.end, e.endColumn))
  {
    hide Place, Excluded, PathOf;
    if Spans(e, c, at) { assert Before((at.1, 1), (e.end, e.endColumn)); }
  }

  ghost predicate ReadableLine(line: Option<Entry>, c: Config) { line.Some? && Place(line.value, c).Some? }

  ghost predicate Readable(p: Profile, c: Config) {
    p.inModule && p.present && p.header && forall i :: 0 <= i < |p.lines| ==> ReadableLine(p.lines[i], c)
  }

  /** The entries of all profiles, as a set: their order and their distribution do not matter. */
  ghost function Entries(profiles: seq<Profile>): set<Entry> {
    if profiles == [] then {}
    else Entries(profiles[..|profiles| - 1]) + LineEntries(profiles[|profiles| - 1].lines)
  }

  ghost function LineEntries(lines: seq<Option<Entry>>): set<Entry> {
    if lines == [] then {}
    else LineEntries(lines[..|lines| - 1]) + match lines[|lines| - 1] case Some(e) => {e} case None => {}
  }

  ghost predicate ExecutableIn(es: set<Entry>, c: Config, at: Coordinate) { exists e :: e in es && Spans(e, c, at) }

  ghost predicate CoveredIn(es: set<Entry>, c: Config, at: Coordinate) {
    exists e :: e in es && Spans(e, c, at) && e.count > 0
  }

  datatype Lines = Lines(executable: set<Coordinate>, covered: set<Coordinate>)

  ghost predicate Measures(l: Lines, es: set<Entry>, c: Config) {
    && (forall at :: at in l.executable <==> ExecutableIn(es, c, at))
    && (forall at :: at in l.covered <==> CoveredIn(es, c, at))
  }

  /** `profile_lines`; without a value it raises. The result is a function of the set of entries. */
  method ProfileLines(profiles: seq<Profile>, c: Config) returns (result: Option<Lines>)
    ensures result.Some? <==> forall i :: 0 <= i < |profiles| ==> Readable(profiles[i], c)
    ensures result.Some? ==> Measures(result.value, Entries(profiles), c)
    ensures result.Some? ==> result.value.covered <= result.value.executable
  {
    hide Measures, Spans, Place;
    var lines := Lines({}, {});
    NothingMeasured(c);
    for i := 0 to |profiles|
      invariant forall k :: 0 <= k < i ==> Readable(profiles[k], c)
      invariant Measures(lines, Entries(profiles[..i]), c)
    {
      var p := profiles[i];
      if !p.inModule || !p.present || !p.header { return None; }
      assert Entries(profiles[..i]) + LineEntries(p.lines[..0]) == Entries(profiles[..i]);
      for k := 0 to |p.lines|
        invariant forall j :: 0 <= j < k ==> ReadableLine(p.lines[j], c)
        invariant Measures(lines, Entries(profiles[..i]) + LineEntries(p.lines[..k]), c)
      {
        if p.lines[k].None? { return None; }
        var e := p.lines[k].value;
        if Place(e, c).None? { return None; }
        assert p.lines[..k + 1][..k] == p.lines[..k];
        ghost var es := Entries(profiles[..i]) + LineEntries(p.lines[..k]);
        lines := Count(lines, e, c, es);
        assert es + {e} == Entries(profiles[..i]) + LineEntries(p.lines[..k + 1]);
      }
      assert p.lines[..|p.lines|] == p.lines;
      assert profiles[..i + 1][..i] == profiles[..i];
    }
    assert profiles[..|profiles|] == profiles;
    CoveredIsExecutable(lines, Entries(profiles), c);
    result := Some(lines);
  }

  /** The loop over the lines of one entry. */
  method Count(lines: Lines, e: Entry, c: Config, ghost es: set<Entry>) returns (r: Lines)
    requires Place(e, c).Some? && Measures(lines, es, c)
    ensures Measures(r, es + {e}, c)
  {
    hide Place;
    r := lines;
    if Excluded(Place(e, c).value, c) { return; }
    var path := PathOf(e, c);
    for at := e.start to if Stop(e) > e.start then Stop(e) else e.start
      invariant forall x :: x in r.executable <==> x in lines.executable || (x.0 == path && e.start <= x.1 < at)
      invariant forall x :: x in r.covered <==>
                  x in lines.covered || (e.count > 0 && x.0 == path && e.start <= x.1 < at)
    {
      r := Lines(r.executable + {(path, at)}, if e.count > 0 then r.covered + {(path, at)} else r.covered);
    }
    forall x ensures (x in r.executable <==> ExecutableIn(es + {e}, c,
                                                          x)) && (x in r.covered <==> CoveredIn(es + {e}, c, x)) {
      OneMore(es, e, c, x);
    }
  }

  lemma OneMore(es: set<Entry>, e: Entry, c: Config, at: Coordinate)
    ensures ExecutableIn(es + {e}, c, at) <==> ExecutableIn(es, c, at) || Spans(e, c, at)
    ensures CoveredIn(es + {e}, c, at) <==> CoveredIn(es, c, at) || (Spans(e, c, at) && e.count > 0)
  {
    hide Spans;
    assert e in es + {e};
    forall x | x in es ensures x in es + {e} {}
  }

  lemma NothingMeasured(c: Config)
    ensures Measures(Lines({}, {}), {}, c)
  {
  }

  lemma CoveredIsExecutable(l: Lines, es: set<Entry>, c: Config)
    requires Measures(l, es, c)
    ensures l.covered <= l.executable
  {
    hide Spans;
    forall at | at in l.covered ensures at in l.executable { assert CoveredIn(es, c, at); }
  }

  /** Profiles with the same entries, in whatever order and files, measure the same lines. */
  lemma OrderIrrelevant(a: Lines, b: Lines, ps: seq<Profile>, qs: seq<Profile>, c: Config)
    requires Measures(a, Entries(ps), c) && Measures(b, Entries(qs), c)
    requires Entries(ps) == Entries(qs)
    ensures a == b
  {
    hide ExecutableIn, CoveredIn;
    assert a.executable == b.executable && a.covered == b.covered;
  }

  /** Permuting the lines of a profile keeps its entries. */
  lemma LinesPermuted(ls: seq<Option<Entry>>, ks: seq<Option<Entry>>)
    requires multiset(ls) == multiset(ks)
    ensures LineEntries(ls) == LineEntries(ks)
  {
    hide LineEntries;
    forall e ensures e in LineEntries(ls) <==> e in LineEntries(ks) {
      EntryOnLine(ls, e);
      EntryOnLine(ks, e);
      assert Some(e) in multiset(ls) <==> Some(e) in multiset(ks);
    }
  }

  lemma {:induction false} EntryOnLine(ls: seq<Option<Entry>>, e: Entry)
    ensures e in LineEntries(ls) <==> Some(e) in ls
  {
    if ls != [] {
      var init := ls[..|ls| - 1];
      EntryOnLine(init, e);
      assert ls == init + [ls[|ls| - 1]];
    }
  }

  /** So does permuting the profiles. */
  lemma ProfilesPermuted(ps: seq<Profile>, qs: seq<Profile>)
    requires multiset(ps) == multiset(qs)
    ensures Entries(ps) == Entries(qs)
  {
    hide LineEntries, Entries;
    forall e ensures e in Entries(ps) <==> e in Entries(qs) {
      EntryFrom(ps, e);
      EntryFrom(qs, e);
      if e in Entries(ps) {
        var i :| 0 <= i < |ps| && e in LineEntries(ps[i].lines);
        assert ps[i] in multiset(qs);
      }
      if e in Entries(qs) {
        var i :| 0 <= i < |qs| && e in LineEntries(qs[i].lines);
        assert qs[i] in multiset(ps);
      }
    }
  }

  /** And so does moving lines from one profile to another. */
  lemma LinesMoved(ps: seq<Profile>, qs: seq<Profile>)
    requires multiset(AllLines(ps)) == multiset(AllLines(qs))
    ensures Entries(ps) == Entries(qs)
  {
    hide LineEntries, Entries, AllLines;
    LinesPermuted(AllLines(ps), AllLines(qs));
    EntriesOfLines(ps);
    EntriesOfLines(qs);
  }

  /** The lines of all profiles, one after the other. */
  ghost function AllLines(ps: seq<Profile>): seq<Option<Entry>> {
    if ps == [] then [] else AllLines(ps[..|ps| - 1]) + ps[|ps| - 1].lines
  }

  lemma {:induction false} EntriesOfLines(ps: seq<Profile>)
    ensures Entries(ps) == LineEntries(AllLines(ps))
  {
    if ps != [] {
      var init, last := ps[..|ps| - 1], ps[|ps| - 1].lines;
      EntriesOfLines(init);
      forall e
        ensures e in LineEntries(AllLines(init) + last) <==> e in LineEntries(AllLines(init)) || e in LineEntries(last)
      {
        EntryOnLine(AllLines(init) + last, e);
        EntryOnLine(AllLines(init), e);
        EntryOnLine(last, e);
      }
    }
  }

  lemma {:induction false} EntryFrom(ps: seq<Profile>, e: Entry)
    ensures e in Entries(ps) <==> exists i :: 0 <= i < |ps| && e in LineEntries(ps[i].lines)
  {
    hide LineEntries;
    if ps != [] {
      var init := ps[..|ps| - 1];
      EntryFrom(init, e);
      if exists i :: 0 <= i < |init| && e in LineEntries(init[i].lines) {
        var i :| 0 <= i < |init| && e in LineEntries(init[i].lines);
        assert e in LineEntries(ps[i].lines);
      }
      if exists i :: 0 <= i < |ps| && e in LineEntries(ps[i].lines) {
        var i :| 0 <= i < |ps| && e in LineEntries(ps[i].lines);
        if i < |ps| - 1 { assert e in LineEntries(init[i].lines); }
      }
    }
  }

  // ---- the verdict -----------------------------------------------------------------------------------

  /** `evaluate`: hits and included lines, or nothing when the share is below the minimum. */
  function Evaluate(changed: set<Coordinate>, l: Lines, minimum: nat): (r: Option<(nat, nat)>) {
    var included := changed * l.executable;
    var hits := included * l.covered;
    if included == {} || 100 * |hits| >= minimum * |included| then Some((|hits|, |included|)) else None
  }

  /** The share of covered lines among the changed executable ones decides, and without any there is
      nothing to object to. */
  lemma EvaluateIsShare(changed: set<Coordinate>, l: Lines, minimum: nat)
    requires l.covered <= l.executable
    ensures var included, hits := changed * l.executable, changed * l.covered;
            && (Evaluate(changed, l, minimum).None? <==>
                included != {} && |hits| as real / |included| as real < minimum as real / 100.0)
            && (Evaluate(changed, l, minimum).Some? ==>
                Evaluate(changed, l, minimum).value == (|hits|, |included|))
  {
    var included, hits := changed * l.executable, changed * l.covered;
    assert included * l.covered == hits;
    if included != {} { ShareBelow(|hits|, |included|, minimum); }
  }

  lemma ShareBelow(h: nat, n: nat, minimum: nat)
    requires n > 0
    ensures h as real / n as real < minimum as real / 100.0 <==> 100 * h < minimum * n
  {
    var x, y, m := h as real, n as real, minimum as real;
    var q := x / y;
    assert q * y == x;
    assert (minimum * n) as real == m * y;
    assert q < m / 100.0 <==> 100.0 * q < m;
    assert 100.0 * q < m <==> 100.0 * q * y < m * y;
  }

  /** Full coverage is demanded by a minimum of 100: the verdict is positive exactly when every
      changed executable line is covered. */
  lemma FullCoverage(changed: set<Coordinate>, l: Lines)
    requires l.covered <= l.executable
    ensures Evaluate(changed, l, 100).Some? <==> changed * l.executable <= l.covered
  {
    var included := changed * l.executable;
    var hits := included * l.covered;
    assert included == hits + (included - hits);
    assert |included| == |hits| + |included - hits|;
    if Evaluate(changed, l, 100).Some? && included != {} { assert included - hits == {}; }
    if included <= l.covered { assert hits == included; }
  }

  /** Covering more lines never turns a positive verdict into a negative one. */
  lemma MoreCoverageHelps(changed: set<Coordinate>, l: Lines, more: Lines, minimum: nat)
    requires l.executable == more.executable && l.covered <= more.covered
    requires Evaluate(changed, l, minimum).Some?
    ensures Evaluate(changed, more, minimum).Some?
    ensures Evaluate(changed, more, minimum).value.0 >= Evaluate(changed, l, minimum).value.0
  {
    var included := changed * l.executable;
    var hits, others := included * l.covered, included * more.covered;
    assert others == hits + (others - hits);
    assert |others| == |hits| + |others - hits|;
  }
}
