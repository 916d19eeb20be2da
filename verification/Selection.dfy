/** Which module a changed path belongs to, and whether the change is of consequence
    (`select_pr_module.py`). */
module Selection {
  import opened Common
  import opened Paths

  /** The directory of the shared library. */
  const LibraryDirectory := "libs/servicekit"

  // ---- file names ------------------------------------------------------------------------------------

  predicate EndsWith(s: string, t: string) { |t| <= |s| && s[|s| - |t|..] == t }

  function Name(path: string): string {
    var parts := Parts(path);
    if parts == [] then "" else parts[|parts| - 1]
  }

  function LeadingDots(s: string): (n: nat)
    ensures n <= |s| && (forall i :: 0 <= i < n ==> s[i] == '.') && (n < |s| ==> s[n] != '.')
  {
    if s != "" && s[0] == '.' then 1 + LeadingDots(s[1..]) else 0
  }

  /** From the last dot on; nothing without a dot. */
  function FromLastDot(s: string): (t: string)
    ensures t == "" <==> '.' !in s
    ensures t != "" ==> EndsWith(s, t) && t[0] == '.' && '.' !in t[1..]
  {
    if s == "" then ""
    else if FromLastDot(s[1..]) != "" then FromLastDot(s[1..])
    else if s[0] == '.' then s
    else ""
  }

  /** `PurePath.suffix`: leading dots do not start a suffix. */
  function Suffix(name: string): string { FromLastDot(name[LeadingDots(name)..]) }

  function Lower(s: string): (t: string)
    ensures |t| == |s|
  {
    seq(|s|, i requires 0 <= i < |s| => if 'A' <= s[i] <= 'Z' then s[i] - 'A' + 'a' else s[i])
  }

  // ---- modules ---------------------------------------------------------------------------------------

  /** `classify_module`. */
  function ClassifyModule(path: string): Option<string> {
    var parts := Parts(path);
    if Absolute(path) then None
    else if |parts| >= 3 && parts[0] == "libs" then Some("libs/" + parts[1])
    else if |parts| >= 2 && parts[..2] == ["templates", "go-service"] then Some("templates/go-service")
    else if |parts| >= 3 && parts[0] == "services" && EndsWith(parts[1], "-service") then Some("services/" + parts[1])
    else None
  }

  /** `is_validation_relevant_module_path`. */
  predicate ValidationRelevant(path: string) { Lower(Suffix(Name(path))) != ".md" }

  const RootFiles := {".golangci.yml", "buf.gen.yaml", "buf.lock", "buf.yaml", "go.mod", "go.sum", "sqlc.yaml"}

  /** `is_go_pr_qualifying_module_path`. */
  predicate Qualifying(path: string) {
    var m := ClassifyModule(path);
    if m.None? || !EndsWith(m.value, "-service") then false
    else QualifyingBelow(Parts(path)[2..])
  }

  /** Its test of the path relative to the module. */
  predicate QualifyingBelow(parts: seq<string>) {
    if parts == [] then false
    else
      var suffix := Suffix(parts[|parts| - 1]);
      || suffix == ".go"
      || (|parts| == 1 && parts[0] in RootFiles)
      || (parts[0] == "api" && suffix == ".proto")
      || (|parts| >= 2 && parts[..2] == ["gen", "openapiv2"] && suffix == ".json")
      || (if |parts| == 4 && parts[..3] == ["internal", "postgres", "sql"] then suffix == ".sql"
          else "testdata" in parts[..|parts| - 1])
  }

  // ---- what the planner asks of a path -----------------------------------------------------------------

  /** The path is of consequence and belongs to the module root. */
  predicate Touches(path: string, root: string) {
    && (if root == LibraryDirectory then ValidationRelevant(path) else Qualifying(path))
    && (path == root || root + "/" <= path)
  }

  /** The paths that count as library code. */
  predicate LibraryCode(path: string) { LibraryDirectory + "/" <= path && !EndsWith(path, ".md") }

  /** The text after the last slash. */
  function Tail(s: string): string {
    var n := First(s);
    if n == |s| then s else Tail(s[n + 1..])
  }

  lemma {:induction false} NameIsTail(s: string)
    requires Tail(s) != "" && Tail(s) != "."
    ensures Parts(s) != [] && Name(s) == Tail(s)
  {
    hide First;
    var n := First(s);
    if n == |s| {
      assert s[..n] == s;
    } else {
      NameIsTail(s[n + 1..]);
    }
  }

  lemma {:induction false} TailEnds(s: string)
    ensures EndsWith(s, Tail(s)) && '/' !in Tail(s)
    ensures |Tail(s)| < |s| ==> s[|s| - |Tail(s)| - 1] == '/'
  {
    hide First, EndsWith;
    var n := First(s);
    FirstSlash(s);
    if n < |s| {
      TailEnds(s[n + 1..]);
      EndsDeeper(s, n + 1, Tail(s));
    } else {
      EndsDeeper(s, 0, s);
    }
  }

  lemma EndsDeeper(s: string, k: nat, t: string)
    requires k <= |s| && (t == s[k..] || EndsWith(s[k..], t))
    ensures EndsWith(s, t) && |t| <= |s| - k
    ensures |t| < |s| - k ==> s[k..][|s| - k - |t| - 1] == s[|s| - |t| - 1]
  {
    assert s[|s| - |t|..] == s[k..][|s| - k - |t|..];
  }

  lemma {:induction false} FirstSlash(s: string)
    ensures forall i :: 0 <= i < First(s) ==> s[i] != '/'
    ensures First(s) < |s| ==> s[First(s)] == '/'
  {
    if s != "" && s[0] != '/' { FirstSlash(s[1..]); }
  }

  /** A name of dots followed by `md`: it has no suffix although its text ends in `.md`. */
  predicate DottedMd(name: string) { LeadingDots(name) >= 1 && name[LeadingDots(name)..] == "md" }

  lemma {:induction false} LastDotAt(s: string, i: nat)
    requires i < |s| && s[i] == '.' && forall k :: i < k < |s| ==> s[k] != '.'
    ensures FromLastDot(s) == s[i..]
  {
    if i > 0 {
      LastDotAt(s[1..], i - 1);
      assert s[i..] == s[1..][i - 1..];
    }
  }

  lemma MdSuffix(name: string)
    requires EndsWith(name, ".md")
    ensures Suffix(name) == if DottedMd(name) then "" else ".md"
  {
    hide FromLastDot;
    var k, n := LeadingDots(name), |name|;
    var rest := name[k..];
    assert name[n - 3..] == ".md";
    assert name[n - 3] == '.' && name[n - 2] == 'm' && name[n - 1] == 'd';
    if k == n - 2 {
      assert rest == "md";
    } else {
      assert k <= n - 3;
      LastDotAt(rest, |rest| - 3);
      assert rest[|rest| - 3..] == name[n - 3..];
    }
  }

  /** Where the two tests for a change of the library disagree: a path counts as a change of the
      library but not as library code exactly when it is the directory itself or a file in it whose
      name is dots followed by `md`. */
  lemma LibraryGap(path: string)
    ensures Touches(path, LibraryDirectory) && !LibraryCode(path) <==>
              (path == LibraryDirectory || (LibraryDirectory + "/" <= path && DottedMd(Tail(path))))
  {
    hide Parts, Suffix, DottedMd, Tail;
    if path == LibraryDirectory {
      DirectoryRelevant();
    } else if LibraryDirectory + "/" <= path {
      DottedEnds(path);
      if EndsWith(path, ".md") {
        TailKeepsMd(path);
        NameIsTail(path);
        MdSuffix(Tail(path));
        assert Lower(".md") == ".md" && Lower("") == "";
      }
    }
  }

  lemma DottedEnds(path: string)
    ensures DottedMd(Tail(path)) ==> EndsWith(path, ".md")
  {
    hide Tail, LeadingDots;
    var name := Tail(path);
    TailEnds(path);
    if DottedMd(name) {
      var k := LeadingDots(name);
      assert name[k - 1..] == [name[k - 1]] + name[k..];
      assert path[|path| - 3..] == name[k - 1..];
    }
  }

  lemma TailKeepsMd(path: string)
    requires EndsWith(path, ".md")
    ensures EndsWith(Tail(path), ".md") && Tail(path) != "" && Tail(path) != "."
  {
    hide Tail;
    TailEnds(path);
    var n, t := |path|, Tail(path);
    assert path[n - 3..] == ".md";
    assert path[n - 3] == '.' && path[n - 2] == 'm' && path[n - 1] == 'd';
    assert |t| >= 3;
    assert t[|t| - 3..] == path[n - |t|..][|t| - 3..] == path[n - 3..];
  }

  lemma DirectoryRelevant()
    ensures ValidationRelevant(LibraryDirectory)
  {
    hide First, Parts, FromLastDot, LeadingDots;
    DirectoryName();
    var name := "servicekit";
    assert '.' !in name;
    var k := LeadingDots(name);
    assert Suffix(name) == "" by {
      forall i | 0 <= i < |name[k..]| ensures name[k..][i] != '.' { assert name[k..][i] == name[k + i]; }
    }
    assert |Lower("")| == 0;
  }

  lemma DirectoryName()
    ensures Name(LibraryDirectory) == "servicekit"
  {
    hide First, Parts;
    var parts := ["libs", "servicekit"];
    assert parts[1..] == ["servicekit"];
    assert Join(parts) == LibraryDirectory;
    PartsOfJoin(parts);
  }

  // ---- which paths count, read from their names --------------------------------------------------------

  /** The name ends in the extension, and something other than dots stands before it. */
  predicate HasExtension(name: string, extension: string) {
    EndsWith(name, extension) && exists i :: 0 <= i < |name| - |extension| && name[i] != '.'
  }

  lemma SuffixExact(name: string, extension: string)
    requires |extension| >= 2 && extension[0] == '.' && '.' !in extension[1..]
    ensures Suffix(name) == extension <==> HasExtension(name, extension)
  {
    hide FromLastDot;
    var k, n, e := LeadingDots(name), |name|, |extension|;
    var rest := name[k..];
    if Suffix(name) == extension {
      assert EndsWith(rest, extension) && rest[|rest| - e] == '.' && name[k] == rest[0] != '.';
      assert name[n - e..] == rest[|rest| - e..];
    }
    if HasExtension(name, extension) {
      var i :| 0 <= i < n - e && name[i] != '.';
      var at := |rest| - e;
      assert rest[at..] == name[n - e..] == extension;
      assert forall j :: at < j < |rest| ==> rest[j] == extension[1..][j - at - 1];
      assert rest[at] == extension[0];
      LastDotAt(rest, at);
    }
  }

  /** The directories whose files can ask for the service gate: services and libraries named as
      services, and the service template. */
  predicate ServiceDirectory(first: string, second: string) {
    || (first in {"services", "libs"} && EndsWith(second, "-service"))
    || (first == "templates" && second == "go-service")
  }

  /** The files below such a directory that do ask for it: Go files, at any depth; the configuration
      files at its root; protocol definitions under `api`; generated OpenAPI documents; the SQL files of
      the one SQL directory; and whatever lies in test data. */
  predicate ServiceInput(below: seq<string>)
    requires below != []
  {
    var file, directories := below[|below| - 1], below[..|below| - 1];
    || HasExtension(file, ".go")
    || (directories == [] && file in RootFiles)
    || (["api"] <= directories && HasExtension(file, ".proto"))
    || (["gen", "openapiv2"] <= directories && HasExtension(file, ".json"))
    || (directories == ["internal", "postgres", "sql"] && HasExtension(file, ".sql"))
    || "testdata" in directories
  }

  lemma ExtensionsExact(name: string)
    ensures Suffix(name) == ".go" <==> HasExtension(name, ".go")
    ensures Suffix(name) == ".proto" <==> HasExtension(name, ".proto")
    ensures Suffix(name) == ".json" <==> HasExtension(name, ".json")
    ensures Suffix(name) == ".sql" <==> HasExtension(name, ".sql")
  {
    hide Suffix, HasExtension;
    SuffixExact(name, ".go");
    SuffixExact(name, ".proto");
    SuffixExact(name, ".json");
    SuffixExact(name, ".sql");
  }

  lemma OwnerExact(path: string, parts: seq<string>)
    requires Parts(path) == parts && !Absolute(path) && |parts| >= 3
    ensures var m := ClassifyModule(path);
            m.Some? && EndsWith(m.value, "-service") <==> ServiceDirectory(parts[0], parts[1])
  {
    hide Parts;
    var name, m := parts[1], ClassifyModule(path);
    assert parts[..2] == ["templates", "go-service"] <==> parts[0] == "templates" && parts[1] == "go-service";
    EndsBehind("libs/", name);
    EndsBehind("services/", name);
    assert EndsWith("templates/go-service", "-service");
  }

  lemma EndsBehind(directory: string, name: string)
    requires directory != "" && directory[|directory| - 1] == '/'
    ensures EndsWith(directory + name, "-service") <==> EndsWith(name, "-service")
  {
    var s, t, d := directory + name, "-service", |directory|;
    assert forall i :: 0 <= i < |t| ==> t[i] != '/';
    assert s[d - 1] == '/';
    if EndsWith(s, t) {
      assert forall j :: |s| - |t| <= j < |s| ==> s[j] == s[|s| - |t|..][j - (|s| - |t|)] != '/';
    }
    assert |name| >= |t| ==> s[|s| - |t|..] == name[|name| - |t|..];
  }

  lemma BelowExact(below: seq<string>)
    requires below != []
    ensures QualifyingBelow(below) <==> ServiceInput(below)
  {
    hide Suffix, HasExtension;
    var n := |below| - 1;
    var file, directories := below[n], below[..n];
    ExtensionsExact(file);
    NoExtension();
    assert ["api"] <= directories <==> n >= 1 && below[0] == "api";
    assert ["gen", "openapiv2"] <= directories <==> n >= 2 && below[..2] == ["gen", "openapiv2"];
    if n == 3 && below[..3] == ["internal", "postgres", "sql"] {
      assert directories == ["internal", "postgres", "sql"];
      assert "testdata" !in directories;
    }
  }

  lemma NoExtension()
    ensures !HasExtension("api", ".proto") && !HasExtension("openapiv2", ".json")
  {
    assert "openapiv2"[|"openapiv2"| - 5..][4] == '2' && ".json"[4] == 'n';
  }

  /** The names are those of an input of some service gate. */
  predicate ServiceChange(parts: seq<string>) {
    |parts| >= 3 && ServiceDirectory(parts[0], parts[1]) && ServiceInput(parts[2..])
  }

  /** The test of a path's text, in terms of its names. */
  lemma QualifyingExact(parts: seq<string>)
    requires PartNames(parts) && parts != []
    ensures Qualifying(Join(parts)) <==> ServiceChange(parts)
  {
    hide Parts, QualifyingBelow, ServiceInput, ServiceDirectory, Join, Absolute;
    var path := Join(parts);
    PartsOfJoin(parts);
    NotAbsolute(parts);
    if |parts| >= 3 {
      OwnerExact(path, parts);
      BelowExact(parts[2..]);
    } else if |parts| == 2 {
      assert parts[2..] == [];
      assert !QualifyingBelow([]) by { NothingBelow(); }
    }
  }

  lemma NothingBelow()
    ensures !QualifyingBelow([])
  {
  }

  /** Which changed paths count for a root other than the library's, read from their names: the inputs of
      the service gate that lie in the root. */
  lemma TouchesExact(parts: seq<string>, root: seq<string>)
    requires PartNames(parts) && PartNames(root) && parts != [] && root != [] && Join(root) != LibraryDirectory
    ensures Touches(Join(parts), Join(root)) <==> root <= parts && ServiceChange(parts)
  {
    hide Qualifying, ServiceChange, Join, PartName;
    QualifyingExact(parts);
    WithinRoot(parts, root);
  }

  const LibraryNames := ["libs", "servicekit"]

  /** A Markdown file, in whatever case its extension is written. */
  predicate Markdown(name: string) {
    || HasExtension(name, ".md") || HasExtension(name, ".mD") || HasExtension(name, ".Md")
    || HasExtension(name, ".MD")
  }

  predicate LibraryChange(parts: seq<string>) { LibraryNames <= parts && !Markdown(parts[|parts| - 1]) }

  /** For the library every file counts that is not Markdown. */
  lemma LibraryTouchesExact(parts: seq<string>)
    requires PartNames(parts) && parts != []
    ensures Touches(Join(parts), LibraryDirectory) <==> LibraryChange(parts)
  {
    hide Join, Suffix, HasExtension, Parts;
    LibraryJoined();
    WithinRoot(parts, LibraryNames);
    PartsOfJoin(parts);
    MarkdownExact(parts[|parts| - 1]);
  }

  lemma LibraryJoined()
    ensures Join(LibraryNames) == LibraryDirectory && PartNames(LibraryNames)
  {
    assert LibraryNames[1..] == ["servicekit"];
  }

  lemma MarkdownExact(name: string)
    ensures Lower(Suffix(name)) == ".md" <==> Markdown(name)
  {
    hide Suffix, HasExtension, Lower;
    LowerMd(Suffix(name));
    SuffixExact(name, ".md");
    SuffixExact(name, ".mD");
    SuffixExact(name, ".Md");
    SuffixExact(name, ".MD");
  }

  lemma LowerMd(s: string)
    ensures Lower(s) == ".md" <==> s in {".md", ".mD", ".Md", ".MD"}
  {
    var l := Lower(s);
    if l == ".md" {
      assert l[0] == '.' && l[1] == 'm' && l[2] == 'd';
      assert s == [s[0], s[1], s[2]];
    }
  }

  /** Whose change it is. */
  lemma ServiceOwner(parts: seq<string>)
    requires PartNames(parts) && ServiceChange(parts)
    ensures ClassifyModule(Join(parts)) == Some(Join(parts[..2])) && Join(parts[..2]) != LibraryDirectory
  {
    hide Parts, ServiceInput, ClassifyModule, Join, EndsWith;
    PartsOfJoin(parts);
    NotAbsolute(parts);
    assert parts[..2] == [parts[0], parts[1]];
    JoinTwo(parts[0], parts[1]);
    OwnerText(Join(parts), parts);
    OwnerExact(Join(parts), parts);
    LibraryIsNoService();
  }

  lemma JoinTwo(a: string, b: string)
    ensures Join([a, b]) == a + "/" + b
  {
  }

  lemma LibraryIsNoService()
    ensures !EndsWith(LibraryDirectory, "-service")
  {
    assert LibraryDirectory[|LibraryDirectory| - 1] == 't';
  }

  lemma OwnerText(path: string, parts: seq<string>)
    requires Parts(path) == parts && !Absolute(path) && |parts| >= 3 && ServiceDirectory(parts[0], parts[1])
    ensures ClassifyModule(path) == Some(parts[0] + "/" + parts[1])
  {
    hide Parts, EndsWith;
    assert parts[..2] == ["templates", "go-service"] <==> parts[0] == "templates" && parts[1] == "go-service";
    assert "libs" + "/" == "libs/" && "services" + "/" == "services/";
    assert "templates" + "/" + "go-service" == "templates/go-service";
  }
}
