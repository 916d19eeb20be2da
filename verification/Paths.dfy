/** Relative POSIX paths as `PurePosixPath` reads them. */
module Paths {

  /** The text up to the first slash. */
  function First(s: string): (n: nat)
    ensures n <= |s|
  {
    if s == "" || s[0] == '/' then 0 else 1 + First(s[1..])
  }

  function Names(name: string): seq<string> { if name == "" || name == "." then [] else [name] }

  /** The parts of a path: empty names and single dots do not count. */
  function Parts(s: string): seq<string> {
    if s == "" then []
    else
      var n := First(s);
      Names(s[..n]) + if n == |s| then [] else Parts(s[n + 1..])
  }

  predicate Absolute(s: string) { "/" <= s }

  function Join(parts: seq<string>): string {
    if parts == [] then ""
    else if |parts| == 1 then parts[0]
    else parts[0] + "/" + Join(parts[1..])
  }

  /** `as_posix`. */
  function Posix(parts: seq<string>): string { if parts == [] then "." else Join(parts) }

  /** A name that can be a part. */
  predicate PartName(name: string) {
    name != "" && name != "." && forall i :: 0 <= i < |name| ==> name[i] != '/'
  }

  lemma {:induction false} FirstOfName(name: string, rest: string)
    requires forall i :: 0 <= i < |name| ==> name[i] != '/'
    ensures First(name) == |name| && First(name + "/" + rest) == |name|
  {
    if name != "" {
      FirstOfName(name[1..], rest);
      assert (name + "/" + rest)[1..] == name[1..] + "/" + rest;
    }
  }

  lemma FirstPart(name: string, rest: string)
    requires PartName(name)
    ensures Parts(name) == [name]
    ensures Parts(name + "/" + rest) == [name] + Parts(rest)
  {
    hide First;
    var s := name + "/" + rest;
    FirstOfName(name, rest);
    assert name[..|name|] == name;
    assert s[..|name|] == name && s[|name| + 1..] == rest;
    assert Names(name) == [name];
  }

  /** Joined part names are read back, so different paths have different texts. */
  lemma {:induction false} PartsOfJoin(parts: seq<string>)
    requires forall i :: 0 <= i < |parts| ==> PartName(parts[i])
    ensures Parts(Join(parts)) == parts
  {
    if parts == [] {
      assert Parts("") == [];
    } else {
      hide Parts, PartName;
      FirstPart(parts[0], Join(parts[1..]));
      PartsOfJoin(parts[1..]);
      assert parts == [parts[0]] + parts[1..];
    }
  }

  predicate PartNames(parts: seq<string>) { forall i :: 0 <= i < |parts| ==> PartName(parts[i]) }

  lemma Aligned(a: string, x: string, b: string, y: string)
    requires (forall i :: 0 <= i < |a| ==> a[i] != '/') && forall i :: 0 <= i < |b| ==> b[i] != '/'
    ensures a + "/" + x <= b + "/" + y <==> a == b && x <= y
  {
    var s, t := a + "/" + x, b + "/" + y;
    assert s[|a|] == '/' && t[|b|] == '/';
    assert forall i :: 0 <= i < |a| ==> s[i] == a[i];
    assert forall i :: 0 <= i < |b| ==> t[i] == b[i];
    if s <= t {
      assert |a| == |b|;
      assert a == s[..|a|] == t[..|b|] == b;
      assert x == s[|a| + 1..] && y == t[|b| + 1..];
    }
  }

  lemma BeforeSlash(s: string, a: string, y: string)
    requires '/' !in s
    ensures s <= a + "/" + y <==> s <= a
  {
    var t := a + "/" + y;
    assert t[|a|] == '/';
    assert s <= t ==> forall i :: 0 <= i < |s| ==> s[i] == t[i];
    assert forall i :: 0 <= i < |s| ==> s[i] != '/';
    assert |s| <= |a| ==> t[..|s|] == a[..|s|];
  }

  /** A text begins a path exactly when its names are the first of the path's and what remains of it
      begins the next one. */
  lemma {:induction false} PrefixOfJoin(names: seq<string>, rest: string, parts: seq<string>)
    requires PartNames(names) && PartNames(parts) && parts != [] && '/' !in rest
    ensures Join(names + [rest]) <= Join(parts) <==>
              |names| < |parts| && names == parts[..|names|] && rest <= parts[|names|]
  {
    var s, t := Join(names + [rest]), Join(parts);
    if names == [] {
      assert names + [rest] == [rest];
      if |parts| > 1 { BeforeSlash(rest, parts[0], Join(parts[1..])); }
    } else {
      assert (names + [rest])[1..] == names[1..] + [rest];
      var below := Join(names[1..] + [rest]);
      assert s == names[0] + "/" + below;
      if |parts| == 1 {
        assert s[|names[0]|] == '/';
      } else {
        Aligned(names[0], below, parts[0], Join(parts[1..]));
        PrefixOfJoin(names[1..], rest, parts[1..]);
        if |names| < |parts| {
          assert parts[..|names|] == [parts[0]] + parts[1..][..|names| - 1];
          assert names == [names[0]] + names[1..];
        }
      }
    }
  }

  /** A path lies strictly below a directory exactly when its names begin with the directory's. */
  lemma Below(directory: seq<string>, parts: seq<string>)
    requires PartNames(directory) && PartNames(parts) && directory != [] && parts != []
    ensures Join(directory) + "/" <= Join(parts) <==>
              |directory| < |parts| && directory == parts[..|directory|]
  {
    JoinSlash(directory);
    PrefixOfJoin(directory, "", parts);
  }

  lemma {:induction false} JoinSlash(directory: seq<string>)
    requires directory != []
    ensures Join(directory + [""]) == Join(directory) + "/"
  {
    assert (directory + [""])[1..] == directory[1..] + [""];
    if |directory| > 1 { JoinSlash(directory[1..]); }
  }

  /** A path is a directory or lies below it exactly when its names begin with the directory's. */
  lemma WithinRoot(parts: seq<string>, root: seq<string>)
    requires PartNames(parts) && PartNames(root) && parts != [] && root != []
    ensures Join(parts) == Join(root) || Join(root) + "/" <= Join(parts) <==> root <= parts
  {
    hide Join, PartName;
    Below(root, parts);
    PartsOfJoin(parts);
    PartsOfJoin(root);
    assert root <= parts <==> root == parts || (|root| < |parts| && root == parts[..|root|]);
  }

  lemma NotAbsolute(parts: seq<string>)
    requires PartNames(parts) && parts != []
    ensures !Absolute(Join(parts))
  {
    assert PartName(parts[0]) && Join(parts)[0] == parts[0][0];
  }

  lemma {:induction false} PartsAreNames(s: string)
    ensures PartNames(Parts(s))
  {
    if s != "" {
      hide Parts, PartName;
      var n := First(s);
      FirstName(s);
      if n < |s| { PartsAreNames(s[n + 1..]); }
    }
  }

  lemma FirstName(s: string)
    requires s != ""
    ensures var n := First(s);
            && PartNames(Names(s[..n]))
            && Parts(s) == Names(s[..n]) + if n == |s| then [] else Parts(s[n + 1..])
  {
    hide First;
    NoSlashBefore(s);
  }

  lemma {:induction false} NoSlashBefore(s: string)
    ensures forall i :: 0 <= i < First(s) ==> s[i] != '/'
  {
    if s != "" && s[0] != '/' { NoSlashBefore(s[1..]); }
  }
}
