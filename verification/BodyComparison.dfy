/** The second comparator of Product bodies (`compare_body`): it matches catalog items by their code
    (`by_code`) where the first one sorts, and comes to the same verdict. */
module BodyComparison {
  import opened Common
  import opened Sorting
  import opened CanonicalJson

  /** `item.get("code")` where it is a non-empty string. */
  function CodeOf(item: Json): Option<string> {
    if item.Obj? then CodeIn(item.members) else None
  }

  function CodeIn(members: seq<Member>): Option<string> {
    if members == [] then None
    else if members[0].key == "code" then
      if members[0].value.Str? && members[0].value.s != "" then Some(members[0].value.s) else None
    else CodeIn(members[1..])
  }

  /** An object has that code exactly when one of its members says so, its keys being distinct. */
  lemma {:induction false} CodeExact(members: seq<Member>, code: string)
    requires forall i, j :: 0 <= i < j < |members| ==> members[i].key != members[j].key
    ensures CodeIn(members) == Some(code) <==>
              code != "" && exists i :: 0 <= i < |members| && members[i].key == "code" && members[i].value == Str(code)
  {
    if members != [] {
      var rest := members[1..];
      assert forall i :: 0 < i < |members| ==> members[i] == rest[i - 1];
      if members[0].key != "code" { CodeExact(rest, code); }
    }
  }

  /** What `by_code` accepts: a non-empty list of objects with distinct, non-empty codes. */
  ghost predicate Catalog(value: Json) {
    value.Arr? && value.items != [] && Coded(value.items)
  }

  ghost predicate Coded(items: seq<Json>) {
    && (forall i :: 0 <= i < |items| ==> CodeOf(items[i]).Some?)
    && (forall i, j :: 0 <= i < j < |items| ==> CodeOf(items[i]) != CodeOf(items[j]))
  }

  ghost predicate IndexedBy(m: map<string, Json>, items: seq<Json>) {
    && (forall i :: 0 <= i < |items| ==>
          CodeOf(items[i]).Some? && CodeOf(items[i]).value in m && m[CodeOf(items[i]).value] == items[i])
    && (forall c :: c in m ==> exists i :: 0 <= i < |items| && CodeOf(items[i]) == Some(c))
  }

  /** `by_code`: without a value it raises. */
  method ByCode(value: Json) returns (result: Option<map<string, Json>>)
    ensures result.Some? <==> Catalog(value)
    ensures result.Some? ==> IndexedBy(result.value, value.items)
  {
    if !value.Arr? || value.items == [] { return None; }
    var items := value.items;
    var byCode: map<string, Json> := map[];
    for i := 0 to |items|
      invariant Coded(items[..i]) && IndexedBy(byCode, items[..i])
    {
      var code := CodeOf(items[i]);
      if code.None? { return None; }
      if code.value in byCode {
        ghost var j :| 0 <= j < i && CodeOf(items[..i][j]) == code;
        assert CodeOf(items[j]) == CodeOf(items[i]);
        return None;
      }
      byCode := Extended(byCode, items, i, code.value);
    }
    assert items[..|items|] == items;
    return Some(byCode);
  }

  function Extended(m: map<string, Json>, items: seq<Json>, i: nat, code: string): (r: map<string, Json>)
    requires i < |items| && CodeOf(items[i]) == Some(code) && code !in m
    requires Coded(items[..i]) && IndexedBy(m, items[..i])
    ensures Coded(items[..i + 1]) && IndexedBy(r, items[..i + 1])
  {
    var r := m[code := items[i]];
    IndexExtends(m, items, i, code, r);
    r
  }

  lemma IndexExtends(m: map<string, Json>, items: seq<Json>, i: nat, code: string, r: map<string, Json>)
    requires i < |items| && CodeOf(items[i]) == Some(code) && code !in m && r == m[code := items[i]]
    requires Coded(items[..i]) && IndexedBy(m, items[..i])
    ensures Coded(items[..i + 1]) && IndexedBy(r, items[..i + 1])
  {
    hide CodeOf;
    var before, after := items[..i], items[..i + 1];
    assert forall k :: 0 <= k < i ==> after[k] == before[k];
    assert after[i] == items[i];
    forall c | c in r ensures exists k :: 0 <= k < |after| && CodeOf(after[k]) == Some(c) {
      if c == code {
        assert CodeOf(after[i]) == Some(c);
      } else {
        var k :| 0 <= k < |before| && CodeOf(before[k]) == Some(c);
        assert CodeOf(after[k]) == Some(c);
      }
    }
  }

  datatype Verdict = Same | Invalid | CodesDiffer | BodyDiffers

  /** Every item of `s` has an item with its code and its canonical form in `t`. */
  ghost predicate Matched(s: seq<Json>, t: seq<Json>) {
    forall i :: 0 <= i < |s| ==> HasPartner(s[i], t)
  }

  ghost predicate HasPartner(item: Json, t: seq<Json>) { exists j :: 0 <= j < |t| && Partners(item, t[j]) }

  ghost predicate Partners(x: Json, y: Json) { CodeOf(x) == CodeOf(y) && Canonical(x) == Canonical(y) }

  /** `compare_body`: for two values it accepts the same bodies as the comparison of their canonical
      forms, sorted at the top level, except that lists must be catalogs. */
  method CompareBody(expected: Json, observed: Json, ghost printable: char -> bool) returns (verdict: Verdict)
    requires Proper(expected) && Proper(observed)
    ensures verdict == Same <==>
              if expected.Arr? then
                && Catalog(expected) && Catalog(observed)
                && CanonicalTop(expected, printable) == CanonicalTop(observed, printable)
              else Canonical(expected) == Canonical(observed)
    ensures verdict == Invalid <==> expected.Arr? && !(Catalog(expected) && Catalog(observed))
  {
    hide CanonicalTop, Canonical, Proper, Coded, IndexedBy, Matched;
    if !expected.Arr? {
      return if Canonical(expected) == Canonical(observed) then Same else BodyDiffers;
    }
    var byExpected := ByCode(expected);
    if byExpected.None? { return Invalid; }
    var byObserved := ByCode(observed);
    if byObserved.None? { return Invalid; }
    SameCodesSameLength(byExpected.value, byObserved.value, expected.items, observed.items);
    CatalogsDecided(expected, observed, printable);
    if byExpected.value.Keys != byObserved.value.Keys { return CodesDiffer; }
    var same := CompareItems(byExpected.value, byObserved.value, expected.items, observed.items);
    return if same then Same else BodyDiffers;
  }

  /** The loop over the codes, in the order of the expected items. */
  method CompareItems(m: map<string, Json>, n: map<string, Json>, s: seq<Json>, ghost t: seq<Json>) returns (same: bool)
    requires Coded(s) && IndexedBy(m, s) && IndexedBy(n, t) && m.Keys == n.Keys
    ensures same <==> Matched(s, t)
  {
    hide Canonical, CodeOf, HasPartner;
    for i := 0 to |s|
      invariant forall k :: 0 <= k < i ==> HasPartner(s[k], t)
    {
      var code := CodeOf(s[i]).value;
      assert code in m.Keys;
      PartnerByCode(n, s[i], t);
      if Canonical(m[code]) != Canonical(n[code]) { return false; }
    }
    return true;
  }

  /** The item with the same code is the only possible partner. */
  lemma PartnerByCode(n: map<string, Json>, item: Json, t: seq<Json>)
    requires IndexedBy(n, t) && CodeOf(item).Some? && CodeOf(item).value in n
    ensures HasPartner(item, t) <==> Canonical(item) == Canonical(n[CodeOf(item).value])
  {
    hide CodeOf, Canonical;
    var j :| 0 <= j < |t| && CodeOf(t[j]) == CodeOf(item);
    if Canonical(item) == Canonical(n[CodeOf(item).value]) { assert Partners(item, t[j]); }
  }

  /** As many items as codes. */
  lemma KeysCounted(m: map<string, Json>, items: seq<Json>)
    requires Coded(items) && IndexedBy(m, items)
    ensures |m.Keys| == |items|
  {
    hide CodeOf;
    var codes := seq(|items|, i requires 0 <= i < |items| => CodeOf(items[i]).value);
    assert Distinct(codes);
    DistinctSize(codes);
    forall c | c in m.Keys ensures c in codes {
      var i :| 0 <= i < |items| && CodeOf(items[i]) == Some(c);
      assert codes[i] == c;
    }
    assert m.Keys == set c | c in codes;
  }

  lemma SameCodesSameLength(m: map<string, Json>, n: map<string, Json>, s: seq<Json>, t: seq<Json>)
    requires Coded(s) && Coded(t) && IndexedBy(m, s) && IndexedBy(n, t)
    ensures m.Keys == n.Keys ==> |s| == |t|
    ensures |s| == |t| && Matched(s, t) ==> m.Keys == n.Keys
  {
    hide CodeOf, Canonical;
    KeysCounted(m, s);
    KeysCounted(n, t);
    if |s| == |t| && Matched(s, t) {
      forall c | c in m.Keys ensures c in n.Keys {
        var i :| 0 <= i < |s| && CodeOf(s[i]) == Some(c);
        assert HasPartner(s[i], t);
      }
      SubsetOfSameSize(m.Keys, n.Keys);
    }
  }

  lemma SubsetOfSameSize<T>(a: set<T>, b: set<T>)
    requires a <= b && |a| == |b|
    ensures a == b
  {
    assert b == a + (b - a);
  }

  // ---- the two comparators agree ---------------------------------------------------------------------

  /** A dictionary's code shows in its canonical form. */
  lemma CodeInForm(a: Json, b: Json)
    requires Proper(a) && Proper(b) && CodeOf(a).Some? && CodeOf(b).Some? && Canonical(a) == Canonical(b)
    ensures CodeOf(a) == CodeOf(b)
  {
    hide Canonical;
    CanonicalDecides(a, b);
    var i := CodeAt(a.members);
    assert HasMember(b.members, a.members[i]);
    var j := CodeAt(b.members);
    var k :| 0 <= k < |b.members| && a.members[i].key == b.members[k].key
             && Equivalent(a.members[i].value, b.members[k].value);
    assert j == k;
  }

  lemma {:induction false} CodeAt(members: seq<Member>) returns (i: nat)
    requires CodeIn(members).Some?
    ensures i < |members| && members[i] == Member("code", Str(CodeIn(members).value))
  {
    if members[0].key == "code" { return 0; }
    i := CodeAt(members[1..]);
    i := i + 1;
  }

  /** For any two catalogs, the items match by code exactly when the sorted forms are equal. */
  lemma CatalogsDecided(a: Json, b: Json, printable: char -> bool)
    requires Proper(a) && Proper(b) && Catalog(a) && Catalog(b)
    ensures |a.items| == |b.items| && Matched(a.items, b.items) <==>
              CanonicalTop(a, printable) == CanonicalTop(b, printable)
  {
    hide CanonicalTop, Canonical, CanonicalItems, Matched, Coded;
    ListForms(a.items, b.items, printable);
    MatchedForms(a.items, b.items);
  }

  lemma PartnerInForms(item: Json, t: seq<Json>)
    requires Proper(item) && AllProper(t) && CodeOf(item).Some? && Coded(t)
    ensures HasPartner(item, t) <==> Canonical(item) in CanonicalItems(t)
  {
    hide Canonical, CodeOf, Proper;
    var gs := CanonicalItems(t);
    if Canonical(item) in gs {
      var j :| 0 <= j < |gs| && gs[j] == Canonical(item);
      CodeInForm(item, t[j]);
      assert Partners(item, t[j]);
    }
    if HasPartner(item, t) {
      var j :| 0 <= j < |t| && Partners(item, t[j]);
      assert gs[j] == Canonical(item);
    }
  }

  lemma MatchedForms(s: seq<Json>, t: seq<Json>)
    requires AllProper(s) && AllProper(t) && Coded(s) && Coded(t)
    ensures |s| == |t| && Matched(s, t) <==> multiset(CanonicalItems(s)) == multiset(CanonicalItems(t))
  {
    hide Canonical, CodeOf, Proper, HasPartner;
    var fs, gs := CanonicalItems(s), CanonicalItems(t);
    FormsDistinct(s);
    FormsDistinct(t);
    assert |fs| == |multiset(fs)| && |gs| == |multiset(gs)|;
    forall i | 0 <= i < |s| ensures HasPartner(s[i], t) <==> fs[i] in gs { PartnerInForms(s[i], t); }
    if |s| == |t| && Matched(s, t) { SameDistinct(fs, gs); }
    if multiset(fs) == multiset(gs) {
      forall i | 0 <= i < |s| ensures fs[i] in gs { assert fs[i] in multiset(fs) && fs[i] in multiset(gs); }
    }
  }

  lemma FormsDistinct(items: seq<Json>)
    requires Coded(items) && AllProper(items)
    ensures Distinct(CanonicalItems(items))
  {
    hide Canonical, CodeOf;
    forall i, j | 0 <= i < j < |items| ensures CanonicalItems(items)[i] != CanonicalItems(items)[j] {
      if Canonical(items[i]) == Canonical(items[j]) { CodeInForm(items[i], items[j]); assert false; }
    }
  }
}
