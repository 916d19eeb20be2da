/** The canonical form of a JSON value (`canonical`), by which the accepted and the observed bodies
    are compared: it decides equality up to the order of object members, with the text of numbers
    kept, and only at the top level up to the order of array items. */
module CanonicalJson {
  import opened Common
  import opened Sorting
  import opened PythonRepr

  /** A parsed JSON value. Numbers are kept by their decimal text; an object is a dictionary with its
      insertion order. */
  datatype Json =
    | Null
    | Bool(b: bool)
    | Num(text: string)
    | Str(s: string)
    | Arr(items: seq<Json>)
    | Obj(members: seq<Member>)

  datatype Member = Member(key: string, value: Json)

  /** Dictionaries hold each key once. */
  predicate Proper(v: Json) {
    match v
    case Arr(items) => forall i :: 0 <= i < |items| ==> Proper(items[i])
    case Obj(members) =>
      && (forall i, j :: 0 <= i < j < |members| ==> members[i].key != members[j].key)
      && (forall i :: 0 <= i < |members| ==> Proper(members[i].value))
    case _ => true
  }

  /** JSON equivalence: objects are unordered, arrays are ordered. */
  ghost predicate Equivalent(a: Json, b: Json)
    decreases a
  {
    match (a, b)
    case (Arr(s), Arr(t)) => |s| == |t| && forall i :: 0 <= i < |s| ==> Equivalent(s[i], t[i])
    case (Obj(s), Obj(t)) =>
      && |s| == |t|
      && forall i :: 0 <= i < |s| ==> HasMember(t, s[i])
    case _ => a == b && !a.Arr? && !a.Obj?
  }

  ghost predicate HasMember(members: seq<Member>, m: Member)
    decreases m
  {
    exists j :: 0 <= j < |members| && m.key == members[j].key && Equivalent(m.value, members[j].value)
  }

  /** Two lists hold equivalent items, in whatever order. */
  ghost predicate Rearranged(s: seq<Json>, t: seq<Json>) {
    |s| == |t|
    && (s == [] || exists j :: 0 <= j < |t| && Equivalent(s[0], t[j]) && Rearranged(s[1..], Without(t, j)))
  }

  // ---- the canonical form ----------------------------------------------------------------------------

  datatype Pair = Pair(key: string, form: Py)

  function KeyOrder(): (Pair, Pair) -> bool { (x: Pair, y: Pair) => Le(x.key, y.key) }

  function ReprOrder(printable: char -> bool): (Py, Py) -> bool {
    (x, y) => Le(Repr(x, printable), Repr(y, printable))
  }

  function AsTuple(p: Pair): Py { Tuple([Text(p.key), p.form]) }

  function AsTuples(ps: seq<Pair>): (ts: seq<Py>)
    ensures |ts| == |ps| && forall i :: 0 <= i < |ps| ==> ts[i] == AsTuple(ps[i])
  {
    seq(|ps|, i requires 0 <= i < |ps| => AsTuple(ps[i]))
  }

  /** `canonical` of anything but a top-level list. */
  function Canonical(v: Json): Py {
    match v
    case Obj(members) => Tuple([Text("object"), Tuple(AsTuples(Sort(CanonicalMembers(members), KeyOrder())))])
    case Arr(items) => Tuple([Text("array"), Tuple(CanonicalItems(items))])
    case Num(text) => Tuple([Text("number"), Text(text)])
    case Null => Tuple([Text("null")])
    case Bool(b) => Tuple([Text("boolean"), Truth(b)])
    case Str(s) => Tuple([Text("string"), Text(s)])
  }

  function CanonicalItems(items: seq<Json>): (fs: seq<Py>)
    ensures |fs| == |items| && forall i :: 0 <= i < |items| ==> fs[i] == Canonical(items[i])
  {
    if items == [] then [] else [Canonical(items[0])] + CanonicalItems(items[1..])
  }

  function CanonicalMembers(members: seq<Member>): (ps: seq<Pair>)
    ensures |ps| == |members|
    ensures forall i :: 0 <= i < |members| ==> ps[i] == Pair(members[i].key, Canonical(members[i].value))
  {
    if members == [] then []
    else [Pair(members[0].key, Canonical(members[0].value))] + CanonicalMembers(members[1..])
  }

  /** `canonical(value, top_level=True)`: the items of a list are sorted by their `repr`. */
  function CanonicalTop(v: Json, printable: char -> bool): Py {
    match v
    case Arr(items) => Tuple([Text("array"), Tuple(Sort(CanonicalItems(items), ReprOrder(printable)))])
    case _ => Canonical(v)
  }

  // ---- what the forms decide -------------------------------------------------------------------------

  lemma KeyOrderIsTotal()
    ensures TotalPreorder(KeyOrder())
  {
    forall x: Pair, y: Pair ensures KeyOrder()(x, y) || KeyOrder()(y, x) { LeTotal(x.key, y.key); }
    forall x: Pair, y: Pair, z: Pair | KeyOrder()(x, y) && KeyOrder()(y, z) ensures KeyOrder()(x, z) {
      LeTransitive(x.key, y.key, z.key);
    }
  }

  lemma ReprOrderIsTotal(printable: char -> bool)
    ensures TotalPreorder(ReprOrder(printable))
    ensures forall x, y :: ReprOrder(printable)(x, y) && ReprOrder(printable)(y, x) ==> x == y
  {
    var le := ReprOrder(printable);
    forall x, y ensures (le(x, y) || le(y, x)) && (le(x, y) && le(y, x) ==> x == y) {
      LeTotal(Repr(x, printable), Repr(y, printable));
      if le(x, y) && le(y, x) { ReprTellsApart(x, y, printable); }
    }
    forall x, y, z | le(x, y) && le(y, z) ensures le(x, z) {
      LeTransitive(Repr(x, printable), Repr(y, printable), Repr(z, printable));
    }
  }

  ghost predicate DistinctKeys(ps: seq<Pair>) {
    forall i, j :: 0 <= i < j < |ps| ==> ps[i].key != ps[j].key
  }

  /** Sorting by key forgets the order of members, and nothing else. */
  lemma SortedPairs(ps: seq<Pair>, qs: seq<Pair>)
    requires DistinctKeys(ps) && DistinctKeys(qs)
    ensures AsTuples(Sort(ps, KeyOrder())) == AsTuples(Sort(qs, KeyOrder())) <==>
              (|ps| == |qs| && forall i :: 0 <= i < |ps| ==> ps[i] in qs)
  {
    hide Sort;
    KeyOrderIsTotal();
    forall x, y | x in ps && y in ps && KeyOrder()(x, y) && KeyOrder()(y, x) ensures x == y {
      LeTotal(x.key, y.key);
    }
    SameSorted(ps, qs, KeyOrder());
    TuplesTellApart(Sort(ps, KeyOrder()), Sort(qs, KeyOrder()));
    SamePairs(ps, qs);
  }

  lemma TuplesTellApart(s: seq<Pair>, t: seq<Pair>)
    ensures AsTuples(s) == AsTuples(t) <==> s == t
  {
    if AsTuples(s) == AsTuples(t) {
      assert |s| == |t|;
      forall i | 0 <= i < |s| ensures s[i] == t[i] {
        assert AsTuples(s)[i] == AsTuple(s[i]) && AsTuples(t)[i] == AsTuple(t[i]);
        assert AsTuple(s[i]).items[0] == Text(s[i].key);
      }
    }
  }

  lemma SamePairs(ps: seq<Pair>, qs: seq<Pair>)
    requires DistinctKeys(ps) && DistinctKeys(qs)
    ensures multiset(ps) == multiset(qs) <==> (|ps| == |qs| && forall i :: 0 <= i < |ps| ==> ps[i] in qs)
  {
    if multiset(ps) == multiset(qs) {
      assert |ps| == |multiset(ps)| == |qs|;
      forall i | 0 <= i < |ps| ensures ps[i] in qs { assert ps[i] in multiset(ps) && ps[i] in multiset(qs); }
    } else if |ps| == |qs| && forall i :: 0 <= i < |ps| ==> ps[i] in qs {
      assert Distinct(ps) && Distinct(qs);
      SameDistinct(ps, qs);
      assert false;
    }
  }

  /** `canonical` decides JSON equivalence. */
  lemma {:induction false} CanonicalDecides(a: Json, b: Json)
    requires Proper(a) && Proper(b)
    ensures Canonical(a) == Canonical(b) <==> Equivalent(a, b)
    decreases a
  {
    match (a, b)
    case (Arr(s), Arr(t)) =>
      forall i | 0 <= i < |s| && i < |t|
        ensures CanonicalItems(s)[i] == CanonicalItems(t)[i] <==> Equivalent(s[i], t[i])
      {
        CanonicalDecides(s[i], t[i]);
      }
      if Equivalent(a, b) { assert CanonicalItems(s) == CanonicalItems(t); }
    case (Obj(s), Obj(t)) => ObjectsDecided(a, b);
    case _ =>
      assert Canonical(a).items[0] == Text(Tag(a)) && Canonical(b).items[0] == Text(Tag(b));
      TagsDiffer(a, b);
  }

  function Tag(v: Json): string {
    match v
    case Null => "null" case Bool(_) => "boolean" case Num(_) => "number"
    case Str(_) => "string" case Arr(_) => "array" case Obj(_) => "object"
  }

  lemma TagsDiffer(a: Json, b: Json)
    ensures Text(Tag(a)) == Text(Tag(b)) ==>
              (a.Null? == b.Null? && a.Bool? == b.Bool? && a.Num? == b.Num?
               && a.Str? == b.Str? && a.Arr? == b.Arr? && a.Obj? == b.Obj?)
  {
    assert |"null"| == 4 && |"boolean"| == 7 && |"number"| == 6 && |"string"| == 6 && |"array"| == 5 && |"object"| == 6;
    assert "number"[0] == 'n' && "string"[0] == 's' && "object"[0] == 'o';
  }

  lemma {:induction false} MemberDecided(m: Member, t: seq<Member>)
    requires Proper(m.value) && forall j :: 0 <= j < |t| ==> Proper(t[j].value)
    ensures Pair(m.key, Canonical(m.value)) in CanonicalMembers(t) <==> HasMember(t, m)
    decreases m
  {
    hide Canonical, Proper, Equivalent;
    var p, qs := Pair(m.key, Canonical(m.value)), CanonicalMembers(t);
    forall j | 0 <= j < |t| ensures p == qs[j] <==> m.key == t[j].key && Equivalent(m.value, t[j].value) {
      CanonicalDecides(m.value, t[j].value);
    }
    if p in qs {
      var j :| 0 <= j < |qs| && qs[j] == p;
      assert m.key == t[j].key && Equivalent(m.value, t[j].value);
    }
  }

  lemma {:induction false} ObjectsDecided(a: Json, b: Json)
    requires a.Obj? && b.Obj? && Proper(a) && Proper(b)
    ensures Canonical(a) == Canonical(b) <==> Equivalent(a, b)
    decreases a, 0
  {
    hide Sort, HasMember;
    var s, t := a.members, b.members;
    var ps, qs := CanonicalMembers(s), CanonicalMembers(t);
    forall i | 0 <= i < |s| ensures ps[i] in qs <==> HasMember(t, s[i]) { MemberDecided(s[i], t); }
    SortedPairs(ps, qs);
  }

  ghost predicate AllProper(items: seq<Json>) { forall i :: 0 <= i < |items| ==> Proper(items[i]) }

  lemma {:induction false} ItemsRearranged(s: seq<Json>, t: seq<Json>)
    requires AllProper(s) && AllProper(t)
    ensures multiset(CanonicalItems(s)) == multiset(CanonicalItems(t)) <==> Rearranged(s, t)
  {
    hide Canonical, Proper, Equivalent, CanonicalItems;
    var fs, gs := CanonicalItems(s), CanonicalItems(t);
    assert |fs| == |multiset(fs)| && |gs| == |multiset(gs)|;
    if s != [] && |s| == |t| {
      forall j | 0 <= j < |t|
        ensures Equivalent(s[0], t[j]) ==> (multiset(fs) == multiset(gs) <==> Rearranged(s[1..], Without(t, j)))
        ensures fs[0] == gs[j] <==> Equivalent(s[0], t[j])
      {
        CanonicalDecides(s[0], t[j]);
        if Equivalent(s[0], t[j]) {
          ItemsRearranged(s[1..], Without(t, j));
          DropsAlike(s, t, j);
        }
      }
      if multiset(fs) == multiset(gs) {
        assert fs[0] in multiset(gs);
        var j :| 0 <= j < |gs| && gs[j] == fs[0];
        assert Equivalent(s[0], t[j]) && Rearranged(s[1..], Without(t, j));
      }
    }
  }

  lemma DropsAlike(s: seq<Json>, t: seq<Json>, j: nat)
    requires s != [] && j < |t| && Canonical(s[0]) == Canonical(t[j])
    ensures multiset(CanonicalItems(s)) == multiset(CanonicalItems(t)) <==>
              multiset(CanonicalItems(s[1..])) == multiset(CanonicalItems(Without(t, j)))
  {
    hide *;
    var fs, gs := CanonicalItems(s), CanonicalItems(t);
    DropSame(fs, gs, j);
    assert fs[1..] == CanonicalItems(s[1..]) by { hide *; }
    ItemsWithout(t, j);
  }

  lemma ItemsWithout(t: seq<Json>, j: nat)
    requires j < |t|
    ensures CanonicalItems(Without(t, j)) == Without(CanonicalItems(t), j)
  {
    hide *;
    var r, gs := Without(t, j), CanonicalItems(t);
    forall i | 0 <= i < |r| ensures CanonicalItems(r)[i] == Without(gs, j)[i] {
      assert r[i] == t[if i < j then i else i + 1];
    }
  }


  lemma ListForms(s: seq<Json>, t: seq<Json>, printable: char -> bool)
    ensures CanonicalTop(Arr(s), printable) == CanonicalTop(Arr(t), printable) <==>
              multiset(CanonicalItems(s)) == multiset(CanonicalItems(t))
  {
    hide Sort, Canonical, CanonicalItems;
    ReprOrderIsTotal(printable);
    SameSorted(CanonicalItems(s), CanonicalItems(t), ReprOrder(printable));
  }

  /** The form of a whole body decides equivalence with a top-level list taken as a multiset. */
  lemma BodiesDecided(a: Json, b: Json, printable: char -> bool)
    requires Proper(a) && Proper(b)
    ensures CanonicalTop(a, printable) == CanonicalTop(b, printable) <==>
              if a.Arr? && b.Arr? then Rearranged(a.items, b.items) else Equivalent(a, b)
  {
    hide Sort, Canonical;
    if a.Arr? && b.Arr? {
      ListForms(a.items, b.items, printable);
      ItemsRearranged(a.items, b.items);
    } else {
      assert CanonicalTop(a, printable).items[0] == Text(Tag(a)) by { FormTag(a, printable); }
      assert CanonicalTop(b, printable).items[0] == Text(Tag(b)) by { FormTag(b, printable); }
      TagsDiffer(a, b);
      if !a.Arr? && !b.Arr? { CanonicalDecides(a, b); }
    }
  }

  lemma FormTag(v: Json, printable: char -> bool)
    ensures CanonicalTop(v, printable).Tuple? && CanonicalTop(v, printable).items != []
    ensures CanonicalTop(v, printable).items[0] == Text(Tag(v))
  {
  }
}
