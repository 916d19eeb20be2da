/** Python's `repr` of nested tuples of strings and booleans, used as a sort key: it tells values
    apart, and so does the string order. */
module PythonRepr {

  datatype Py = Text(s: string) | Truth(b: bool) | Tuple(items: seq<Py>)

  /** The order of strings by code point. */
  predicate Le(a: string, b: string) {
    a == "" || (b != "" && (a[0] < b[0] || (a[0] == b[0] && Le(a[1..], b[1..]))))
  }

  lemma {:induction false} LeTotal(a: string, b: string)
    ensures Le(a, b) || Le(b, a)
    ensures Le(a, b) && Le(b, a) ==> a == b
  {
    if a != "" && b != "" {
      LeTotal(a[1..], b[1..]);
      assert a == [a[0]] + a[1..] && b == [b[0]] + b[1..];
    }
  }

  lemma {:induction false} LeTransitive(a: string, b: string, c: string)
    requires Le(a, b) && Le(b, c)
    ensures Le(a, c)
  {
    if a != "" && a[0] == b[0] == c[0] { LeTransitive(a[1..], b[1..], c[1..]); }
  }

  // ---- strings ---------------------------------------------------------------------------------------

  function HexDigit(d: nat): char
    requires d < 16
  {
    if d < 10 then '0' + d as char else 'a' + (d - 10) as char
  }

  function Hex(n: nat, width: nat): (h: string)
    ensures |h| == width
  {
    if width == 0 then "" else Hex(n / 16, width - 1) + [HexDigit(n % 16)]
  }

  function Power16(width: nat): (n: nat) { if width == 0 then 1 else 16 * Power16(width - 1) }

  lemma {:induction false} HexTellsApart(n: nat, m: nat, width: nat)
    requires n < Power16(width) && m < Power16(width) && Hex(n, width) == Hex(m, width)
    ensures n == m
  {
    if width > 0 {
      var h, k := Hex(n, width), Hex(m, width);
      assert h[..width - 1] == Hex(n / 16, width - 1) && k[..width - 1] == Hex(m / 16, width - 1);
      HexTellsApart(n / 16, m / 16, width - 1);
      assert h[width - 1] == HexDigit(n % 16) && k[width - 1] == HexDigit(m % 16);
    }
  }

  /** How many digits the escape of a character has, and the letter that announces them. */
  function EscapeWidth(c: char): nat {
    if c as int <= 0xff then 2 else if c as int <= 0xffff then 4 else 8
  }

  function EscapeLetter(c: char): char {
    if c as int <= 0xff then 'x' else if c as int <= 0xffff then 'u' else 'U'
  }

  /** One character of a string's `repr`; `printable` is Unicode's table for the characters beyond
      ASCII. */
  function EscapeChar(c: char, quote: char, printable: char -> bool): (e: string)
    ensures e != ""
  {
    if c == quote || c == '\\' then ['\\', c]
    else if c == '\n' then "\\n"
    else if c == '\r' then "\\r"
    else if c == '\t' then "\\t"
    else if ' ' <= c < '\U{7f}' || (c > '\U{7f}' && printable(c)) then [c]
    else ['\\', EscapeLetter(c)] + Hex(c as int, EscapeWidth(c))
  }

  function EscapeAll(s: string, quote: char, printable: char -> bool): string {
    if s == "" then "" else EscapeChar(s[0], quote, printable) + EscapeAll(s[1..], quote, printable)
  }

  function QuoteFor(s: string): char { if '\'' in s && '"' !in s then '"' else '\'' }

  predicate Escaped(c: char, quote: char, printable: char -> bool) {
    |EscapeChar(c, quote, printable)| > 2
  }

  lemma Strip(u: string, s: string, t: string)
    requires u + s == u + t
    ensures s == t
  {
    assert (u + s)[|u|..] == s && (u + t)[|u|..] == t;
  }

  lemma Power16Values()
    ensures Power16(2) == 0x100 && Power16(4) == 0x10000 && Power16(8) == 0x1_0000_0000
  {
    assert Power16(8) == 16 * 16 * 16 * 16 * Power16(4);
  }

  /** No character's escape begins another's. */
  lemma EscapePrefixFree(c: char, d: char, quote: char, printable: char -> bool, x: string, y: string)
    requires quote in {'\'', '"'}
    requires EscapeChar(c, quote, printable) + x == EscapeChar(d, quote, printable) + y
    ensures c == d && x == y
  {
    hide Hex, HexDigit, Power16;
    var e, f := EscapeChar(c, quote, printable), EscapeChar(d, quote, printable);
    assert (e + x)[0] == e[0] && (f + y)[0] == f[0];
    if |e| > 1 && |f| > 1 { assert (e + x)[1] == e[1] && (f + y)[1] == f[1]; }
    if Escaped(c, quote, printable) && Escaped(d, quote, printable) {
      var w := EscapeWidth(c);
      assert EscapeWidth(d) == w;
      assert (e + x)[2..2 + w] == e[2..] == Hex(c as int, w);
      assert (f + y)[2..2 + w] == f[2..] == Hex(d as int, w);
      Power16Values();
      HexTellsApart(c as int, d as int, w);
    }
    Strip(e, x, y);
  }

  /** The closing quote is the first unescaped one. */
  lemma QuoteOnlyAtEnd(s: string, quote: char, printable: char -> bool, x: string)
    requires quote in {'\'', '"'}
    ensures (EscapeAll(s, quote, printable) + ([quote] + x))[0] == quote <==> s == ""
  {
    if s != "" { assert EscapeAll(s, quote, printable)[0] == EscapeChar(s[0], quote, printable)[0]; }
  }

  lemma {:induction false} StringPrefixFree(s: string, t: string, quote: char, printable: char -> bool,
                                            x: string, y: string)
    requires quote in {'\'', '"'}
    requires EscapeAll(s, quote, printable) + ([quote] + x) == EscapeAll(t, quote, printable) + ([quote] + y)
    ensures s == t && x == y
  {
    hide EscapeChar;
    var u, v := EscapeAll(s, quote, printable) + ([quote] + x), EscapeAll(t, quote, printable) + ([quote] + y);
    QuoteOnlyAtEnd(s, quote, printable, x);
    QuoteOnlyAtEnd(t, quote, printable, y);
    if s == "" {
      assert u == [quote] + x && v == [quote] + y;
      Strip([quote], x, y);
    } else {
      var s', t' := EscapeAll(s[1..], quote,
                              printable) + ([quote] + x), EscapeAll(t[1..], quote, printable) + ([quote] + y);
      assert u == EscapeChar(s[0], quote, printable) + s';
      assert v == EscapeChar(t[0], quote, printable) + t';
      EscapePrefixFree(s[0], t[0], quote, printable, s', t');
      StringPrefixFree(s[1..], t[1..], quote, printable, x, y);
      assert s == [s[0]] + s[1..] && t == [t[0]] + t[1..];
    }
  }

  // ---- tuples ----------------------------------------------------------------------------------------

  function Repr(v: Py, printable: char -> bool): (r: string)
    ensures r != ""
  {
    match v
    case Text(s) => [QuoteFor(s)] + (EscapeAll(s, QuoteFor(s), printable) + [QuoteFor(s)])
    case Truth(b) => if b then "True" else "False"
    case Tuple(items) => "(" + Elements(items, printable)
  }

  function Elements(items: seq<Py>, printable: char -> bool): string {
    if items == [] then ")"
    else if |items| == 1 then Repr(items[0], printable) + ",)"
    else Repr(items[0], printable) + Rest(items[1..], printable)
  }

  function Rest(items: seq<Py>, printable: char -> bool): (r: string)
    ensures r != ""
  {
    if items == [] then ")" else ", " + Repr(items[0], printable) + Rest(items[1..], printable)
  }

  predicate ReprStart(c: char) { c in {'\'', '"', 'T', 'F', '('} }

  lemma ReprBegins(v: Py, printable: char -> bool)
    ensures ReprStart(Repr(v, printable)[0])
    ensures v.Text? <==> Repr(v, printable)[0] in {'\'', '"'}
    ensures v.Tuple? <==> Repr(v, printable)[0] == '('
    ensures v.Truth? ==> Repr(v, printable)[0] == (if v.b then 'T' else 'F')
  {
  }

  lemma TextPrefixFree(s: string, t: string, printable: char -> bool, x: string, y: string)
    requires Repr(Text(s), printable) + x == Repr(Text(t), printable) + y
    ensures s == t && x == y
  {
    hide EscapeAll;
    var q, p := QuoteFor(s), QuoteFor(t);
    var u, v := EscapeAll(s, q, printable), EscapeAll(t, p, printable);
    assert Repr(Text(s), printable) + x == [q] + (u + ([q] + x));
    assert Repr(Text(t), printable) + y == [p] + (v + ([p] + y));
    assert ([q] + (u + ([q] + x)))[0] == q && ([p] + (v + ([p] + y)))[0] == p;
    Strip([q], u + ([q] + x), v + ([q] + y));
    StringPrefixFree(s, t, q, printable, x, y);
  }

  /** No value's `repr` begins another's: in particular different values are spelled differently. */
  lemma {:induction false} ReprPrefixFree(a: Py, b: Py, printable: char -> bool, x: string, y: string)
    requires Repr(a, printable) + x == Repr(b, printable) + y
    ensures a == b && x == y
    decreases a
  {
    hide EscapeAll, Rest, ReprStart;
    ReprBegins(a, printable);
    ReprBegins(b, printable);
    assert (Repr(a, printable) + x)[0] == Repr(a, printable)[0];
    assert (Repr(b, printable) + y)[0] == Repr(b, printable)[0];
    match a {
      case Text(s) => TextPrefixFree(s, b.s, printable, x, y);
      case Truth(_) => Strip(Repr(a, printable), x, y);
      case Tuple(s) =>
        var e, f := Elements(s, printable) + x, Elements(b.items, printable) + y;
        assert Repr(a, printable) + x == "(" + e && Repr(b, printable) + y == "(" + f;
        Strip("(", e, f);
        ElementsPrefixFree(s, b.items, printable, x, y);
    }
  }

  lemma ClosedOnlyAtEnd(items: seq<Py>, printable: char -> bool, x: string)
    ensures (Elements(items, printable) + x)[0] == ')' <==> items == []
  {
    hide Repr, Rest;
    if items != [] {
      ReprBegins(items[0], printable);
      assert Elements(items, printable)[0] == Repr(items[0], printable)[0];
    }
  }

  lemma {:induction false} ElementsPrefixFree(s: seq<Py>, t: seq<Py>, printable: char -> bool, x: string, y: string)
    requires Elements(s, printable) + x == Elements(t, printable) + y
    ensures s == t && x == y
    decreases s
  {
    hide Repr, Rest;
    var u, v := Elements(s, printable) + x, Elements(t, printable) + y;
    ClosedOnlyAtEnd(s, printable, x);
    ClosedOnlyAtEnd(t, printable, y);
    if s == [] {
      Strip(")", x, y);
    } else {
      var s', t' := AfterFirst(s, printable) + x, AfterFirst(t, printable) + y;
      assert u == Repr(s[0], printable) + s' && v == Repr(t[0], printable) + t';
      ReprPrefixFree(s[0], t[0], printable, s', t');
      AfterFirstBegins(s, printable, x);
      AfterFirstBegins(t, printable, y);
      if |s| == 1 {
        Strip(",)", x, y);
      } else {
        RestPrefixFree(s[1..], t[1..], printable, x, y);
      }
      assert s == [s[0]] + s[1..] && t == [t[0]] + t[1..];
    }
  }

  function AfterFirst(items: seq<Py>, printable: char -> bool): (r: string)
    requires items != []
    ensures Elements(items, printable) == Repr(items[0], printable) + r
  {
    if |items| == 1 then ",)" else Rest(items[1..], printable)
  }

  lemma AfterFirstBegins(items: seq<Py>, printable: char -> bool, x: string)
    requires items != []
    ensures |AfterFirst(items, printable) + x| >= 2
    ensures (AfterFirst(items, printable) + x)[..2] == if |items| == 1 then ",)" else ", "
  {
    hide Repr;
    if |items| > 1 {
      var rest := items[1..];
      assert AfterFirst(items, printable) == ", " + (Repr(rest[0], printable) + Rest(rest[1..], printable));
    }
  }

  lemma {:induction false} RestPrefixFree(s: seq<Py>, t: seq<Py>, printable: char -> bool, x: string, y: string)
    requires Rest(s, printable) + x == Rest(t, printable) + y
    ensures s == t && x == y
    decreases s
  {
    hide Repr;
    var u, v := Rest(s, printable) + x, Rest(t, printable) + y;
    if s != [] { assert u[0] == ','; } else { assert u[0] == ')'; }
    if t != [] { assert v[0] == ','; } else { assert v[0] == ')'; }
    if s == [] {
      Strip(")", x, y);
    } else {
      var s', t' := Rest(s[1..], printable) + x, Rest(t[1..], printable) + y;
      assert u == ", " + (Repr(s[0], printable) + s') && v == ", " + (Repr(t[0], printable) + t');
      Strip(", ", Repr(s[0], printable) + s', Repr(t[0], printable) + t');
      ReprPrefixFree(s[0], t[0], printable, s', t');
      RestPrefixFree(s[1..], t[1..], printable, x, y);
      assert s == [s[0]] + s[1..] && t == [t[0]] + t[1..];
    }
  }

  lemma ReprTellsApart(a: Py, b: Py, printable: char -> bool)
    requires Repr(a, printable) == Repr(b, printable)
    ensures a == b
  {
    assert Repr(a, printable) + "" == Repr(b, printable) + "";
    ReprPrefixFree(a, b, printable, "", "");
  }
}
