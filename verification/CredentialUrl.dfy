/** The database URL that a workload Secret carries, and the strict decoder that reads the
    password back (`database_url`, `password_from_url`, `reader_url`). */
module CredentialUrl {
  import opened Common
  import opened Texts

  datatype Role = Reader | Migrator | Seeder

  function RoleName(role: Role): string {
    match role
    case Reader => "go_product_reader"
    case Migrator => "go_product_migrator"
    case Seeder => "go_product_seeder"
  }

  function CaMount(role: Role): string {
    match role
    case Reader => "/etc/product-service/postgres/ca.crt"
    case Migrator => "/etc/product-admin/migrator/ca.crt"
    case Seeder => "/etc/product-admin/seeder/ca.crt"
  }

  // ---- percent encoding -------------------------------------------------------------------

  predicate Alphanumeric(c: char) {
    'A' <= c <= 'Z' || 'a' <= c <= 'z' || '0' <= c <= '9'
  }

  predicate Unreserved(c: char) {
    Alphanumeric(c) || c == '_' || c == '-' || c == '.' || c == '~'
  }

  predicate Ascii(s: string) {
    forall i :: 0 <= i < |s| ==> s[i] as int < 128
  }

  function HexDigit(n: nat): (c: char)
    requires n < 16
  {
    if n < 10 then ('0' as int + n) as char else ('A' as int + n - 10) as char
  }

  /** `quote(s, safe='')` on ASCII text. */
  function Quote(s: string): string
    requires Ascii(s)
  {
    if s == "" then ""
    else if Unreserved(s[0]) then [s[0]] + Quote(s[1..])
    else ['%', HexDigit(s[0] as int / 16), HexDigit(s[0] as int % 16)] + Quote(s[1..])
  }

  /** `unquote`; an escape outside ASCII becomes U+FFFD, which no credential contains. */
  function Unquote(s: string): string {
    if s == "" then ""
    else if s[0] == '%' && |s| >= 3 && HexValue(s[1]).Some? && HexValue(s[2]).Some? then
      var code := HexValue(s[1]).value * 16 + HexValue(s[2]).value;
      [if code < 128 then code as char else '\U{FFFD}'] + Unquote(s[3..])
    else [s[0]] + Unquote(s[1..])
  }

  /** Percent encoding loses nothing: every ASCII password is recovered. */
  lemma {:induction false} QuoteRoundTrip(s: string)
    requires Ascii(s)
    ensures Unquote(Quote(s)) == s
  {
    if s != "" {
      QuoteRoundTrip(s[1..]);
      var q := Quote(s);
      if Unreserved(s[0]) {
        assert q[1..] == Quote(s[1..]);
      } else {
        var n := s[0] as int;
        assert q == ['%', HexDigit(n / 16), HexDigit(n % 16)] + Quote(s[1..]);
        assert q[0] == '%' && q[1] == HexDigit(n / 16) && q[2] == HexDigit(n % 16);
        assert q[3..] == Quote(s[1..]);
        HexRoundTrip(n / 16);
        HexRoundTrip(n % 16);
      }
    }
  }

  lemma HexRoundTrip(n: nat)
    requires n < 16
    ensures HexValue(HexDigit(n)) == Some(n)
  {
  }

  // ---- splitting --------------------------------------------------------------------------

  /** The first position of a character of `stops`, or the length when there is none. */
  function Find(s: string, stops: set<char>): (i: nat)
    ensures i <= |s|
    ensures forall k :: 0 <= k < i ==> s[k] !in stops
    ensures i < |s| ==> s[i] in stops
  {
    if s == "" || s[0] in stops then 0 else 1 + Find(s[1..], stops)
  }

  /** The last position of `c`, if it occurs (`rpartition`). */
  function FindLast(s: string, c: char): (i: Option<nat>)
    ensures i.Some? ==> i.value < |s| && s[i.value] == c
    ensures i.Some? ==> forall k :: i.value < k < |s| ==> s[k] != c
    ensures i.None? ==> forall k :: 0 <= k < |s| ==> s[k] != c
  {
    if s == "" then None
    else if s[|s| - 1] == c then Some(|s| - 1)
    else FindLast(s[..|s| - 1], c)
  }

  lemma FindAt(a: string, c: char, b: string, stops: set<char>)
    requires forall i :: 0 <= i < |a| ==> a[i] !in stops
    requires c in stops
    ensures Find(a + [c] + b, stops) == |a|
  {
    var s := a + [c] + b;
    assert s[|a|] == c;
    assert forall k :: 0 <= k < |a| ==> s[k] == a[k];
  }

  lemma {:induction false} FindLastAt(a: string, c: char, b: string)
    requires forall i :: 0 <= i < |b| ==> b[i] != c
    ensures FindLast(a + [c] + b, c) == Some(|a|)
  {
    var s := a + [c] + b;
    if b == "" {
      assert s[|s| - 1] == c;
    } else {
      var n := |b| - 1;
      assert s[|s| - 1] == b[n];
      assert s[..|s| - 1] == a + [c] + b[..n];
      FindLastAt(a, c, b[..n]);
    }
  }

  // ---- the URL ----------------------------------------------------------------------------

  /** The parts of a URL that the decoder looks at. */
  datatype SplitUrl = SplitUrl(scheme: string, username: string, password: string,
                               hostname: string, port: string, path: string, query: string)

  ghost predicate Without(s: string, stops: set<char>) {
    forall i :: 0 <= i < |s| ==> s[i] !in stops
  }

  /** Parts that contain none of the characters that would end them early. */
  ghost predicate WellFormed(parts: SplitUrl) {
    && Without(parts.scheme, {':'})
    && Without(parts.username, {':', '@', '/', '?', '#'})
    && Without(parts.password, {'@', '/', '?', '#'})
    && Without(parts.hostname, {':', '@', '/', '?', '#'})
    && Without(parts.port, {'@', '/', '?', '#'})
    && parts.path != "" && parts.path[0] == '/' && Without(parts.path, {'?', '#'})
    && Without(parts.query, {'#'})
  }

  function UserInfo(parts: SplitUrl): string { parts.username + [':'] + parts.password }

  function Server(parts: SplitUrl): string { parts.hostname + [':'] + parts.port }

  function Netloc(parts: SplitUrl): string { UserInfo(parts) + ['@'] + Server(parts) }

  function Tail(parts: SplitUrl): string { parts.path + ['?'] + parts.query }

  function Compose(parts: SplitUrl): string {
    parts.scheme + [':'] + ("//" + (Netloc(parts) + Tail(parts)))
  }

  /** `urlsplit`, for text whose scheme and host are already lower case. */
  function Split(url: string): Option<SplitUrl> {
    var (scheme, rest) := Partition(url, ':');
    if !("//" <= rest) then None
    else
      var slash := Find(rest[2..], {'/', '?', '#'});
      var authority, body := SplitAuthority(rest[2..][..slash]), SplitBody(rest[2..][slash..]);
      if authority.None? then None
      else
        var (user, server) := authority.value;
        Some(SplitUrl(scheme, user.0, user.1, server.0, server.1, body.0, body.1))
  }

  /** `str.partition`: what stands before and after the first `c`. */
  function Partition(s: string, c: char): (string, string) {
    var i := Find(s, {c});
    (s[..i], if i < |s| then s[i + 1..] else "")
  }

  function SplitAuthority(netloc: string): Option<((string, string), (string, string))> {
    var at := FindLast(netloc, '@');
    if at.None? then None
    else Some((Partition(netloc[..at.value], ':'), Partition(netloc[at.value + 1..], ':')))
  }

  function SplitBody(tail: string): (string, string) {
    Partition(tail[..Find(tail, {'#'})], '?')
  }

  lemma PartitionAt(a: string, c: char, b: string)
    requires Without(a, {c})
    ensures Partition(a + [c] + b, c) == (a, b)
  {
    FindAt(a, c, b, {c});
    assert (a + [c] + b)[..|a|] == a && (a + [c] + b)[|a| + 1..] == b;
  }

  lemma AuthoritySplits(parts: SplitUrl)
    requires WellFormed(parts)
    ensures SplitAuthority(Netloc(parts)) ==
            Some(((parts.username, parts.password), (parts.hostname, parts.port)))
  {
    var user, server := UserInfo(parts), Server(parts);
    assert Without(server, {'@'});
    FindLastAt(user, '@', server);
    assert Netloc(parts)[..|user|] == user && Netloc(parts)[|user| + 1..] == server;
    PartitionAt(parts.username, ':', parts.password);
    PartitionAt(parts.hostname, ':', parts.port);
  }

  lemma BodySplits(parts: SplitUrl)
    requires WellFormed(parts)
    ensures SplitBody(Tail(parts)) == (parts.path, parts.query)
  {
    var tail := Tail(parts);
    assert Without(tail, {'#'});
    assert Find(tail, {'#'}) == |tail| && tail[..|tail|] == tail;
    PartitionAt(parts.path, '?', parts.query);
  }

  /** Splitting undoes composing. */
  lemma SplitCompose(parts: SplitUrl)
    requires WellFormed(parts)
    ensures Split(Compose(parts)) == Some(parts)
  {
    var rest := Netloc(parts) + Tail(parts);
    PartitionAt(parts.scheme, ':', "//" + rest);
    assert ("//" + rest)[2..] == rest;
    NetlocEnds(parts);
    AuthoritySplits(parts);
    BodySplits(parts);
  }

  lemma NetlocEnds(parts: SplitUrl)
    requires WellFormed(parts)
    ensures var n := |Netloc(parts)|; var rest := Netloc(parts) + Tail(parts);
            Find(rest, {'/', '?', '#'}) == n && rest[..n] == Netloc(parts) && rest[n..] == Tail(parts)
  {
    var netloc, tail := Netloc(parts), Tail(parts);
    assert tail == ['/'] + tail[1..];
    assert netloc + tail == netloc + ['/'] + tail[1..];
    FindAt(netloc, '/', tail[1..], {'/', '?', '#'});
  }

  // ---- credentials ------------------------------------------------------------------------

  predicate CredentialChar(c: char) { Alphanumeric(c) || c == '_' || c == '-' }

  /** A generated credential: `secrets.token_urlsafe(48)` and `[A-Za-z0-9_-]{64}`. */
  predicate Credential(password: string) {
    |password| == 64 && forall i :: 0 <= i < |password| ==> CredentialChar(password[i])
  }

  /** A DNS name as the manager builds it: nothing in it can end the host part of a URL. */
  predicate PlainHost(host: string) {
    forall i :: 0 <= i < |host| ==>
      'a' <= host[i] <= 'z' || '0' <= host[i] <= '9' || host[i] == '-' || host[i] == '.'
  }

  function Parts(role: Role, encodedPassword: string, host: string): SplitUrl {
    SplitUrl("postgresql", RoleName(role), encodedPassword, host, "5432", "/product",
             "sslmode=verify-full&sslrootcert=" + CaMount(role))
  }

  function DatabaseUrl(role: Role, password: string, host: string): string
    requires Ascii(password)
  {
    Compose(Parts(role, Quote(password), host))
  }

  /** `password_from_url`: the password, or `None` where the source raises. */
  function PasswordFromUrl(role: Role, url: string, host: string): Option<string> {
    var parts := Split(url);
    if parts.None? || parts.value != Parts(role, parts.value.password, host) then None
    else Accept(role, url, host, Unquote(parts.value.password))
  }

  function Accept(role: Role, url: string, host: string, password: string): Option<string> {
    if Credential(password) && Ascii(password) && DatabaseUrl(role, password, host) == url
    then Some(password) else None
  }

  lemma {:induction false} CredentialIsVerbatim(s: string)
    requires forall i :: 0 <= i < |s| ==> CredentialChar(s[i])
    ensures Ascii(s) && Quote(s) == s
  {
    if s != "" { CredentialIsVerbatim(s[1..]); }
  }

  /** The URL of a credential, as a workload reads it: nothing in it is escaped. */
  lemma UrlText(role: Role, password: string, host: string)
    requires Credential(password)
    ensures Ascii(password)
    ensures DatabaseUrl(role, password, host) ==
            "postgresql" + "://" + RoleName(role) + ":" + password + "@" + host + ":" + "5432" + "/product"
            + "?" + ("sslmode=verify-full&sslrootcert=" + CaMount(role))
  {
    hide Quote, Compose, RoleName, CaMount;
    CredentialIsVerbatim(password);
    Composed("postgresql", RoleName(role), password, host, "5432", "/product",
             "sslmode=verify-full&sslrootcert=" + CaMount(role));
  }

  lemma Composed(scheme: string, name: string, password: string, host: string, port: string, path: string,
                 query: string)
    ensures Compose(SplitUrl(scheme, name, password, host, port, path, query)) ==
            scheme + "://" + name + ":" + password + "@" + host + ":" + port + path + "?" + query
  {
  }

  lemma PartsAreWellFormed(role: Role, password: string, host: string)
    requires Credential(password) && PlainHost(host)
    ensures WellFormed(Parts(role, password, host))
  {
    NameIsPlain(role);
    MountIsPlain(role);
    ConstantsArePlain();
    assert Without(password, {'@', '/', '?', '#'});
    assert Without(host, {':', '@', '/', '?', '#'});
  }

  lemma NameIsPlain(role: Role)
    ensures Without(RoleName(role), {':', '@', '/', '?', '#'})
  {
    match role
    case Reader =>
    case Migrator =>
    case Seeder =>
  }

  lemma MountIsPlain(role: Role)
    ensures Without(CaMount(role), {'#'})
  {
    match role
    case Reader =>
    case Migrator =>
    case Seeder =>
  }

  lemma ConstantsArePlain()
    ensures Without("postgresql", {':'})
    ensures Without("5432", {'@', '/', '?', '#'})
    ensures Without("/product", {'?', '#'})
    ensures Without("sslmode=verify-full&sslrootcert=", {'#'})
  {
  }

  lemma EncodedDecodes(role: Role, password: string, host: string)
    requires Credential(password) && PlainHost(host)
    ensures Ascii(password) && PasswordFromUrl(role, DatabaseUrl(role, password, host), host) == Some(password)
  {
    CredentialIsVerbatim(password);
    QuoteRoundTrip(password);
    PartsAreWellFormed(role, password, host);
    SplitCompose(Parts(role, password, host));
  }

  /** The decoder accepts exactly the URLs the encoder produces from generated credentials, and
      returns the one password each of them carries. */
  lemma DecodesExactlyTheEncoded(role: Role, url: string, host: string, password: string)
    requires PlainHost(host)
    ensures PasswordFromUrl(role, url, host) == Some(password)
        <==> Credential(password) && Ascii(password) && url == DatabaseUrl(role, password, host)
  {
    if Credential(password) {
      EncodedDecodes(role, password, host);
    }
  }
}
