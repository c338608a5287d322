/** The printer and the parser of URIs (section 3 of RFC 3986). */
module Uri {
  import opened Wrappers
  import opened Texts
  import opened Percent
  import opened StringParser

  const MAX_PORT := 65535

  datatype Uri = Uri(scheme: string, user: string, password: string, host: string, port: Option<nat>,
                     path: string, query: map<string, string>, fragment: string)

  /** An entry of the query. */
  type Entry = (string, string)

  // ----- printing -----

  function PrintEntry(e: Entry): string {
    Encode(e.0, true, true) + "=" + Encode(e.1, true, true)
  }

  /** The entries joined by '&'. */
  function PrintEntries(es: seq<Entry>): string {
    if es == [] then "" else if |es| == 1 then PrintEntry(es[0])
    else PrintEntry(es[0]) + "&" + PrintEntries(es[1..])
  }

  function Credentials(user: string, password: string): string {
    Encode(user) + (if password == "" then "" else ":" + Encode(password))
  }

  function UserInfoText(u: Uri): string {
    if u.user == "" && u.password == "" then "" else Credentials(u.user, u.password) + "@"
  }

  function PortText(port: Option<nat>): string {
    if port.Some? then ":" + Decimal(port.value) else ""
  }

  function AuthorityText(u: Uri): string {
    UserInfoText(u) + (Encode(u.host) + PortText(u.port))
  }

  function PathText(u: Uri): string {
    if u.path == "" then "/" else Encode(u.path)
  }

  function FragmentText(fragment: string): string {
    if fragment == "" then "" else "#" + Encode(fragment)
  }

  function TailText(es: seq<Entry>, fragment: string): string {
    if es == [] then FragmentText(fragment) else "?" + (PrintEntries(es) + FragmentText(fragment))
  }

  /** The printed URI, when the entries of the query come in the order `es`. */
  function ToString(u: Uri, es: seq<Entry>): string {
    Encode(u.scheme) + "://" + (AuthorityText(u) + (PathText(u) + TailText(es, u.fragment)))
  }

  // ----- parsing -----

  function DecodeOr(text: Option<string>, otherwise: string): Result<string> {
    if text.Some? then Decode(text.value) else Ok(otherwise)
  }

  /** The rest of a query string after the entries in `m` have been read. */
  function ParseEntries(s: string, m: map<string, string>): Result<map<string, string>>
    decreases |s|
  {
    if s == [] then Ok(m)
    else
      var (key, r) := ReadUntil(s, "=");
      if key.None? then Err("Invalid query string")
      else
        var k :- Decode(key.value, true);
        var m1 := if k in m then m else m[k := ""];
        var (value, rest) := Split(r, "&");
        if value.None? then ParseEntries(rest, m1)
        else
          var v :- Decode(value.value, true);
          ParseEntries(rest, m1[k := v])
  }

  function ParseQuery(s: string): Result<map<string, string>> {
    ParseEntries(Skip(s, "?").1, map[])
  }

  datatype Authority = Authority(user: string, password: string, host: string, port: Option<nat>)

  function ParseUserInfo(s: string): Result<(string, string)> {
    var (u, r) := Split(s, ":");
    var user :- DecodeOr(u, "");
    var password :- DecodeOr(ReadUntilEnd(r).0, "");
    Ok((user, password))
  }

  function ParseAuthority(s: string): Result<Authority> {
    var (info, r) := ReadUntil(s, "@");
    var credentials :- if info.Some? then ParseUserInfo(info.value) else Ok(("", ""));
    var (h, p) := Split(r, ":");
    var host :- DecodeOr(h, "");
    Ok(Authority(credentials.0, credentials.1, host, ReadInt(p, MAX_PORT).0))
  }

  datatype Tail = Tail(path: string, query: map<string, string>, fragment: string)

  /** Path, query and fragment: what follows the slash that ends the authority. */
  function ParseTail(s: string): Result<Tail> {
    var (path1, r1) := ReadUntil(s, "?");
    if path1.Some? then
      var path :- Decode("/" + path1.value);
      var (q, r2) := Split(r1, "#");
      var query :- if q.Some? then ParseQuery(q.value) else Ok(map[]);
      var fragment :- DecodeOr(ReadUntilEnd(r2).0, "");
      Ok(Tail(path, query, fragment))
    else
      var (path2, r2) := ReadUntil(s, "#");
      if path2.Some? then
        var path :- Decode("/" + path2.value);
        var fragment :- DecodeOr(ReadUntilEnd(r2).0, "");
        Ok(Tail(path, map[], fragment))
      else if s != [] then
        var path :- Decode("/" + s);
        Ok(Tail(path, map[], ""))
      else Ok(Tail("", map[], ""))
  }

  function ParseHierarchy(scheme: string, s: string): Result<Uri> {
    var (authority, rest) := Split(s, "/");
    var a :- if authority.Some? then ParseAuthority(authority.value) else Ok(Authority("", "", "", None));
    var t :- ParseTail(rest);
    Ok(Uri(scheme, a.user, a.password, a.host, a.port, t.path, t.query, t.fragment))
  }

  function Parse(s: string): Result<Uri> {
    var (scheme, rest) := ReadUntil(s, "://");
    if scheme.None? then Err("Invalid URI scheme")
    else
      var decoded :- Decode(scheme.value);
      ParseHierarchy(decoded, rest)
  }

  // ----- queries come back -----

  function Keys(es: seq<Entry>): set<string> {
    set e | e in es :: e.0
  }

  /** The map that the entries make up. */
  function MapOf(es: seq<Entry>): map<string, string> {
    if es == [] then map[] else MapOf(es[1..])[es[0].0 := es[0].1]
  }

  predicate DistinctKeys(es: seq<Entry>) {
    es == [] || (es[0].0 !in MapOf(es[1..]) && DistinctKeys(es[1..]))
  }

  /** The entries of `m`, each once, in some order. */
  predicate Enumerates(es: seq<Entry>, m: map<string, string>) {
    DistinctKeys(es) && MapOf(es) == m
  }

  predicate BytesEntries(es: seq<Entry>) {
    forall i :: 0 <= i < |es| ==> IsBytes(es[i].0) && IsBytes(es[i].1)
  }

  lemma {:induction false} EveryMapEnumerates(m: map<string, string>) returns (es: seq<Entry>)
    ensures Enumerates(es, m)
  {
    if m == map[] {
      es := [];
    } else {
      var k :| k in m;
      var rest := EveryMapEnumerates(m - {k});
      es := [(k, m[k])] + rest;
      assert es[1..] == rest;
    }
  }

  lemma PrintEntryNonempty(es: seq<Entry>)
    requires es != []
    ensures PrintEntries(es) != []
  {
  }

  /** One turn of the loop, when a value follows. */
  lemma ParseStep(s: string, m: map<string, string>, k: string, key: string, r: string,
                  v: string, value: string, rest: string)
    requires ReadUntil(s, "=") == (Some(k), r) && Split(r, "&") == (Some(v), rest)
    requires Decode(k, true) == Ok(key) && Decode(v, true) == Ok(value) && key !in m
    ensures ParseEntries(s, m) == ParseEntries(rest, m[key := value])
  {
    assert m[key := ""][key := value] == m[key := value];
  }

  /** The last turn of the loop, when the text ends behind the equals sign. */
  lemma ParseStepEnd(s: string, m: map<string, string>, k: string, key: string)
    requires ReadUntil(s, "=") == (Some(k), "") && Decode(k, true) == Ok(key) && key !in m
    ensures ParseEntries(s, m) == Ok(m[key := ""])
  {
  }

  /** Reading one printed entry that is the last, or that is followed by '&' and `next`. */
  lemma ParseOneEntry(k: string, key: string, v: string, value: string, last: bool, next: string, m: map<string, string>)
    requires '=' !in k && '&' !in v && key !in m
    requires Decode(k, true) == Ok(key) && Decode(v, true) == Ok(value) && (v == "" ==> value == "")
    ensures last ==> ParseEntries(k + "=" + v, m) == Ok(m[key := value])
    ensures !last ==> ParseEntries(k + "=" + v + ("&" + next), m) == ParseEntries(next, m[key := value])
  {
    if last {
      ReadUntilAfter(k, "=", v);
      if v == "" {
        ParseStepEnd(k + "=" + v, m, k, key);
      } else {
        ReadUntilNowhere(v, "&");
        ParseStep(k + "=" + v, m, k, key, v, v, value, "");
      }
    } else {
      var s := k + "=" + v + ("&" + next);
      assert s == k + "=" + (v + "&" + next);
      ReadUntilAfter(k, "=", v + "&" + next);
      ReadUntilAfter(v, "&", next);
      ParseStep(s, m, k, key, v + "&" + next, v, value, next);
    }
  }

  lemma EncodedEmpty(s: string)
    ensures Encode(s, true, true) == [] <==> s == []
  {
    if s != [] {
      assert |Encode(s, true, true)| >= |EncodeByte(s[0], true, true)| > 0;
    }
  }

  lemma {:induction false} ParsePrintedEntries(es: seq<Entry>, m: map<string, string>)
    requires BytesEntries(es) && DistinctKeys(es) && MapOf(es).Keys !! m.Keys
    ensures ParseEntries(PrintEntries(es), m) == Ok(m + MapOf(es))
    decreases |es|
  {
    if es == [] {
      assert m + MapOf(es) == m;
    } else {
      ParsePrintedEntry(es[0], |es| == 1, PrintEntries(es[1..]), m);
      MapOfCons(es, m);
      if |es| == 1 {
        assert MapOf(es[1..]) == map[];
        assert m[es[0].0 := es[0].1] + map[] == m[es[0].0 := es[0].1];
      } else {
        ParsePrintedEntries(es[1..], m[es[0].0 := es[0].1]);
      }
    }
  }

  lemma MapOfCons(es: seq<Entry>, m: map<string, string>)
    requires es != [] && DistinctKeys(es) && MapOf(es).Keys !! m.Keys
    ensures es[0].0 !in m && MapOf(es[1..]).Keys !! m[es[0].0 := es[0].1].Keys
    ensures m[es[0].0 := es[0].1] + MapOf(es[1..]) == m + MapOf(es)
  {
  }

  lemma ParsePrintedEntry(e: Entry, last: bool, next: string, m: map<string, string>)
    requires IsBytes(e.0) && IsBytes(e.1) && e.0 !in m
    ensures last ==> ParseEntries(PrintEntry(e), m) == Ok(m[e.0 := e.1])
    ensures !last ==> ParseEntries(PrintEntry(e) + "&" + next, m) == ParseEntries(next, m[e.0 := e.1])
  {
    NoDelimiters(e.0, true, true);
    NoDelimiters(e.1, true, true);
    DecodeEncode(e.0, true, true);
    DecodeEncode(e.1, true, true);
    EncodedEmpty(e.1);
    ParseOneEntry(Encode(e.0, true, true), e.0, Encode(e.1, true, true), e.1, last, next, m);
    AppendAssociates(PrintEntry(e), "&", next);
  }

  lemma {:induction false} PrintedEntriesBytes(es: seq<Entry>)
    ensures '#' !in PrintEntries(es) && '?' !in PrintEntries(es)
    decreases |es|
  {
    if es != [] {
      NoDelimiters(es[0].0, true, true);
      NoDelimiters(es[0].1, true, true);
      PrintedEntriesBytes(es[1..]);
    }
  }

  /** Parsing a printed query gives the map back, in whatever order its entries were printed. */
  lemma QueryRoundTrip(es: seq<Entry>, m: map<string, string>)
    requires Enumerates(es, m) && BytesEntries(es)
    ensures ParseQuery(PrintEntries(es)) == Ok(m)
  {
    PrintedEntriesBytes(es);
    NoQuestionMark(PrintEntries(es));
    ParsePrintedEntries(es, map[]);
    assert map[] + m == m;
  }

  lemma NoQuestionMark(s: string)
    requires s == "" || s[0] != '?'
    ensures Skip(s, "?") == (false, s)
  {
  }

  // ----- authorities come back -----

  /** A value that `std::string` and `std::optional<uint16_t>` can hold. */
  predicate WellTyped(u: Uri) {
    && IsBytes(u.scheme) && IsBytes(u.user) && IsBytes(u.password) && IsBytes(u.host) && IsBytes(u.path)
    && IsBytes(u.fragment)
    && (u.port.Some? ==> u.port.value <= MAX_PORT)
    && forall k :: k in u.query ==> IsBytes(k) && IsBytes(u.query[k])
  }

  lemma DecodePlain(s: string)
    requires IsBytes(s)
    ensures Decode(Encode(s)) == Ok(s)
    ensures forall c :: c in Encode(s) ==> c !in ":@?#&="
    ensures Encode(s) == "" <==> s == ""
  {
    DecodeEncode(s, false, false);
    NoDelimiters(s, false, false);
    EncodedSlash(s);
  }

  lemma ParseCredentials(user: string, password: string)
    requires IsBytes(user) && IsBytes(password)
    ensures ParseUserInfo(Credentials(user, password)) == Ok((user, password))
    ensures '@' !in Credentials(user, password)
  {
    DecodePlain(user);
    DecodePlain(password);
    if password == "" {
      assert Credentials(user, password) == Encode(user);
      ReadUntilNowhere(Encode(user), ":");
    } else {
      assert Credentials(user, password) == Encode(user) + ":" + Encode(password);
      ReadUntilAfter(Encode(user), ":", Encode(password));
    }
  }

  /** Reading host and port from what follows the user info. */
  predicate ReadsHostPort(s: string, host: string, port: Option<nat>) {
    var (h, p) := Split(s, ":");
    DecodeOr(h, "") == Ok(host) && ReadInt(p, MAX_PORT).0 == port
  }

  lemma ParseHost(h: string, host: string)
    requires ':' !in h && Decode(h) == Ok(host) && (h == "" ==> host == "")
    ensures ReadsHostPort(h, host, None)
  {
    ReadUntilNowhere(h, ":");
  }

  lemma ParseHostAndPort(h: string, host: string, n: nat)
    requires ':' !in h && Decode(h) == Ok(host) && n <= MAX_PORT
    ensures ReadsHostPort(h + ":" + Decimal(n), host, Some(n))
  {
    ReadUntilAfter(h, ":", Decimal(n));
    ReadDecimal(n, "", MAX_PORT);
    assert Decimal(n) + "" == Decimal(n);
  }

  lemma ParseHostPort(host: string, port: Option<nat>)
    requires IsBytes(host) && (port.Some? ==> port.value <= MAX_PORT)
    ensures ReadsHostPort(Encode(host) + PortText(port), host, port)
    ensures '@' !in Encode(host) + PortText(port)
  {
    DecodePlain(host);
    match port
    case None =>
      assert Encode(host) + "" == Encode(host);
      ParseHost(Encode(host), host);
    case Some(n) =>
      AppendAssociates(Encode(host), ":", Decimal(n));
      ParseHostAndPort(Encode(host), host, n);
  }

  /** The printed authority is parsed back, whatever bytes user, password and host contain. */
  lemma AuthorityRoundTrip(u: Uri)
    requires WellTyped(u)
    ensures ParseAuthority(AuthorityText(u)) == Ok(Authority(u.user, u.password, u.host, u.port))
  {
    var rest := Encode(u.host) + PortText(u.port);
    ParseHostPort(u.host, u.port);
    if u.user == "" && u.password == "" {
      assert AuthorityText(u) == rest;
      ReadUntilNowhere(rest, "@");
    } else {
      var info := Credentials(u.user, u.password);
      ParseCredentials(u.user, u.password);
      assert AuthorityText(u) == info + "@" + rest;
      ReadUntilAfter(info, "@", rest);
    }
  }

  // ----- path, query and fragment come back -----

  lemma DecodeSlash(s: string)
    ensures Decode("/" + s) == Prepend('/', Decode(s))
  {
    assert ("/" + s)[1..] == s;
  }

  lemma ParseFragment(fragment: string)
    requires IsBytes(fragment)
    ensures DecodeOr(ReadUntilEnd(Encode(fragment)).0, "") == Ok(fragment)
  {
    DecodePlain(fragment);
  }

  /** Reading query and fragment from what follows the question mark. */
  predicate ReadsQueryFragment(s: string, query: map<string, string>, fragment: string) {
    var (q, r) := Split(s, "#");
    && (if q.Some? then ParseQuery(q.value) else Ok(map[])) == Ok(query)
    && DecodeOr(ReadUntilEnd(r).0, "") == Ok(fragment)
  }

  lemma ParseQueryFragment(q: string, query: map<string, string>, fragment: string)
    requires IsBytes(fragment) && q != "" && '#' !in q && ParseQuery(q) == Ok(query)
    ensures ReadsQueryFragment(q + FragmentText(fragment), query, fragment)
  {
    if fragment == "" {
      assert q + "" == q;
      ReadUntilNowhere(q, "#");
    } else {
      AppendAssociates(q, "#", Encode(fragment));
      ReadUntilAfter(q, "#", Encode(fragment));
      ParseFragment(fragment);
    }
  }

  lemma ParseTailAtMark(e: string, p: string, rest: string, query: map<string, string>, fragment: string)
    requires '?' !in e && Decode("/" + e) == Ok("/" + p) && ReadsQueryFragment(rest, query, fragment)
    ensures ParseTail(e + "?" + rest) == Ok(Tail("/" + p, query, fragment))
  {
    ReadUntilAfter(e, "?", rest);
  }

  lemma ParseTailWithQuery(p: string, q: string, query: map<string, string>, fragment: string)
    requires IsBytes(p) && IsBytes(fragment)
    requires q != "" && '#' !in q && ParseQuery(q) == Ok(query)
    ensures ParseTail(Encode(p) + ("?" + (q + FragmentText(fragment)))) == Ok(Tail("/" + p, query, fragment))
  {
    DecodePlain(p);
    DecodeSlash(Encode(p));
    ParseQueryFragment(q, query, fragment);
    ParseTailAtMark(Encode(p), p, q + FragmentText(fragment), query, fragment);
    AppendAssociates(Encode(p), "?", q + FragmentText(fragment));
  }

  lemma ParseTailWithFragment(p: string, fragment: string)
    requires IsBytes(p) && IsBytes(fragment)
    ensures ParseTail(Encode(p) + ("#" + Encode(fragment))) == Ok(Tail("/" + p, map[], fragment))
  {
    var s := Encode(p) + ("#" + Encode(fragment));
    DecodePlain(p);
    DecodePlain(fragment);
    DecodeSlash(Encode(p));
    assert s == Encode(p) + "#" + Encode(fragment);
    ReadUntilNowhere(s, "?");
    ReadUntilAfter(Encode(p), "#", Encode(fragment));
    ParseFragment(fragment);
  }

  lemma ParseTailPathOnly(p: string)
    requires IsBytes(p)
    ensures ParseTail(Encode(p)) == Ok(Tail(if p == "" then "" else "/" + p, map[], ""))
  {
    DecodePlain(p);
    DecodeSlash(Encode(p));
    ReadUntilNowhere(Encode(p), "?");
    ReadUntilNowhere(Encode(p), "#");
  }

  /** Path without its first slash, query and fragment are parsed back, except that an empty rest of
      a path is not told from a missing path when neither query nor fragment follows. */
  lemma TailRoundTrip(p: string, es: seq<Entry>, fragment: string)
    requires IsBytes(p) && IsBytes(fragment) && BytesEntries(es) && DistinctKeys(es)
    ensures ParseTail(Encode(p) + TailText(es, fragment)) ==
            Ok(Tail(if p == "" && es == [] && fragment == "" then "" else "/" + p, MapOf(es), fragment))
  {
    if es != [] {
      QueryRoundTrip(es, MapOf(es));
      PrintedEntriesBytes(es);
      PrintEntryNonempty(es);
      ParseTailWithQuery(p, PrintEntries(es), MapOf(es), fragment);
    } else if fragment != "" {
      assert TailText(es, fragment) == "#" + Encode(fragment);
      ParseTailWithFragment(p, fragment);
    } else {
      assert Encode(p) + TailText(es, fragment) == Encode(p);
      ParseTailPathOnly(p);
    }
  }

  // ----- URIs come back -----

  /** Exactly the URIs that survive printing and parsing. */
  predicate Printable(u: Uri) {
    && '/' !in u.user && '/' !in u.password && '/' !in u.host
    && (if u.path == "" then u.query == map[] && u.fragment == ""
        else u.path[0] == '/' && (u.path != "/" || u.query != map[] || u.fragment != ""))
  }

  function HierarchyText(u: Uri, es: seq<Entry>): string {
    AuthorityText(u) + (PathText(u) + TailText(es, u.fragment))
  }

  lemma ParseScheme(u: Uri, es: seq<Entry>)
    requires WellTyped(u)
    ensures Parse(ToString(u, es)) == ParseHierarchy(u.scheme, HierarchyText(u, es))
  {
    DecodePlain(u.scheme);
    ReadUntilAfter(Encode(u.scheme), "://", HierarchyText(u, es));
  }

  lemma {:induction false} EntriesAreBytes(es: seq<Entry>, m: map<string, string>)
    requires Enumerates(es, m) && forall k :: k in m ==> IsBytes(k) && IsBytes(m[k])
    ensures BytesEntries(es)
    ensures es == [] <==> m == map[]
    decreases |es|
  {
    if es != [] {
      assert es[0].0 in m && m[es[0].0] == es[0].1;
      var rest := MapOf(es[1..]);
      forall k | k in rest
        ensures IsBytes(k) && IsBytes(rest[k])
      {
        assert k in m && m[k] == rest[k];
      }
      EntriesAreBytes(es[1..], rest);
      assert forall i :: 1 <= i < |es| ==> es[i] == es[1..][i - 1];
    }
  }

  lemma ParseAtSlash(scheme: string, a: string, t: string, authority: Authority, tail: Tail)
    requires '/' !in a && ParseAuthority(a) == Ok(authority) && ParseTail(t) == Ok(tail)
    ensures ParseHierarchy(scheme, a + "/" + t) ==
            Ok(Uri(scheme, authority.user, authority.password, authority.host, authority.port,
                   tail.path, tail.query, tail.fragment))
  {
    ReadUntilAfter(a, "/", t);
  }

  lemma AuthoritySlash(u: Uri)
    ensures '/' in AuthorityText(u) <==> '/' in u.user || '/' in u.password || '/' in u.host
    ensures '/' in UserInfoText(u) <==> '/' in u.user || '/' in u.password
    ensures '/' in Credentials(u.user, u.password) <==> '/' in u.user || '/' in u.password
  {
    EncodedSlash(u.user);
    EncodedSlash(u.password);
    EncodedSlash(u.host);
  }

  /** The path without the slash that ends the authority. */
  function PathRest(path: string): string {
    if path == "" then "" else path[1..]
  }

  lemma PathTextSlash(u: Uri)
    requires u.path == "" || u.path[0] == '/'
    ensures PathText(u) == "/" + Encode(PathRest(u.path))
  {
    if u.path != "" {
      EncodeCons('/', u.path[1..], false, false);
      assert u.path == ['/'] + u.path[1..];
    }
  }

  /** Without slashes in the authority everything but the path comes back, and the path comes back
      with the slash that ends the authority put in front. */
  lemma ParsePrinted(u: Uri, es: seq<Entry>)
    requires WellTyped(u) && Enumerates(es, u.query)
    requires '/' !in u.user && '/' !in u.password && '/' !in u.host
    requires u.path == "" || u.path[0] == '/'
    ensures var p := PathRest(u.path);
            Parse(ToString(u, es)) ==
            Ok(u.(path := if p == "" && u.query == map[] && u.fragment == "" then "" else "/" + p))
  {
    var p := PathRest(u.path);
    var (a, t) := (AuthorityText(u), Encode(p) + TailText(es, u.fragment));
    EntriesAreBytes(es, u.query);
    AuthoritySlash(u);
    AuthorityRoundTrip(u);
    TailRoundTrip(p, es, u.fragment);
    ParseAtSlash(u.scheme, a, t, ParseAuthority(a).value, ParseTail(t).value);
    ParseScheme(u, es);
    PathTextSlash(u);
    assert HierarchyText(u, es) == a + "/" + t by {
      AppendAssociates("/", Encode(p), TailText(es, u.fragment));
      AppendAssociates(a, "/", t);
    }
  }

  lemma {:induction false} FirstSlash(s: string) returns (x: string, y: string)
    requires '/' in s
    ensures s == x + "/" + y && '/' !in x
    ensures forall c :: c in x ==> c in s
  {
    if s[0] == '/' {
      x, y := "", s[1..];
    } else {
      var front;
      front, y := FirstSlash(s[1..]);
      x := [s[0]] + front;
      assert s == [s[0]] + s[1..];
    }
  }

  lemma ParseAuthorityWithoutUser(a: string)
    requires '@' !in a
    ensures ParseAuthority(a).Ok? ==> ParseAuthority(a).value.user == "" && ParseAuthority(a).value.password == ""
  {
    ReadUntilNowhere(a, "@");
  }

  /** A slash in the user or the password ends the authority before the '@', so that neither is found. */
  lemma SlashInCredentials(u: Uri, rest: string)
    requires WellTyped(u) && '/' in Credentials(u.user, u.password)
    ensures var r := ParseHierarchy(u.scheme, Credentials(u.user, u.password) + rest);
            r.Ok? ==> r.value.user == "" && r.value.password == ""
  {
    var info := Credentials(u.user, u.password);
    var x, y := FirstSlash(info);
    ParseCredentials(u.user, u.password);
    ParseAuthorityWithoutUser(x);
    AppendAssociates(x + "/", y, rest);
    ReadUntilAfter(x, "/", y + rest);
  }

  lemma EncodeAroundSlash(x: string, y: string)
    ensures Encode(x + "/" + y) == Encode(x) + "/" + Encode(y)
  {
    EncodeAppend(x, "/" + y, false, false);
    EncodeCons('/', y, false, false);
    AppendAssociates(x, "/", y);
    AppendAssociates(Encode(x), "/", Encode(y));
  }

  /** A slash in the host ends the authority inside the host. */
  lemma SlashInHost(u: Uri, rest: string)
    requires WellTyped(u) && '/' !in u.user && '/' !in u.password && '/' in u.host
    ensures var r := ParseHierarchy(u.scheme, UserInfoText(u) + (Encode(u.host) + rest));
            r.Ok? ==> r.value.host != u.host
  {
    var x, y := FirstSlash(u.host);
    var v := u.(host := x, port := None);
    assert forall i :: 0 <= i < |x| ==> x[i] == u.host[i];
    AuthoritySlash(v);
    AuthorityRoundTrip(v);
    EncodeAroundSlash(x, y);
    var (info, e, f) := (UserInfoText(u), Encode(x), Encode(y));
    RegroupHost(info, e, f, rest);
    assert e + "" == e;
    HostOfPrefix(u.scheme, info + e, f + rest, v);
  }

  lemma RegroupHost(info: string, e: string, f: string, rest: string)
    ensures info + (e + "/" + f + rest) == info + e + "/" + (f + rest)
  {
  }

  lemma HostOfPrefix(scheme: string, a: string, rest: string, v: Uri)
    requires '/' !in a && ParseAuthority(a) == Ok(Authority(v.user, v.password, v.host, v.port))
    ensures var r := ParseHierarchy(scheme, a + "/" + rest); r.Ok? ==> r.value.host == v.host
  {
    ReadUntilAfter(a, "/", rest);
  }

  lemma TailPath(s: string)
    ensures ParseTail(s).Ok? ==> ParseTail(s).value.path == "" || ParseTail(s).value.path[0] == '/'
  {
    var (path1, _) := ReadUntil(s, "?");
    var (path2, _) := ReadUntil(s, "#");
    if path1.Some? {
      DecodeSlash(path1.value);
    } else if path2.Some? {
      DecodeSlash(path2.value);
    } else {
      DecodeSlash(s);
    }
  }

  lemma HierarchyPath(scheme: string, s: string)
    ensures var r := ParseHierarchy(scheme, s);
            r.Ok? ==> r.value.path == "" || r.value.path[0] == '/'
  {
    TailPath(Split(s, "/").1);
  }

  lemma RegroupCredentials(info: string, hostPort: string, rest: string)
    ensures info + "@" + hostPort + rest == info + ("@" + hostPort + rest)
  {
  }

  lemma SlashLosesAuthority(u: Uri, es: seq<Entry>)
    requires WellTyped(u) && ('/' in u.user || '/' in u.password || '/' in u.host)
    ensures ParseHierarchy(u.scheme, HierarchyText(u, es)) != Ok(u)
  {
    var rest := PathText(u) + TailText(es, u.fragment);
    var (host, port) := (Encode(u.host), PortText(u.port));
    AuthoritySlash(u);
    if '/' in u.user || '/' in u.password {
      SlashInCredentials(u, "@" + (host + port) + rest);
      RegroupCredentials(Credentials(u.user, u.password), host + port, rest);
    } else {
      SlashInHost(u, port + rest);
      AppendAssociates(host, port, rest);
      AppendAssociates(UserInfoText(u), host + port, rest);
    }
  }

  lemma StrayPath(u: Uri, es: seq<Entry>)
    requires u.path != "" && u.path[0] != '/'
    ensures ParseHierarchy(u.scheme, HierarchyText(u, es)) != Ok(u)
  {
    HierarchyPath(u.scheme, HierarchyText(u, es));
  }

  lemma PathComesBack(u: Uri)
    requires u.path == "" || u.path[0] == '/'
    ensures var p := PathRest(u.path);
            u.path == (if p == "" && u.query == map[] && u.fragment == "" then "" else "/" + p) <==>
            if u.path == "" then u.query == map[] && u.fragment == ""
            else u.path != "/" || u.query != map[] || u.fragment != ""
  {
    if u.path != "" {
      assert u.path == "/" + u.path[1..];
    }
  }

  /** Parsing a printed URI gives the URI back exactly when it is printable, whatever bytes it is made
      of and in whatever order the entries of its query are printed. */
  lemma RoundTrip(u: Uri, es: seq<Entry>)
    requires WellTyped(u) && Enumerates(es, u.query)
    ensures Parse(ToString(u, es)) == Ok(u) <==> Printable(u)
  {
    if '/' in u.user || '/' in u.password || '/' in u.host {
      ParseScheme(u, es);
      SlashLosesAuthority(u, es);
    } else if u.path != "" && u.path[0] != '/' {
      ParseScheme(u, es);
      StrayPath(u, es);
    } else {
      ParsePrinted(u, es);
      PathComesBack(u);
    }
  }

  // ----- the functions of the source -----

  method ParseQueryString(queryString: string) returns (r: Result<map<string, string>>)
    ensures r == ParseQuery(queryString)
  {
    var query := map[];
    var parser := new Parser(queryString);
    var _ := parser.Skip("?");
    while !parser.Exhausted()
      invariant ParseQuery(queryString) == ParseEntries(parser.str, query)
      decreases |parser.str|
    {
      var key := parser.ReadUntil("=");
      if key.None? {
        return Err("Invalid query string");
      }
      var k := DecodeText(key.value, true);
      if k.Err? {
        return Err(k.error);
      }
      if k.value !in query {
        query := query[k.value := ""];
      }
      var value := parser.Split("&");
      if value.Some? {
        var v := DecodeText(value.value, true);
        if v.Err? {
          return Err(v.error);
        }
        query := query[k.value := v.value];
      }
    }
    r := Ok(query);
  }

  method ParseAuthorityText(authority: string) returns (r: Result<Authority>)
    ensures r == ParseAuthority(authority)
  {
    var (user, password, host) := ("", "", "");
    var parser := new Parser(authority);
    var userInfo := parser.ReadUntil("@");
    if userInfo.Some? {
      var userInfoParser := new Parser(userInfo.value);
      var u := userInfoParser.Split(":");
      if u.Some? {
        var decoded := DecodeText(u.value, false);
        if decoded.Err? {
          return Err(decoded.error);
        }
        user := decoded.value;
      }
      var p := userInfoParser.ReadUntilEnd();
      if p.Some? {
        var decoded := DecodeText(p.value, false);
        if decoded.Err? {
          return Err(decoded.error);
        }
        password := decoded.value;
      }
    }
    var h := parser.Split(":");
    if h.Some? {
      var decoded := DecodeText(h.value, false);
      if decoded.Err? {
        return Err(decoded.error);
      }
      host := decoded.value;
    }
    var port := parser.ReadInt(MAX_PORT);
    r := Ok(Authority(user, password, host, port));
  }

  method ParseFragmentText(parser: Parser) returns (r: Result<string>)
    modifies parser
    ensures r == DecodeOr(ReadUntilEnd(old(parser.str)).0, "")
  {
    var fragment := parser.ReadUntilEnd();
    if fragment.None? {
      return Ok("");
    }
    r := DecodeText(fragment.value, false);
  }

  method ParseTailText(parser: Parser) returns (r: Result<Tail>)
    modifies parser
    ensures r == ParseTail(old(parser.str))
  {
    var path1 := parser.ReadUntil("?");
    if path1.Some? {
      var path := DecodeText("/" + path1.value, false);
      if path.Err? {
        return Err(path.error);
      }
      var query := Ok(map[]);
      var q := parser.Split("#");
      if q.Some? {
        query := ParseQueryString(q.value);
      }
      if query.Err? {
        return Err(query.error);
      }
      var fragment := ParseFragmentText(parser);
      if fragment.Err? {
        return Err(fragment.error);
      }
      return Ok(Tail(path.value, query.value, fragment.value));
    }
    var path2 := parser.ReadUntil("#");
    if path2.Some? {
      var path := DecodeText("/" + path2.value, false);
      if path.Err? {
        return Err(path.error);
      }
      var fragment := ParseFragmentText(parser);
      if fragment.Err? {
        return Err(fragment.error);
      }
      return Ok(Tail(path.value, map[], fragment.value));
    }
    var path3 := parser.ReadUntilEnd();
    if path3.Some? {
      var path := DecodeText("/" + path3.value, false);
      if path.Err? {
        return Err(path.error);
      }
      return Ok(Tail(path.value, map[], ""));
    }
    r := Ok(Tail("", map[], ""));
  }

  method ParseUri(encodedUri: string) returns (r: Result<Uri>)
    ensures r == Parse(encodedUri)
  {
    var parser := new Parser(encodedUri);
    var scheme := parser.ReadUntil("://");
    if scheme.None? {
      return Err("Invalid URI scheme");
    }
    var decoded := DecodeText(scheme.value, false);
    if decoded.Err? {
      return Err(decoded.error);
    }
    var authority := Ok(Authority("", "", "", None));
    var a := parser.Split("/");
    if a.Some? {
      authority := ParseAuthorityText(a.value);
    }
    if authority.Err? {
      return Err(authority.error);
    }
    var tail := ParseTailText(parser);
    if tail.Err? {
      return Err(tail.error);
    }
    var (x, t) := (authority.value, tail.value);
    r := Ok(Uri(decoded.value, x.user, x.password, x.host, x.port, t.path, t.query, t.fragment));
  }

  /** Every entry followed by '&'. */
  function Terminated(es: seq<Entry>): string {
    if es == [] then "" else PrintEntry(es[0]) + "&" + Terminated(es[1..])
  }

  lemma {:induction false} TerminatedIsPrinted(es: seq<Entry>)
    requires es != []
    ensures Terminated(es) == PrintEntries(es) + "&"
  {
    if |es| == 1 {
      assert es[1..] == [];
      assert PrintEntry(es[0]) + "&" + "" == PrintEntry(es[0]) + "&";
    } else {
      TerminatedIsPrinted(es[1..]);
      AppendAssociates(PrintEntry(es[0]) + "&", PrintEntries(es[1..]), "&");
    }
  }

  method PrintQuery(es: seq<Entry>) returns (output: string)
    requires es != []
    ensures output == "?" + PrintEntries(es)
  {
    hide Encode;
    output := "?";
    for i := 0 to |es|
      invariant output != "" && output + Terminated(es[i..]) == "?" + Terminated(es)
    {
      ghost var before := output;
      var key := EncodeText(es[i].0, true, true);
      output := output + key;
      output := output + "=";
      var value := EncodeText(es[i].1, true, true);
      output := output + value;
      output := output + "&";
      assert es[i..][1..] == es[i + 1..];
      assert output == before + (PrintEntry(es[i]) + "&");
      AppendAssociates(before, PrintEntry(es[i]) + "&", Terminated(es[i + 1..]));
    }
    assert output + "" == output;
    TerminatedIsPrinted(es);
    AppendAssociates("?", PrintEntries(es), "&");
    output := output[..|output| - 1];
  }

  method PrintUserInfo(u: Uri) returns (output: string)
    ensures output == UserInfoText(u)
  {
    output := "";
    var encodeAt := false;
    var user := EncodeText(u.user, false, false);
    var password := EncodeText(u.password, false, false);
    if u.user != "" {
      output := output + user;
      encodeAt := true;
    }
    assert output == Encode(u.user);
    if u.password != "" {
      output := output + ":";
      output := output + password;
      encodeAt := true;
      AppendAssociates(user, ":", password);
    }
    if encodeAt {
      assert output == Credentials(u.user, u.password);
      output := output + "@";
    }
  }

  method PrintAuthority(u: Uri) returns (output: string)
    ensures output == AuthorityText(u)
  {
    output := PrintUserInfo(u);
    ghost var info := output;
    var host := EncodeText(u.host, false, false);
    output := output + host;
    if u.port.Some? {
      output := output + ":";
      output := output + Decimal(u.port.value);
      AppendAssociates(info + host, ":", Decimal(u.port.value));
    }
    AppendAssociates(info, host, PortText(u.port));
    assert output == info + host + PortText(u.port);
  }

  method PrintTail(es: seq<Entry>, fragment: string) returns (output: string)
    ensures output == TailText(es, fragment)
  {
    output := "";
    if es != [] {
      output := PrintQuery(es);
    }
    ghost var query := output;
    if fragment != "" {
      output := output + "#";
      var encoded := EncodeText(fragment, false, false);
      output := output + encoded;
      AppendAssociates(query, "#", encoded);
    }
    assert output == query + FragmentText(fragment);
    if es != [] {
      AppendAssociates("?", PrintEntries(es), FragmentText(fragment));
    } else {
      assert "" + FragmentText(fragment) == FragmentText(fragment);
    }
  }

  /** Prints a URI whose query is enumerated by `es`. */
  method Print(u: Uri, es: seq<Entry>) returns (output: string)
    requires Enumerates(es, u.query)
    ensures output == ToString(u, es)
  {
    output := EncodeText(u.scheme, false, false);
    output := output + "://";
    ghost var front := output;
    var authority := PrintAuthority(u);
    output := output + authority;
    var path;
    if u.path == "" {
      path := "/";
    } else {
      path := EncodeText(u.path, false, false);
    }
    output := output + path;
    var tail := PrintTail(es, u.fragment);
    output := output + tail;
    AppendAssociates(authority, path, tail);
    AppendAssociates(front + authority, path, tail);
    AppendAssociates(front, authority, path + tail);
  }
}
