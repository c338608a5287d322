/** Which text means which URI: every text that the parser accepts is put together from raw pieces, each
    of which is decoded on its own. */
module UriText {
  import opened Wrappers
  import opened Texts
  import opened Percent
  import opened Uri

  // ----- the query -----

  /** Entries as written; `closed` is whether an ampersand ends the last one too. */
  function QueryText(es: seq<Entry>, closed: bool): string {
    if es == [] then ""
    else es[0].0 + "=" + (es[0].1 + ((if |es| > 1 || closed then "&" else "") + QueryText(es[1..], closed)))
  }

  /** A key ends at the first equals sign, a value at the first ampersand. */
  predicate AreEntries(es: seq<Entry>) {
    forall i :: 0 <= i < |es| ==> '=' !in es[i].0 && '&' !in es[i].1
  }

  /** Keys and values are decoded and a later value replaces an earlier one, but for a last value that is
      missing altogether: its key keeps the value it has. */
  function Collected(es: seq<Entry>, closed: bool, m: map<string, string>): Result<map<string, string>> {
    if es == [] then Ok(m)
    else
      var key :- Decode(es[0].0, true);
      var value :- Decode(es[0].1, true);
      var missing := |es| == 1 && !closed && es[0].1 == "";
      Collected(es[1..], closed, if missing && key in m then m else m[key := value])
  }

  /** Reading one entry that another entry or an ampersand follows. */
  lemma EntryIsRead(k: string, v: string, next: string, m: map<string, string>)
    requires '=' !in k && '&' !in v
    ensures ParseEntries(k + "=" + (v + ("&" + next)), m) ==
      (var key :- Decode(k, true); var value :- Decode(v, true); ParseEntries(next, m[key := value]))
  {
    var r := v + "&" + next;
    AppendAssociates(v, "&", next);
    ReadUntilAfter(k, "=", r);
    ReadUntilAfter(v, "&", next);
    if Decode(k, true).Ok? && Decode(v, true).Ok? {
      var key := Decode(k, true).value;
      assert m[key := ""][key := Decode(v, true).value] == m[key := Decode(v, true).value];
    }
  }

  /** Reading an entry that ends the text. */
  lemma LastEntryIsRead(k: string, v: string, m: map<string, string>)
    requires '=' !in k && '&' !in v
    ensures ParseEntries(k + "=" + v, m) ==
      (var key :- Decode(k, true); var value :- Decode(v, true); Ok(if v == "" && key in m then m else m[key := value]))
  {
    ReadUntilAfter(k, "=", v);
    if v != "" {
      ReadUntilNowhere(v, "&");
      if Decode(k, true).Ok? && Decode(v, true).Ok? {
        var key := Decode(k, true).value;
        assert m[key := ""][key := Decode(v, true).value] == m[key := Decode(v, true).value];
      }
    }
  }

  /** What a query means; a rest without an equals sign is an exception. */
  lemma {:induction false} QueryIsRead(es: seq<Entry>, closed: bool, rest: string, m: map<string, string>)
    requires AreEntries(es) && '=' !in rest && (closed || rest == "") && (es == [] ==> closed)
    ensures ParseEntries(QueryText(es, closed) + rest, m) ==
      (var r :- Collected(es, closed, m); if rest == "" then Ok(r) else Err("Invalid query string"))
    decreases |es|
  {
    hide Decode;
    if es == [] {
      assert "" + rest == rest;
      ReadUntilNowhere(rest, "=");
    } else {
      var (k, v) := es[0];
      var tail := QueryText(es[1..], closed);
      if |es| > 1 || closed {
        assert QueryText(es, closed) + rest == k + "=" + (v + ("&" + (tail + rest)));
        EntryIsRead(k, v, tail + rest, m);
        if Decode(k, true).Ok? && Decode(v, true).Ok? {
          QueryIsRead(es[1..], closed, rest, m[Decode(k, true).value := Decode(v, true).value]);
        }
      } else {
        assert QueryText(es, closed) + rest == k + "=" + v;
        LastEntryIsRead(k, v, m);
      }
    }
  }

  /** The text of a query as `parse` hands it on: one question mark in front is skipped, a second one is not. */
  lemma QueryStringIsRead(mark: bool, es: seq<Entry>, closed: bool, rest: string)
    requires AreEntries(es) && '=' !in rest && (closed || rest == "") && (es == [] ==> closed)
    requires var s := QueryText(es, closed) + rest; !mark ==> s == "" || s[0] != '?'
    ensures ParseQuery((if mark then "?" else "") + (QueryText(es, closed) + rest)) ==
      (var r :- Collected(es, closed, map[]); if rest == "" then Ok(r) else Err("Invalid query string"))
  {
    hide QueryText, Collected, ParseEntries;
    var s := QueryText(es, closed) + rest;
    QueryIsRead(es, closed, rest, map[]);
    if mark {
      assert ("?" + s)[1..] == s;
    } else {
      assert "" + s == s;
      NoQuestionMark(s);
    }
  }

  /** Every text is made of entries and a rest without an equals sign. */
  lemma {:induction false} EveryQueryIsText(s: string) returns (es: seq<Entry>, closed: bool, rest: string)
    ensures AreEntries(es) && '=' !in rest && (closed || rest == "") && (es == [] ==> closed)
    ensures s == QueryText(es, closed) + rest
    decreases |s|
  {
    if '=' !in s {
      es, closed, rest := [], true, s;
      assert "" + s == s;
    } else {
      var k, r := CutAt(s, '=');
      if '&' !in r {
        es, closed, rest := [(k, r)], false, "";
        assert es[1..] == [];
        assert QueryText(es, closed) == k + "=" + r;
        assert s == QueryText(es, closed) + "";
      } else {
        var v, next := CutAt(r, '&');
        var more;
        more, closed, rest := EveryQueryIsText(next);
        es := [(k, v)] + more;
        assert es[1..] == more;
        assert QueryText(es, closed) + rest == k + "=" + (v + ("&" + (QueryText(more, closed) + rest)));
        assert v + "&" + next == v + ("&" + next);
      }
    }
  }

  /** Cutting a text at the first place of a character. */
  lemma {:induction false} CutAt(s: string, c: char) returns (x: string, y: string)
    requires c in s
    ensures s == x + [c] + y && c !in x && |y| < |s|
    ensures forall d :: d in x || d in y ==> d in s
  {
    if s[0] == c {
      x, y := "", s[1..];
    } else {
      var front;
      front, y := CutAt(s[1..], c);
      x := [s[0]] + front;
      assert s == [s[0]] + s[1..];
    }
  }

  // ----- the pieces of a URI -----

  /** What follows the slash that ends the authority. */
  datatype Rest = Rest(path: string, query: Option<string>, fragment: Option<string>)

  datatype Pieces = Pieces(
    scheme: string,
    info: Option<(string, Option<string>)>,
    host: string,
    port: Option<string>,
    rest: Option<Rest>)

  function After(mark: string, t: Option<string>): string {
    if t.Some? then mark + t.value else ""
  }

  function InfoText(info: (string, Option<string>)): string {
    info.0 + After(":", info.1)
  }

  function HostText(p: Pieces): string {
    p.host + After(":", p.port)
  }

  function AuthorityOf(p: Pieces): string {
    if p.info.Some? then InfoText(p.info.value) + "@" + HostText(p) else HostText(p)
  }

  function RestText(r: Rest): string {
    r.path + (After("?", r.query) + After("#", r.fragment))
  }

  function HierarchyOf(p: Pieces): string {
    if p.rest.Some? then AuthorityOf(p) + "/" + RestText(p.rest.value) else AuthorityOf(p)
  }

  function TextOf(p: Pieces): string {
    p.scheme + "://" + HierarchyOf(p)
  }

  /** `d` does not occur in `t + d` before the end of `t`. */
  predicate FirstAtEnd(t: string, d: string) {
    forall k :: 0 <= k < |t| ==> !(d <= (t + d)[k..])
  }

  predicate RestOk(r: Rest) {
    && '?' !in r.path
    && (r.query.Some? ==> '#' !in r.query.value)
    && (r.query.None? ==> '#' !in r.path)
    && (r.query.None? && r.fragment.Some? ==> '?' !in r.fragment.value)
  }

  /** Each piece ends where the next begins. */
  predicate PiecesOk(p: Pieces) {
    && FirstAtEnd(p.scheme, "://")
    && '/' !in AuthorityOf(p)
    && (if p.info.Some? then '@' !in InfoText(p.info.value) && ':' !in p.info.value.0 else '@' !in HostText(p))
    && ':' !in p.host
    && (p.rest.Some? ==> RestOk(p.rest.value))
  }

  function Or(t: Option<string>): string {
    if t.Some? then t.value else ""
  }

  function InfoMeaning(info: (string, Option<string>)): Result<(string, string)> {
    var user :- Decode(info.0);
    var password :- Decode(Or(info.1));
    Ok((user, password))
  }

  function AuthorityMeaning(p: Pieces): Result<Authority> {
    var credentials :- if p.info.Some? then InfoMeaning(p.info.value) else Ok(("", ""));
    var host :- Decode(p.host);
    Ok(Authority(credentials.0, credentials.1, host, ReadInt(Or(p.port), 65535).0))
  }

  /** The slash belongs to the path, unless nothing at all follows it. */
  function RestMeaning(r: Rest): Result<Tail> {
    if r == Rest("", None, None) then Ok(Tail("", map[], ""))
    else
      var path :- Decode(r.path);
      var query :- ParseQuery(Or(r.query));
      var fragment :- Decode(Or(r.fragment));
      Ok(Tail("/" + path, query, fragment))
  }

  /** The URI that the pieces mean, or the first exception. */
  function Meaning(p: Pieces): Result<Uri> {
    var scheme :- Decode(p.scheme);
    var a :- AuthorityMeaning(p);
    var t :- RestMeaning(if p.rest.Some? then p.rest.value else Rest("", None, None));
    Ok(Uri(scheme, a.user, a.password, a.host, a.port, t.path, t.query, t.fragment))
  }

  // ----- the parser finds the pieces -----

  /** Splitting at a mark that the front does not contain, whether or not anything follows. */
  lemma SplitAtMark(t: string, mark: string, rest: Option<string>)
    requires |mark| == 1 && mark[0] !in t
    ensures Or(Split(t + After(mark, rest), mark).0) == t && Split(t + After(mark, rest), mark).1 == Or(rest)
  {
    if rest.Some? {
      AppendAssociates(t, mark, rest.value);
      ReadUntilAfter(t, mark, rest.value);
    } else {
      assert t + "" == t;
      ReadUntilNowhere(t, mark);
    }
  }

  lemma DecodeOrIs(t: Option<string>)
    ensures DecodeOr(t, "") == Decode(Or(t))
  {
  }

  lemma EndIsRest(s: string)
    ensures Or(ReadUntilEnd(s).0) == s
  {
  }

  lemma InfoIsRead(info: (string, Option<string>))
    requires ':' !in info.0
    ensures ParseUserInfo(InfoText(info)) == InfoMeaning(info)
  {
    hide Decode, Split, DecodeOr, ReadUntilEnd;
    SplitAtMark(info.0, ":", info.1);
    var (u, r) := Split(InfoText(info), ":");
    DecodeOrIs(u);
    DecodeOrIs(ReadUntilEnd(r).0);
    EndIsRest(r);
  }

  lemma AuthorityIsRead(p: Pieces)
    requires PiecesOk(p)
    ensures ParseAuthority(AuthorityOf(p)) == AuthorityMeaning(p)
  {
    hide Decode, Split, DecodeOr, ReadInt, ParseUserInfo, InfoMeaning, ReadUntil;
    var h := HostText(p);
    SplitAtMark(p.host, ":", p.port);
    DecodeOrIs(Split(h, ":").0);
    if p.info.Some? {
      ReadUntilAfter(InfoText(p.info.value), "@", h);
      InfoIsRead(p.info.value);
    } else {
      ReadUntilNowhere(h, "@");
    }
  }

  lemma RestIsRead(r: Rest)
    requires RestOk(r)
    ensures ParseTail(RestText(r)) == RestMeaning(r)
  {
    hide Decode, Split, DecodeOr, ReadUntilEnd, ReadUntil, ParseQuery;
    var s := RestText(r);
    DecodeSlash(r.path);
    NothingMeansNothing();
    if r.query.Some? {
      RestWithQuery(r);
    } else {
      assert s == r.path + After("#", r.fragment);
      NoQuestionIn(r);
      ReadUntilNowhere(s, "?");
      if r.fragment.Some? {
        assert s == r.path + "#" + r.fragment.value;
        ReadUntilAfter(r.path, "#", r.fragment.value);
        DecodeOrIs(ReadUntilEnd(r.fragment.value).0);
        EndIsRest(r.fragment.value);
      } else {
        assert s == r.path;
        ReadUntilNowhere(s, "#");
      }
    }
  }

  lemma NoQuestionIn(r: Rest)
    requires RestOk(r) && r.query.None?
    ensures '?' !in r.path + After("#", r.fragment)
  {
  }

  lemma NothingMeansNothing()
    ensures Decode("") == Ok("") && ParseQuery("") == Ok(map[])
  {
  }

  lemma RestWithQuery(r: Rest)
    requires RestOk(r) && r.query.Some?
    ensures ParseTail(RestText(r)) == RestMeaning(r)
  {
    hide Decode, Split, DecodeOr, ReadUntilEnd, ReadUntil, ParseQuery, ParseTail, After, RestText;
    var q := r.query.value + After("#", r.fragment);
    QueryRestText(r.path, r.query.value, r.fragment);
    TextAfter(r.path, "?", q);
    ReadUntilAfter(r.path, "?", q);
    DecodeSlash(r.path);
    NothingMeansNothing();
    TailAtMark(RestText(r), r.path, q);
    SplitAtMark(r.query.value, "#", r.fragment);
    var (query, rest) := Split(q, "#");
    DecodeOrIs(ReadUntilEnd(rest).0);
    EndIsRest(rest);
  }

  lemma TextAfter(path: string, mark: string, q: string)
    ensures path + After(mark, Some(q)) == path + mark + q
  {
  }

  lemma TailAtMark(s: string, path: string, q: string)
    requires ReadUntil(s, "?") == (Some(path), q)
    ensures ParseTail(s) ==
      (var p :- Decode("/" + path);
       var query :- if Split(q, "#").0.Some? then ParseQuery(Split(q, "#").0.value) else Ok(map[]);
       var fragment :- DecodeOr(ReadUntilEnd(Split(q, "#").1).0, "");
       Ok(Tail(p, query, fragment)))
  {
    hide Decode, Split, DecodeOr, ReadUntilEnd, ReadUntil, ParseQuery;
  }

  lemma HierarchyIsRead(scheme: string, p: Pieces)
    requires PiecesOk(p)
    ensures ParseHierarchy(scheme, HierarchyOf(p)) ==
      (var a :- AuthorityMeaning(p);
       var t :- RestMeaning(if p.rest.Some? then p.rest.value else Rest("", None, None));
       Ok(Uri(scheme, a.user, a.password, a.host, a.port, t.path, t.query, t.fragment)))
  {
    hide ParseAuthority, ParseTail, Split, AuthorityMeaning, RestMeaning, AuthorityOf, RestText;
    var rest := if p.rest.Some? then p.rest.value else Rest("", None, None);
    NothingFollows();
    AuthorityIsRead(p);
    RestIsRead(rest);
    SplitAtMark(AuthorityOf(p), "/", if p.rest.Some? then Some(RestText(rest)) else None);
    assert HierarchyOf(p) == AuthorityOf(p) + After("/", if p.rest.Some? then Some(RestText(rest)) else None) by {
      Grouped(AuthorityOf(p), RestText(rest));
    }
  }

  lemma Grouped(a: string, r: string)
    ensures a + "/" + r == a + ("/" + r) && a + "" == a
  {
  }

  lemma NothingFollows()
    ensures RestText(Rest("", None, None)) == "" && RestOk(Rest("", None, None))
    ensures ParseAuthority("") == Ok(Authority("", "", "", None))
  {
  }

  /** Up to the end of `t`, `d` occurs in `t + d` where it occurs in any text that starts so. */
  lemma WithinFront(t: string, d: string, rest: string, k: nat)
    requires k <= |t|
    ensures d <= (t + d + rest)[k..] <==> d <= (t + d)[k..]
  {
    var (r, s) := ((t + d)[k..], (t + d + rest)[k..]);
    assert s == r + rest;
    assert r[..|d|] == s[..|d|];
  }

  lemma SchemeIsFound(t: string, d: string, rest: string)
    requires d != [] && FirstAtEnd(t, d)
    ensures ReadUntil(t + d + rest, d) == (Some(t), rest)
  {
    var s := t + d + rest;
    FindIsFirst(s, d);
    assert s[|t|..] == d + rest;
    assert d <= s[|t|..];
    forall k | 0 <= k < |t|
      ensures !(d <= s[k..])
    {
      WithinFront(t, d, rest, k);
    }
    var i := Find(s, d);
    if i.Some? {
      assert s[i.value..][..|d|] == s[i.value..i.value + |d|];
    }
    assert s[..|t|] == t && s[|t| + |d|..] == rest;
  }

  /** Parsing a text put together from pieces gives what the pieces mean. */
  lemma TextIsRead(p: Pieces)
    requires PiecesOk(p)
    ensures Parse(TextOf(p)) == Meaning(p)
  {
    hide Decode, ReadUntil, ParseHierarchy, HierarchyOf, AuthorityMeaning, RestMeaning;
    SchemeIsFound(p.scheme, "://", HierarchyOf(p));
    if Decode(p.scheme).Ok? {
      HierarchyIsRead(Decode(p.scheme).value, p);
    }
  }

  // ----- every text has pieces -----

  /** Cutting a text at the first place of a mark, if it has one. */
  lemma CutIfAny(s: string, c: char) returns (x: string, y: Option<string>)
    ensures s == x + After([c], y) && c !in x && (y.Some? <==> c in s)
    ensures forall d :: d in x || (y.Some? && d in y.value) ==> d in s
  {
    if c in s {
      var rest;
      x, rest := CutAt(s, c);
      y := Some(rest);
      AppendAssociates(x, [c], rest);
    } else {
      x, y := s, None;
      assert s + "" == s;
    }
  }

  lemma EveryRest(s: string) returns (r: Rest)
    ensures RestOk(r) && RestText(r) == s
  {
    hide RestText;
    var path, q := CutIfAny(s, '?');
    if q.Some? {
      var query, fragment := CutIfAny(q.value, '#');
      r := Rest(path, Some(query), fragment);
      QueryRestText(path, query, fragment);
    } else {
      var front, fragment := CutIfAny(s, '#');
      r := Rest(front, None, fragment);
      PlainRestText(front, fragment);
    }
  }

  lemma QueryRestText(path: string, query: string, fragment: Option<string>)
    ensures RestText(Rest(path, Some(query), fragment)) == path + After("?", Some(query + After("#", fragment)))
  {
    AppendAssociates("?", query, After("#", fragment));
  }

  lemma PlainRestText(path: string, fragment: Option<string>)
    ensures RestText(Rest(path, None, fragment)) == path + After("#", fragment)
  {
    assert "" + After("#", fragment) == After("#", fragment);
  }

  /** Any text with the mark of a scheme is put together from pieces in this way, and any other is an
      exception. */
  lemma EveryTextHasPieces(s: string) returns (p: Option<Pieces>)
    ensures p.Some? ==> PiecesOk(p.value) && TextOf(p.value) == s
    ensures p.None? ==> Parse(s) == Err("Invalid URI scheme")
  {
    FindIsFirst(s, "://");
    var i := Find(s, "://");
    if i.None? {
      return None;
    }
    var (scheme, after) := (s[..i.value], s[i.value + 3..]);
    assert s == scheme + "://" + after;
    forall k | 0 <= k < |scheme|
      ensures !("://" <= (scheme + "://")[k..])
    {
      WithinFront(scheme, "://", after, k);
    }
    var q := PiecesAfter(scheme, after);
    p := Some(q);
  }

  lemma PiecesAfter(scheme: string, after: string) returns (p: Pieces)
    requires FirstAtEnd(scheme, "://")
    ensures PiecesOk(p) && p.scheme == scheme && HierarchyOf(p) == after
  {
    hide FirstAtEnd, RestOk, RestText;
    var authority, follows := CutIfAny(after, '/');
    var rest: Option<Rest> := None;
    if follows.Some? {
      var r := EveryRest(follows.value);
      rest := Some(r);
    }
    var front, back := CutIfAny(authority, '@');
    var host, port := CutIfAny(if back.Some? then back.value else authority, ':');
    var info: Option<(string, Option<string>)> := None;
    if back.Some? {
      var user, password := CutIfAny(front, ':');
      info := Some((user, password));
    }
    p := Pieces(scheme, info, host, port, rest);
    assert AuthorityOf(p) == authority by {
      if back.Some? {
        Grouped2(front, back.value);
      }
    }
    if follows.Some? {
      Grouped(authority, follows.value);
    } else {
      assert authority + "" == authority;
    }
  }

  lemma Grouped2(a: string, b: string)
    ensures a + "@" + b == a + ("@" + b)
  {
  }
}
