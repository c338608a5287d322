/** The media line of a session description (section 5.14 of RFC 8866). */
module SdpMedia {
  import opened Wrappers
  import opened Texts
  import opened StringParser

  const MAX_UINT16 := 65535
  const MAX_UINT8 := 255

  /** What the media line carries; the payload types stand for the formats. */
  datatype Media = Media(mediaType: string, port: nat, numberOfPorts: nat, protocol: string, formats: seq<nat>)

  // ----- printing -----

  function PortsText(n: nat): string {
    if n > 1 then "/" + Decimal(n) else ""
  }

  /** Every payload type with a space before it. */
  function FormatsText(formats: seq<nat>): string {
    if formats == [] then "" else " " + Decimal(formats[0]) + FormatsText(formats[1..])
  }

  function BodyText(m: Media): string {
    m.mediaType + " " + (Decimal(m.port) + (PortsText(m.numberOfPorts) + (" " + (m.protocol + FormatsText(m.formats)))))
  }

  function MediaLine(m: Media): string {
    "m=" + BodyText(m)
  }

  // ----- parsing -----

  function ParseFormats(s: string): Result<seq<nat>>
    decreases |s|
  {
    if s == [] then Ok([])
    else
      SplitShrinks(s);
      var (t, rest) := Split(s, " ");
      match FromChars(t.value, MAX_UINT8)
      case None => Err("media: format integer parsing failed")
      case Some((v, _)) =>
        PrependFormats([v], ParseFormats(rest))
  }

  lemma SplitShrinks(s: string)
    requires s != []
    ensures |Split(s, " ").1| < |s|
  {
    FindIsFirst(s, " ");
  }

  function ParseProtocol(mediaType: string, port: nat, numberOfPorts: nat, s: string): Result<Media> {
    var (protocol, rest) := Split(Skip(s, " ").1, " ");
    if protocol.None? then Err("media: failed to parse protocol")
    else
      var formats :- ParseFormats(rest);
      Ok(Media(mediaType, port, numberOfPorts, protocol.value, formats))
  }

  function ParsePorts(mediaType: string, port: nat, s: string): Result<Media> {
    var (slash, r) := Skip(s, "/");
    if slash then
      var (n, rest) := ReadInt(r, MAX_UINT16);
      if n.None? then Err("media: failed to parse number of ports as integer")
      else ParseProtocol(mediaType, port, n.value, rest)
    else ParseProtocol(mediaType, port, 1, r)
  }

  function ParseType(s: string): Result<Media> {
    var (mediaType, r) := Split(s, " ");
    if mediaType.None? then Err("media: failed to parse media type")
    else
      var (port, rest) := ReadInt(r, MAX_UINT16);
      if port.None? then Err("media: failed to parse port as integer")
      else ParsePorts(mediaType.value, port.value, rest)
  }

  function ParseMedia(line: string): Result<Media> {
    var (m, s) := Skip(line, "m=");
    if !m then Err("media: expecting 'm='") else ParseType(s)
  }

  // ----- what comes back -----

  predicate Small(formats: seq<nat>) {
    forall i :: 0 <= i < |formats| ==> formats[i] <= MAX_UINT8
  }

  predicate WellTyped(m: Media) {
    && m.port <= MAX_UINT16 && m.numberOfPorts <= MAX_UINT16
    && Small(m.formats)
  }

  /** Exactly the media lines that survive printing and parsing. */
  predicate Printable(m: Media) {
    && ' ' !in m.mediaType
    && m.numberOfPorts >= 1
    && ' ' !in m.protocol
    && (m.protocol != "" || m.formats != [])
  }

  lemma NoSpaceInDecimal(n: nat)
    ensures ' ' !in Decimal(n)
  {
  }

  lemma ParseOneFormat(f: nat, rest: string)
    requires f <= MAX_UINT8 && (rest == "" || rest[0] == ' ')
    ensures ParseFormats(Decimal(f) + rest) ==
            PrependFormats([f], ParseFormats(if rest == "" then "" else rest[1..]))
  {
    var s := Decimal(f) + rest;
    NoSpaceInDecimal(f);
    ReadDecimal(f, "", MAX_UINT8);
    assert Decimal(f) + "" == Decimal(f);
    if rest == "" {
      ReadUntilNowhere(Decimal(f), " ");
    } else {
      assert s == Decimal(f) + " " + rest[1..];
      ReadUntilAfter(Decimal(f), " ", rest[1..]);
    }
  }

  lemma {:induction false} FormatsRoundTrip(formats: seq<nat>)
    requires formats != [] && Small(formats)
    ensures FormatsText(formats) != "" && FormatsText(formats)[0] == ' '
    ensures ParseFormats(FormatsText(formats)[1..]) == Ok(formats)
  {
    FormatsTextCons(formats[0], formats[1..]);
    assert formats == [formats[0]] + formats[1..];
    ParseOneFormat(formats[0], FormatsText(formats[1..]));
    if |formats| > 1 {
      FormatsRoundTrip(formats[1..]);
    }
  }

  lemma FormatsTextCons(f: nat, rest: seq<nat>)
    ensures FormatsText([f] + rest) != "" && FormatsText([f] + rest)[0] == ' '
    ensures FormatsText([f] + rest)[1..] == Decimal(f) + FormatsText(rest)
    ensures rest == [] ==> FormatsText(rest) == ""
    ensures rest != [] ==> FormatsText(rest) != "" && FormatsText(rest)[0] == ' '
  {
    assert ([f] + rest)[1..] == rest;
  }

  lemma SplitProtocol(protocol: string, formats: seq<nat>)
    requires ' ' !in protocol && Small(formats)
    ensures Split(protocol + FormatsText(formats), " ") ==
            if protocol == "" && formats == [] then (None, "")
            else (Some(protocol), if formats == [] then "" else FormatsText(formats)[1..])
  {
    hide FormatsText, ParseFormats;
    if formats == [] {
      NoFormats();
      assert protocol + "" == protocol;
      ReadUntilNowhere(protocol, " ");
    } else {
      FormatsRoundTrip(formats);
      AfterSpace(protocol, FormatsText(formats));
      ReadUntilAfter(protocol, " ", FormatsText(formats)[1..]);
    }
  }

  lemma NoFormats()
    ensures FormatsText([]) == "" && ParseFormats("") == Ok([])
  {
  }

  lemma AfterSpace(t: string, s: string)
    requires s != "" && s[0] == ' '
    ensures t + s == t + " " + s[1..]
  {
  }

  lemma ParsePrintedProtocol(mediaType: string, port: nat, n: nat, protocol: string, formats: seq<nat>)
    requires ' ' !in protocol && Small(formats)
    ensures var r := ParseProtocol(mediaType, port, n, " " + (protocol + FormatsText(formats)));
            if protocol == "" && formats == [] then r.Err?
            else r == Ok(Media(mediaType, port, n, protocol, formats))
  {
    hide FormatsText, ParseFormats, Split;
    SkipPrefix(" ", protocol + FormatsText(formats));
    SplitProtocol(protocol, formats);
    if formats == [] {
      NoFormats();
    } else {
      FormatsRoundTrip(formats);
    }
  }

  lemma SkipFirst(c: char, s: string, d: string)
    requires |d| == 1
    ensures Skip([c] + s, d) == if d[0] == c then (true, s) else (false, [c] + s)
  {
    assert ([c] + s)[1..] == s;
  }

  lemma ParsePrintedPorts(mediaType: string, port: nat, n: nat, rest: string)
    requires n <= MAX_UINT16
    ensures ParsePorts(mediaType, port, PortsText(n) + (" " + rest)) ==
            ParseProtocol(mediaType, port, if n > 1 then n else 1, " " + rest)
  {
    if n > 1 {
      AppendAssociates("/", Decimal(n), " " + rest);
      SkipFirst('/', Decimal(n) + (" " + rest), "/");
      ReadDecimal(n, " " + rest, MAX_UINT16);
    } else {
      assert "" + (" " + rest) == " " + rest;
      SkipFirst(' ', rest, "/");
    }
  }

  lemma ParsePrintedType(mediaType: string, port: nat, rest: string)
    requires ' ' !in mediaType && port <= MAX_UINT16 && rest != "" && !IsDigit(rest[0])
    ensures ParseType(mediaType + " " + (Decimal(port) + rest)) == ParsePorts(mediaType, port, rest)
  {
    ReadUntilAfter(mediaType, " ", Decimal(port) + rest);
    ReadDecimal(port, rest, MAX_UINT16);
  }

  lemma SplitHasNoSpace(s: string)
    ensures var (t, _) := Split(s, " "); t.Some? ==> ' ' !in t.value
  {
    FindIsFirst(s, " ");
    var (t, _) := Split(s, " ");
    if t.Some? {
      forall k | 0 <= k < |t.value|
        ensures t.value[k] != ' '
      {
        assert s[k..][0] == s[k];
        assert s[k] == ' ' <==> " " <= s[k..];
      }
    }
  }

  lemma ProtocolHasNoSpace(mediaType: string, port: nat, n: nat, s: string)
    ensures var r := ParseProtocol(mediaType, port, n, s); r.Ok? ==> r.value.mediaType == mediaType && ' ' !in r.value.protocol
  {
    SplitHasNoSpace(Skip(s, " ").1);
  }

  lemma TypeHasNoSpace(s: string)
    ensures var r := ParseType(s); r.Ok? ==> ' ' !in r.value.mediaType && ' ' !in r.value.protocol
  {
    SplitHasNoSpace(s);
    var (t, r) := Split(s, " ");
    if t.Some? {
      var (port, rest) := ReadInt(r, MAX_UINT16);
      if port.Some? {
        var (slash, r2) := Skip(rest, "/");
        ProtocolHasNoSpace(t.value, port.value, 1, r2);
        var (n, r3) := ReadInt(r2, MAX_UINT16);
        if n.Some? {
          ProtocolHasNoSpace(t.value, port.value, n.value, r3);
        }
      }
    }
  }

  lemma SkipPrefix(d: string, s: string)
    ensures Skip(d + s, d) == (true, s)
  {
    assert (d + s)[|d|..] == s;
  }

  lemma ParsePrintedBody(m: Media)
    requires WellTyped(m) && ' ' !in m.mediaType && ' ' !in m.protocol
    ensures var r := ParseType(BodyText(m));
            if m.protocol == "" && m.formats == [] then r.Err?
            else r == Ok(m.(numberOfPorts := if m.numberOfPorts > 1 then m.numberOfPorts else 1))
  {
    var protocol := m.protocol + FormatsText(m.formats);
    PortsStart(m.numberOfPorts, protocol);
    ParsePrintedType(m.mediaType, m.port, PortsText(m.numberOfPorts) + (" " + protocol));
    ParsePrintedPorts(m.mediaType, m.port, m.numberOfPorts, protocol);
    ParsePrintedProtocol(m.mediaType, m.port, if m.numberOfPorts > 1 then m.numberOfPorts else 1, m.protocol, m.formats);
  }

  lemma BodyComesBack(m: Media, r: Result<Media>)
    requires r.Ok? && (' ' in m.mediaType || ' ' in m.protocol) ==> ' ' !in r.value.mediaType && ' ' !in r.value.protocol
    requires ' ' !in m.mediaType && ' ' !in m.protocol ==>
               if m.protocol == "" && m.formats == [] then r.Err?
               else r == Ok(m.(numberOfPorts := if m.numberOfPorts > 1 then m.numberOfPorts else 1))
    ensures r == Ok(m) <==> Printable(m)
  {
  }

  lemma ParseAfterPrefix(body: string)
    ensures ParseMedia("m=" + body) == ParseType(body)
  {
    SkipPrefix("m=", body);
  }

  /** Parsing a printed media line gives the media back exactly when it is printable. */
  lemma MediaRoundTrip(m: Media)
    requires WellTyped(m)
    ensures ParseMedia(MediaLine(m)) == Ok(m) <==> Printable(m)
  {
    ParseAfterPrefix(BodyText(m));
    TypeHasNoSpace(BodyText(m));
    if ' ' !in m.mediaType && ' ' !in m.protocol {
      ParsePrintedBody(m);
    }
    BodyComesBack(m, ParseType(BodyText(m)));
  }

  lemma PortsStart(n: nat, rest: string)
    ensures var s := PortsText(n) + (" " + rest); s != "" && !IsDigit(s[0])
  {
  }

  // ----- lines as others write them -----

  /** A line with any spaces before its numbers, with or without a number of ports, with or without a
      space before the protocol, and with anything but a digit after each payload type. */
  datatype Written = Written(
    mediaType: string,
    indent: nat,
    port: nat,
    ports: Option<(nat, nat)>,
    spaced: bool,
    protocol: string,
    formats: seq<(nat, string)>)

  function WrittenFormats(fs: seq<(nat, string)>): string {
    if fs == [] then "" else " " + (Decimal(fs[0].0) + (fs[0].1 + WrittenFormats(fs[1..])))
  }

  function WrittenPorts(ports: Option<(nat, nat)>): string {
    if ports.Some? then "/" + (Spaces(ports.value.0) + Decimal(ports.value.1)) else ""
  }

  function ProtocolText(w: Written): string {
    (if w.spaced then " " else "") + (w.protocol + WrittenFormats(w.formats))
  }

  function WrittenLine(w: Written): string {
    "m=" + (w.mediaType + " " + (Spaces(w.indent) + (Decimal(w.port) + (WrittenPorts(w.ports) + ProtocolText(w)))))
  }

  predicate FormatOk(f: (nat, string)) {
    ' ' !in f.1 && (f.1 == "" || !IsDigit(f.1[0]))
  }

  predicate WrittenOk(w: Written) {
    && ' ' !in w.mediaType && ' ' !in w.protocol
    && w.indent <= 100_000 && (w.ports.Some? ==> w.ports.value.0 <= 100_000)
    && (!w.spaced ==> w.protocol != "" && !IsDigit(w.protocol[0]) && (w.ports.None? ==> w.protocol[0] != '/'))
    && forall i :: 0 <= i < |w.formats| ==> FormatOk(w.formats[i])
  }

  function Numbers(fs: seq<(nat, string)>): (r: seq<nat>)
    ensures |r| == |fs| && forall i :: 0 <= i < |fs| ==> r[i] == fs[i].0
  {
    seq(|fs|, i requires 0 <= i < |fs| => fs[i].0)
  }

  /** What such a line means, or the message of the first step that fails. */
  function LineMeaning(w: Written): Result<Media> {
    if w.port > 65535 then Err("media: failed to parse port as integer")
    else if w.ports.Some? && w.ports.value.1 > 65535 then Err("media: failed to parse number of ports as integer")
    else if w.protocol == "" && w.formats == [] then Err("media: failed to parse protocol")
    else if !Small(Numbers(w.formats)) then Err("media: format integer parsing failed")
    else Ok(Media(w.mediaType, w.port, if w.ports.Some? then w.ports.value.1 else 1, w.protocol, Numbers(w.formats)))
  }

  lemma {:induction false} FormatsAreRead(fs: seq<(nat, string)>)
    requires fs != [] && forall i :: 0 <= i < |fs| ==> FormatOk(fs[i])
    ensures WrittenFormats(fs) != "" && WrittenFormats(fs)[0] == ' '
    ensures ParseFormats(WrittenFormats(fs)[1..]) ==
      if Small(Numbers(fs)) then Ok(Numbers(fs)) else Err("media: format integer parsing failed")
  {
    hide Decimal, ParseFormats, FromChars, Split;
    var (n, junk) := fs[0];
    var (t, rest) := (Decimal(n) + junk, WrittenFormats(fs[1..]));
    assert WrittenFormats(fs) == " " + (t + rest) by {
      AppendAssociates(Decimal(n), junk, rest);
    }
    assert WrittenFormats(fs)[1..] == t + rest;
    NoSpaceInDecimal(n);
    ReadIntSkipsSpaces(0, n, junk, MAX_UINT8);
    NumbersCons(fs);
    if |fs| > 1 {
      FormatsAreRead(fs[1..]);
      AfterSpace(t, rest);
      ReadUntilAfter(t, " ", rest[1..]);
      NextFormat(t + rest, t, rest[1..]);
    } else {
      assert t + rest == t;
      ReadUntilNowhere(t, " ");
      NextFormat(t, t, "");
      NoFormats();
    }
  }

  lemma NumbersCons(fs: seq<(nat, string)>)
    requires fs != []
    ensures Numbers(fs) == [fs[0].0] + Numbers(fs[1..])
    ensures Small(Numbers(fs)) <==> fs[0].0 <= MAX_UINT8 && Small(Numbers(fs[1..]))
  {
    var (a, b) := (Numbers(fs), Numbers(fs[1..]));
    assert forall i :: 0 < i < |a| ==> a[i] == b[i - 1];
    assert forall i :: 0 <= i < |b| ==> b[i] == a[i + 1];
  }

  lemma NextFormat(s: string, t: string, rest: string)
    requires s != "" && Split(s, " ") == (Some(t), rest)
    ensures ParseFormats(s) == match FromChars(t, MAX_UINT8)
      case None => Err("media: format integer parsing failed")
      case Some((v, _)) => PrependFormats([v], ParseFormats(rest))
  {
  }

  lemma ProtocolIsRead(w: Written, n: nat)
    requires WrittenOk(w)
    ensures ParseProtocol(w.mediaType, w.port, n, ProtocolText(w)) ==
      if w.protocol == "" && w.formats == [] then Err("media: failed to parse protocol")
      else if !Small(Numbers(w.formats)) then Err("media: format integer parsing failed")
      else Ok(Media(w.mediaType, w.port, n, w.protocol, Numbers(w.formats)))
  {
    hide WrittenFormats, ParseFormats, Split;
    var s := w.protocol + WrittenFormats(w.formats);
    if w.spaced {
      SkipPrefix(" ", s);
    } else {
      assert "" + s == s;
      assert Skip(s, " ") == (false, s) by {
        assert s[0] == w.protocol[0];
      }
    }
    if w.formats == [] {
      NothingWritten();
      NoFormats();
      assert w.protocol + "" == w.protocol;
      ReadUntilNowhere(w.protocol, " ");
    } else {
      FormatsAreRead(w.formats);
      AfterSpace(w.protocol, WrittenFormats(w.formats));
      ReadUntilAfter(w.protocol, " ", WrittenFormats(w.formats)[1..]);
    }
  }

  lemma NothingWritten()
    ensures WrittenFormats([]) == "" && Numbers([]) == []
  {
  }

  /** What follows the port starts with neither a digit nor, without a number of ports, a slash. */
  lemma ProtocolStarts(w: Written)
    requires WrittenOk(w) && (w.spaced || w.protocol != "")
    ensures var s := ProtocolText(w); s != "" && !IsDigit(s[0]) && (w.ports.None? ==> s[0] != '/')
  {
    hide WrittenFormats;
    if !w.spaced {
      assert ProtocolText(w)[0] == w.protocol[0];
    }
  }

  lemma PortsAreRead(w: Written)
    requires WrittenOk(w)
    ensures ParsePorts(w.mediaType, w.port, WrittenPorts(w.ports) + ProtocolText(w)) ==
      if w.ports.Some? && w.ports.value.1 > 65535 then Err("media: failed to parse number of ports as integer")
      else ParseProtocol(w.mediaType, w.port, if w.ports.Some? then w.ports.value.1 else 1, ProtocolText(w))
  {
    hide ParseProtocol, ReadInt, ProtocolText;
    var s := ProtocolText(w);
    ProtocolStarts(w);
    if w.ports.Some? {
      var (k, n) := w.ports.value;
      assert WrittenPorts(w.ports) + s == "/" + (Spaces(k) + (Decimal(n) + s));
      SkipPrefix("/", Spaces(k) + (Decimal(n) + s));
      ReadIntSkipsSpaces(k, n, s, MAX_UINT16);
    } else {
      assert "" + s == s;
      assert Skip(s, "/") == (false, s);
    }
  }

  /** A media line is read as it is meant, however it is spaced, or fails with the message of the first
      step that cannot be done. */
  lemma LineIsRead(w: Written)
    requires WrittenOk(w)
    ensures ParseMedia(WrittenLine(w)) == LineMeaning(w)
  {
    hide ParsePorts, ReadInt, WrittenPorts, ProtocolText, ParseProtocol;
    var s := WrittenPorts(w.ports) + ProtocolText(w);
    ParseAfterPrefix(w.mediaType + " " + (Spaces(w.indent) + (Decimal(w.port) + s)));
    ReadUntilAfter(w.mediaType, " ", Spaces(w.indent) + (Decimal(w.port) + s));
    AfterPort(w);
    ReadIntSkipsSpaces(w.indent, w.port, s, MAX_UINT16);
    PortsAreRead(w);
    ProtocolIsRead(w, if w.ports.Some? then w.ports.value.1 else 1);
  }

  lemma AfterPort(w: Written)
    requires WrittenOk(w)
    ensures var s := WrittenPorts(w.ports) + ProtocolText(w); s != "" && !IsDigit(s[0])
  {
    hide ProtocolText;
    ProtocolStarts(w);
    if w.ports.Some? {
      assert (WrittenPorts(w.ports) + ProtocolText(w))[0] == '/';
    }
  }

  /** The lines that fail before a number is read, and those with something else where a number should
      be. */
  lemma LineFails(line: string, mediaType: string, k: nat, port: nat, rest: string)
    requires ' ' !in mediaType && k <= 100_000 && port <= 65535
    requires rest == "" || (!IsDigit(rest[0]) && rest[0] != ' ')
    ensures !("m=" <= line) ==> ParseMedia(line) == Err("media: expecting 'm='")
    ensures ParseMedia("m=") == Err("media: failed to parse media type")
    ensures mediaType != "" ==> ParseMedia("m=" + mediaType) == Err("media: failed to parse port as integer")
    ensures ParseMedia("m=" + (mediaType + " " + (Spaces(k) + rest))) == Err("media: failed to parse port as integer")
    ensures ParseMedia("m=" + (mediaType + " " + (Decimal(port) + ("/" + (Spaces(k) + rest))))) ==
            Err("media: failed to parse number of ports as integer")
    ensures ParseMedia("m=" + (mediaType + " " + Decimal(port))) == Err("media: failed to parse protocol")
  {
    hide ReadInt;
    NoNumber();
    ReadIntSkipsSpaces(k, 0, rest, MAX_UINT16);
    ParseAfterPrefix("");
    assert "m=" + "" == "m=";
    ParseAfterPrefix(mediaType);
    ReadUntilNowhere(mediaType, " ");
    ParseAfterPrefix(mediaType + " " + (Spaces(k) + rest));
    ReadUntilAfter(mediaType, " ", Spaces(k) + rest);
    var r := "/" + (Spaces(k) + rest);
    ParseAfterPrefix(mediaType + " " + (Decimal(port) + r));
    ReadUntilAfter(mediaType, " ", Decimal(port) + r);
    ReadDecimal(port, r, MAX_UINT16);
    SkipPrefix("/", Spaces(k) + rest);
    ParseAfterPrefix(mediaType + " " + Decimal(port));
    ReadUntilAfter(mediaType, " ", Decimal(port));
    ReadDecimal(port, "", MAX_UINT16);
    assert Decimal(port) + "" == Decimal(port);
  }

  lemma NoNumber()
    ensures ReadInt("", MAX_UINT16) == (None, "")
  {
  }

  // ----- the functions of the source -----

  method PrintMediaLine(m: Media) returns (result: string)
    ensures result == MediaLine(m)
  {
    result := "m=" + m.mediaType + " " + Decimal(m.port);
    ghost var front := result;
    if m.numberOfPorts > 1 {
      result := result + ("/" + Decimal(m.numberOfPorts));
    }
    assert result == front + PortsText(m.numberOfPorts);
    result := result + (" " + m.protocol);
    ghost var line := result + FormatsText(m.formats);
    for i := 0 to |m.formats|
      invariant result + FormatsText(m.formats[i..]) == line
    {
      assert m.formats[i..][1..] == m.formats[i + 1..];
      AppendAssociates(result, " " + Decimal(m.formats[i]), FormatsText(m.formats[i + 1..]));
      result := result + (" " + Decimal(m.formats[i]));
    }
    assert result + "" == result;
    Regroup(m.mediaType, Decimal(m.port), PortsText(m.numberOfPorts), m.protocol, FormatsText(m.formats));
  }

  lemma Regroup(t: string, p: string, n: string, protocol: string, formats: string)
    ensures "m=" + t + " " + p + n + (" " + protocol) + formats ==
            "m=" + (t + " " + (p + (n + (" " + (protocol + formats)))))
  {
  }

  method ParseMediaDescription(line: string) returns (r: Result<Media>)
    ensures r == ParseMedia(line)
  {
    var parser := new Parser(line);
    var m := parser.Skip("m=");
    if !m {
      return Err("media: expecting 'm='");
    }
    var mediaType := parser.Split(" ");
    if mediaType.None? {
      return Err("media: failed to parse media type");
    }
    var port := parser.ReadInt(MAX_UINT16);
    if port.None? {
      return Err("media: failed to parse port as integer");
    }
    var numberOfPorts := 1;
    var slash := parser.Skip("/");
    if slash {
      var n := parser.ReadInt(MAX_UINT16);
      if n.None? {
        return Err("media: failed to parse number of ports as integer");
      }
      numberOfPorts := n.value;
    }
    var _ := parser.Skip(" ");
    var protocol := parser.Split(" ");
    if protocol.None? {
      return Err("media: failed to parse protocol");
    }
    var formats := ParseFormatList(parser);
    if formats.Err? {
      return Err(formats.error);
    }
    r := Ok(Media(mediaType.value, port.value, numberOfPorts, protocol.value, formats.value));
  }

  method ParseFormatList(parser: Parser) returns (r: Result<seq<nat>>)
    modifies parser
    ensures r == ParseFormats(old(parser.str))
  {
    var formats := [];
    ExtendStart(parser.str);
    var formatStr := parser.Split(" ");
    while formatStr.Some?
      invariant formatStr.None? ==> parser.str == []
      invariant ParseFormats(old(parser.str)) == Extend(formats, formatStr, parser.str)
      decreases |parser.str|, formatStr.Some?
    {
      var value := FromChars(formatStr.value, MAX_UINT8);
      if value.None? {
        return Err("media: format integer parsing failed");
      }
      ExtendStep(formats, formatStr, value.value.0, parser.str);
      formats := formats + [value.value.0];
      formatStr := parser.Split(" ");
    }
    r := Ok(formats);
  }

  /** The formats read so far, then the one about to be read, then the rest of the text. */
  function Extend(formats: seq<nat>, next: Option<string>, rest: string): Result<seq<nat>> {
    match next
    case None => Ok(formats)
    case Some(t) =>
      match FromChars(t, MAX_UINT8)
      case None => Err("media: format integer parsing failed")
      case Some((v, _)) => PrependFormats(formats + [v], ParseFormats(rest))
  }

  function PrependFormats(formats: seq<nat>, r: Result<seq<nat>>): Result<seq<nat>> {
    match r
    case Ok(more) => Ok(formats + more)
    case Err(_) => r
  }

  lemma ExtendStart(s: string)
    ensures ParseFormats(s) == Extend([], Split(s, " ").0, Split(s, " ").1)
  {
    if s != [] {
      var w := FromChars(Split(s, " ").0.value, MAX_UINT8);
      if w.Some? {
        assert [] + [w.value.0] == [w.value.0];
      }
    }
  }

  lemma ExtendStep(formats: seq<nat>, next: Option<string>, v: nat, rest: string)
    requires next.Some? && FromChars(next.value, MAX_UINT8).Some? && FromChars(next.value, MAX_UINT8).value.0 == v
    ensures Extend(formats, next, rest) == Extend(formats + [v], Split(rest, " ").0, Split(rest, " ").1)
    ensures rest != [] ==> |Split(rest, " ").1| < |rest|
  {
    if rest == [] {
      assert formats + [v] + [] == formats + [v];
    } else {
      SplitShrinks(rest);
      var (t, rest2) := Split(rest, " ");
      var w := FromChars(t.value, MAX_UINT8);
      if w.Some? {
        PrependTwice(formats + [v], w.value.0, ParseFormats(rest2));
      }
    }
  }

  lemma PrependTwice(formats: seq<nat>, w: nat, r: Result<seq<nat>>)
    ensures PrependFormats(formats, PrependFormats([w], r)) == PrependFormats(formats + [w], r)
  {
    if r.Ok? {
      assert formats + ([w] + r.value) == formats + [w] + r.value;
    }
  }
}
