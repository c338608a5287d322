/** Searching and reading texts: what the methods of the string parser return and leave, as functions
    of the text they start from. */
module Texts {
  import opened Wrappers

  /** Texts of the source are sequences of bytes; a byte is a `char` below 256. */
  predicate IsBytes(s: string) {
    forall i :: 0 <= i < |s| ==> s[i] as int < 256
  }

  const MAX_LEADING_SPACES := 100_000

  // ----- searching -----

  /** The position of the first occurrence of `d` in `s`. */
  function Find(s: string, d: string): Option<nat>
    decreases |s|
  {
    if d <= s then Some(0)
    else if s == [] then None
    else match Find(s[1..], d) case Some(i) => Some(i + 1) case None => None
  }

  /** What `Find` answers: a place where `d` occurs, before which it occurs nowhere. */
  lemma {:induction false} FindIsFirst(s: string, d: string)
    ensures var r := Find(s, d);
            match r
            case Some(i) => i + |d| <= |s| && d == s[i..i + |d|] && forall k :: 0 <= k < i ==> !(d <= s[k..])
            case None => forall k :: 0 <= k <= |s| ==> !(d <= s[k..])
    decreases |s|
  {
    assert s[0..] == s;
    if d <= s {
      assert s[0..0 + |d|] == d;
    } else if s != [] {
      var t := s[1..];
      FindIsFirst(t, d);
      var r := Find(t, d);
      if r.Some? {
        assert s[r.value + 1..r.value + 1 + |d|] == t[r.value..r.value + |d|];
      }
      forall k | 0 <= k < if r.Some? then r.value + 1 else |s| + 1
        ensures !(d <= s[k..])
      {
        if k > 0 {
          assert s[k..] == t[k - 1..];
        }
      }
    }
  }

  /** The first occurrence after a text that does not contain the first byte of the delimiter. */
  lemma {:induction false} FindAfter(t: string, d: string, rest: string)
    requires d != [] && d[0] !in t
    ensures Find(t + d + rest, d) == Some(|t|)
    decreases |t|
  {
    var s := t + d + rest;
    if t == [] {
      assert s == d + rest;
    } else {
      assert s[0] == t[0];
      assert s[1..] == t[1..] + d + rest;
      FindAfter(t[1..], d, rest);
    }
  }

  lemma {:induction false} FindNowhere(t: string, d: string)
    requires d != [] && d[0] !in t
    ensures Find(t, d) == None
    decreases |t|
  {
    if t != [] {
      FindNowhere(t[1..], d);
    }
  }

  // ----- what the parser reads: the text read, and the text left -----

  function ReadUntil(s: string, d: string, withDelimiter: bool := false): (r: (Option<string>, string))
    ensures |r.1| <= |s|
    ensures r.0.Some? && d != [] ==> |r.1| < |s|
  {
    FindIsFirst(s, d);
    if s == [] then (None, s)
    else match Find(s, d)
      case None => (None, s)
      case Some(i) => (Some(s[..if withDelimiter then i + |d| else i]), s[i + |d|..])
  }

  function Split(s: string, d: string, withDelimiter: bool := false): (r: (Option<string>, string))
    ensures |r.1| <= |s|
    ensures r.0.None? <==> s == []
  {
    FindIsFirst(s, d);
    if s == [] then (None, s)
    else match Find(s, d)
      case None => (Some(s), [])
      case Some(i) => (Some(s[..if withDelimiter then i + |d| else i]), s[i + |d|..])
  }

  function ReadUntilEnd(s: string): (Option<string>, string) {
    if s == [] then (None, s) else (Some(s), [])
  }

  function Skip(s: string, d: string): (bool, string) {
    if d <= s then (true, s[|d|..]) else (false, s)
  }

  /** A line without the carriage return that may end it. */
  function Unwrapped(line: string): string {
    if line != [] && line[|line| - 1] == '\r' then line[..|line| - 1] else line
  }

  /** Reads up to a newline; without one nothing is read. */
  function ReadUntilNewline(s: string): (r: (Option<string>, string)) {
    FindIsFirst(s, "\n");
    var pos := Find(s, "\n");
    if s == [] || pos.None? then (None, s) else (Some(Unwrapped(s[..pos.value])), s[pos.value + 1..])
  }

  /** Reads up to a newline or the end. */
  function ReadLine(s: string): (r: (Option<string>, string)) {
    if ReadUntilNewline(s).0.Some? then ReadUntilNewline(s) else if s == [] then (None, s) else (Some(s), [])
  }

  /** The length of the longest front of `s` that is made of `c`, but not more than `count`. */
  function Run(s: string, c: char, count: nat): (n: nat)
    ensures n <= |s| && n <= count
  {
    if s == [] || count == 0 || s[0] != c then 0 else 1 + Run(s[1..], c, count - 1)
  }

  predicate IsDigit(c: char) {
    '0' <= c <= '9'
  }

  function Digits(s: string): (n: nat)
    ensures n <= |s|
    ensures forall i :: 0 <= i < n ==> IsDigit(s[i])
    ensures n < |s| ==> !IsDigit(s[n])
  {
    if s == [] || !IsDigit(s[0]) then 0 else 1 + Digits(s[1..])
  }

  function Value(s: string): nat
    requires forall c :: c in s ==> IsDigit(c)
  {
    if s == [] then 0
    else assert IsDigit(s[|s| - 1]); 10 * Value(s[..|s| - 1]) + (s[|s| - 1] as int - '0' as int)
  }

  /** An unsigned decimal number of at most `max` from the front of the text. */
  function FromChars(s: string, max: nat): (r: Option<(nat, nat)>)
    ensures r.Some? ==> r.value.0 <= max && 0 < r.value.1 <= |s|
  {
    var n := Digits(s);
    if n == 0 || Value(s[..n]) > max then None else Some((Value(s[..n]), n))
  }

  function ReadInt(s: string, max: nat): (r: (Option<nat>, string))
    ensures r.0.Some? ==> r.0.value <= max
  {
    var t := s[Run(s, ' ', MAX_LEADING_SPACES)..];
    match FromChars(t, max)
    case None => (None, t)
    case Some((v, n)) => (Some(v), t[n..])
  }

  // ----- printed numbers -----

  function Digit(n: nat): char
    requires n < 10
  {
    ('0' as int + n) as char
  }

  function Decimal(n: nat): (s: string)
    ensures s != [] && forall c :: c in s ==> IsDigit(c)
  {
    if n < 10 then [Digit(n)] else Decimal(n / 10) + [Digit(n % 10)]
  }

  lemma {:induction false} ValueOfDecimal(n: nat)
    ensures Value(Decimal(n)) == n
  {
    if n >= 10 {
      ValueOfDecimal(n / 10);
      assert Decimal(n)[..|Decimal(n)| - 1] == Decimal(n / 10);
    }
  }

  /** Neither a leading zero nor a missing digit. */
  lemma {:induction false} DecimalStarts(n: nat)
    ensures (Decimal(n)[0] == '0' <==> n == 0) && (|Decimal(n)| == 1 <==> n < 10)
  {
    if n >= 10 {
      DecimalStarts(n / 10);
    }
  }

  lemma {:induction false} DigitsAre(t: string, rest: string)
    requires forall c :: c in t ==> IsDigit(c)
    requires rest == [] || !IsDigit(rest[0])
    ensures Digits(t + rest) == |t|
    decreases |t|
  {
    if t == [] {
      assert t + rest == rest;
    } else {
      assert (t + rest)[1..] == t[1..] + rest;
      DigitsAre(t[1..], rest);
    }
  }

  /** A printed number is read back, and nothing after it is touched. */
  lemma ReadDecimal(n: nat, rest: string, max: nat)
    requires n <= max && (rest == [] || !IsDigit(rest[0]))
    ensures ReadInt(Decimal(n) + rest, max) == (Some(n), rest)
    ensures FromChars(Decimal(n) + rest, max) == Some((n, |Decimal(n)|))
  {
    var s := Decimal(n) + rest;
    DigitsAre(Decimal(n), rest);
    ValueOfDecimal(n);
    assert s[..|Decimal(n)|] == Decimal(n);
    assert IsDigit(s[0]);
    assert s[0..] == s;
    assert s[|Decimal(n)|..] == rest;
  }

  // ----- what the reads mean -----

  /** What is read, the delimiter and what is left make up the text, and the text read is as short
      as possible. */
  lemma ReadUntilPartitions(s: string, d: string)
    requires d != []
    ensures match ReadUntil(s, d)
            case (Some(t), rest) => s == t + d + rest && forall k :: 0 <= k < |t| ==> !(d <= s[k..])
            case (None, rest) => rest == s && forall k :: 0 <= k <= |s| ==> !(d <= s[k..])
    ensures match Split(s, d)
            case (Some(t), rest) => ReadUntil(s, d) == (Some(t), rest) || (ReadUntil(s, d).0.None? && t == s && rest == [])
            case (None, rest) => s == rest == []
  {
    FindIsFirst(s, d);
    if s == [] {
      assert s[0..] == s;
    }
  }

  lemma ReadUntilAfter(t: string, d: string, rest: string)
    requires d != [] && d[0] !in t
    ensures ReadUntil(t + d + rest, d) == (Some(t), rest)
    ensures Split(t + d + rest, d) == (Some(t), rest)
  {
    FindAfter(t, d, rest);
    var s := t + d + rest;
    assert s[..|t|] == t && s[|t| + |d|..] == rest;
  }

  lemma ReadUntilNowhere(t: string, d: string)
    requires d != [] && d[0] !in t
    ensures ReadUntil(t, d) == (None, t)
    ensures t != [] ==> Split(t, d) == (Some(t), [])
  {
    FindNowhere(t, d);
  }

  lemma AppendAssociates(a: string, b: string, c: string)
    ensures a + (b + c) == a + b + c
  {
  }

  /** The same with the delimiter included. */
  lemma ReadWithDelimiter(t: string, d: string, rest: string)
    requires d != [] && d[0] !in t
    ensures ReadUntil(t + d + rest, d, true) == (Some(t + d), rest)
    ensures Split(t + d + rest, d, true) == (Some(t + d), rest)
  {
    FindAfter(t, d, rest);
    var s := t + d + rest;
    assert s[..|t| + |d|] == t + d && s[|t| + |d|..] == rest;
  }

  // ----- lines -----

  /** A line ends in LF or in CR and LF; a line that ends in LF alone does not end in CR. */
  predicate IsLine(line: string, crlf: bool) {
    '\n' !in line && (crlf || line == "" || line[|line| - 1] != '\r')
  }

  function LineEnd(crlf: bool): string {
    if crlf then "\r\n" else "\n"
  }

  /** A line is read without its end, and what follows is left, whichever of the two ends it has. */
  lemma LineIsRead(line: string, crlf: bool, rest: string)
    requires IsLine(line, crlf)
    ensures ReadUntilNewline(line + LineEnd(crlf) + rest) == (Some(line), rest)
    ensures ReadLine(line + LineEnd(crlf) + rest) == (Some(line), rest)
  {
    var raw := if crlf then line + "\r" else line;
    var s := raw + "\n" + rest;
    assert line + LineEnd(crlf) + rest == s;
    FindAfter(raw, "\n", rest);
    assert s[..|raw|] == raw && s[|raw| + 1..] == rest;
    assert (line + "\r")[..|line|] == line;
  }

  /** Without a newline there is no line yet; at the end of a text what is left counts as one, a carriage
      return included. */
  lemma NoLineYet(s: string)
    requires '\n' !in s
    ensures ReadUntilNewline(s) == (None, s)
    ensures ReadLine(s) == if s == "" then (None, "") else (Some(s), "")
  {
    FindNowhere(s, "\n");
  }

  // ----- spaces and numbers -----

  function Spaces(n: nat): (s: string)
    ensures |s| == n && forall i :: 0 <= i < n ==> s[i] == ' '
  {
    seq(n, _ => ' ')
  }

  /** A run is made of the byte, and it ends at the limit, at the end of the text or at another byte. */
  lemma {:induction false} RunIsLongest(s: string, c: char, count: nat)
    ensures var n := Run(s, c, count);
      (forall i :: 0 <= i < n ==> s[i] == c) && (n == count || n == |s| || s[n] != c)
    decreases |s|
  {
    if s != [] && count != 0 && s[0] == c {
      RunIsLongest(s[1..], c, count - 1);
      forall i | 0 <= i < Run(s, c, count)
        ensures s[i] == c
      {
        if i > 0 {
          assert s[i] == s[1..][i - 1];
        }
      }
    }
  }

  lemma RunOfSpaces(k: nat, t: string)
    requires k <= MAX_LEADING_SPACES && (t == "" || t[0] != ' ')
    ensures Run(Spaces(k) + t, ' ', MAX_LEADING_SPACES) == k
  {
    var s := Spaces(k) + t;
    RunIsLongest(s, ' ', MAX_LEADING_SPACES);
    assert t != "" ==> s[k] == t[0];
  }

  /** Up to 100000 spaces before a number are skipped. Then a number within the limit is read; one beyond
      it is left, and so is a text without a number. */
  lemma ReadIntSkipsSpaces(k: nat, n: nat, rest: string, max: nat)
    requires k <= 100_000 && (rest == "" || !IsDigit(rest[0]))
    ensures ReadInt(Spaces(k) + (Decimal(n) + rest), max) == if n <= max then (Some(n), rest) else (None, Decimal(n) + rest)
    ensures (rest == "" || rest[0] != ' ') ==> ReadInt(Spaces(k) + rest, max) == (None, rest)
    ensures FromChars(Decimal(n) + rest, max) == (if n <= max then Some((n, |Decimal(n)|)) else None) && FromChars(rest, max) == None
  {
    var t := Decimal(n) + rest;
    assert IsDigit(t[0]);
    RunOfSpaces(k, t);
    assert (Spaces(k) + t)[k..] == t;
    DigitsAre(Decimal(n), rest);
    ValueOfDecimal(n);
    assert t[..|Decimal(n)|] == Decimal(n) && t[|Decimal(n)|..] == rest;
    if rest == "" || rest[0] != ' ' {
      RunOfSpaces(k, rest);
      assert (Spaces(k) + rest)[k..] == rest;
    }
  }
}
