/** Percent-encoding and decoding (sections 2.1 and 2.3 of RFC 3986). */
module Percent {
  import opened Wrappers
  import opened Texts

  predicate IsAlnum(c: char) {
    '0' <= c <= '9' || 'A' <= c <= 'Z' || 'a' <= c <= 'z'
  }

  /** The bytes that are copied as they are. */
  predicate IsPlain(c: char, encodeSlash: bool) {
    IsAlnum(c) || c in "-_.~" || (!encodeSlash && c == '/')
  }

  function HexDigit(n: nat): char
    requires n < 16
  {
    if n < 10 then ('0' as int + n) as char else ('A' as int + (n - 10)) as char
  }

  function EncodeByte(c: char, encodePlus: bool, encodeSlash: bool): string {
    if IsPlain(c, encodeSlash) then [c]
    else if encodePlus && c == ' ' then ['+']
    else ['%', HexDigit(c as int / 16 % 16), HexDigit(c as int % 16)]
  }

  function Encode(s: string, encodePlus: bool := false, encodeSlash: bool := false): string {
    if s == [] then [] else EncodeByte(s[0], encodePlus, encodeSlash) + Encode(s[1..], encodePlus, encodeSlash)
  }

  function HexValue(c: char): Option<nat> {
    if '0' <= c <= '9' then Some(c as int - '0' as int)
    else if 'A' <= c <= 'F' then Some(c as int - 'A' as int + 10)
    else if 'a' <= c <= 'f' then Some(c as int - 'a' as int + 10)
    else None
  }

  predicate IsSpace(c: char) {
    c == ' ' || 9 <= c as int <= 13
  }

  /** What `std::stoi(.., 16)` makes of two bytes, cast to a byte: leading space and a sign are
      accepted, it stops at the first byte that is no hexadecimal digit, and throws when there was
      no digit at all. */
  function HexPair(a: char, b: char): Result<char> {
    match (HexValue(a), HexValue(b))
    case (Some(x), Some(y)) => Ok((16 * x + y) as char)
    case (Some(x), None) => Ok(x as char)
    case (None, Some(y)) =>
      if IsSpace(a) || a == '+' then Ok(y as char)
      else if a == '-' then Ok(((256 - y) % 256) as char)
      else Err("stoi")
    case (None, None) => Err("stoi")
  }

  function Prepend(c: char, r: Result<string>): Result<string> {
    match r
    case Ok(s) => Ok([c] + s)
    case Err(_) => r
  }

  function Decode(s: string, decodePlus: bool := false): Result<string> {
    if s == [] then Ok([])
    else if s[0] == '%' && 2 < |s| then
      var c :- HexPair(s[1], s[2]);
      Prepend(c, Decode(s[3..], decodePlus))
    else Prepend(if decodePlus && s[0] == '+' then ' ' else s[0], Decode(s[1..], decodePlus))
  }

  // ----- the laws -----

  lemma HexPairOfDigits(n: nat)
    requires n < 256
    ensures HexPair(HexDigit(n / 16 % 16), HexDigit(n % 16)) == Ok(n as char)
  {
    HexValueOfDigit(n / 16);
    HexValueOfDigit(n % 16);
  }

  lemma HexValueOfDigit(n: nat)
    requires n < 16
    ensures HexValue(HexDigit(n)) == Some(n)
  {
  }

  /** Decoding takes off what encoding put on one byte. */
  lemma DecodeEncodedByte(c: char, rest: string, plus: bool, slash: bool)
    requires c as int < 256
    ensures Decode(EncodeByte(c, plus, slash) + rest, plus) == Prepend(c, Decode(rest, plus))
  {
    var e := EncodeByte(c, plus, slash);
    if |e| == 1 {
      assert (e + rest)[1..] == rest;
    } else {
      HexPairOfDigits(c as int);
      DecodeTriple(e[1], e[2], rest, plus);
      assert e == ['%', e[1], e[2]];
    }
  }

  lemma DecodeTriple(a: char, b: char, rest: string, plus: bool)
    requires HexPair(a, b).Ok?
    ensures Decode(['%', a, b] + rest, plus) == Prepend(HexPair(a, b).value, Decode(rest, plus))
  {
    var s := ['%', a, b] + rest;
    assert s[3..] == rest;
    assert s[0] == '%' && s[1] == a && s[2] == b;
  }

  /** Decoding an encoded text gives the text back, whatever bytes it is made of. */
  lemma {:induction false} DecodeEncode(s: string, plus: bool, slash: bool)
    requires IsBytes(s)
    ensures Decode(Encode(s, plus, slash), plus) == Ok(s)
  {
    if s != [] {
      DecodeEncode(s[1..], plus, slash);
      DecodeEncodedByte(s[0], Encode(s[1..], plus, slash), plus, slash);
      assert [s[0]] + s[1..] == s;
    }
  }

  /** Which bytes an encoded text is made of: the delimiters of a URI are not among them. */
  predicate IsEncoded(c: char, plus: bool, slash: bool) {
    IsPlain(c, slash) || c == '%' || (plus && c == '+')
  }

  lemma {:induction false} EncodedBytes(s: string, plus: bool, slash: bool)
    ensures forall c :: c in Encode(s, plus, slash) ==> IsEncoded(c, plus, slash)
  {
    if s != [] {
      EncodedBytes(s[1..], plus, slash);
      assert forall c :: c in EncodeByte(s[0], plus, slash) ==> IsEncoded(c, plus, slash);
    }
  }

  lemma NoDelimiters(s: string, plus: bool, slash: bool)
    ensures forall c :: c in Encode(s, plus, slash) ==> c !in ":@?#&="
    ensures slash ==> '/' !in Encode(s, plus, slash)
  {
    EncodedBytes(s, plus, slash);
  }

  lemma {:induction false} EncodeAppend(s: string, t: string, plus: bool, slash: bool)
    ensures Encode(s + t, plus, slash) == Encode(s, plus, slash) + Encode(t, plus, slash)
  {
    if s == [] {
      assert s + t == t;
    } else {
      assert s == [s[0]] + s[1..] && s + t == [s[0]] + (s[1..] + t);
      EncodeCons(s[0], s[1..], plus, slash);
      EncodeCons(s[0], s[1..] + t, plus, slash);
      EncodeAppend(s[1..], t, plus, slash);
      AppendAssociates(EncodeByte(s[0], plus, slash), Encode(s[1..], plus, slash), Encode(t, plus, slash));
    }
  }

  lemma EncodeCons(c: char, s: string, plus: bool, slash: bool)
    ensures Encode([c] + s, plus, slash) == EncodeByte(c, plus, slash) + Encode(s, plus, slash)
  {
    assert ([c] + s)[1..] == s;
  }

  /** An encoded text has a slash exactly where the text has one and slashes are not encoded. */
  lemma {:induction false} EncodedSlash(s: string)
    ensures '/' in Encode(s) <==> '/' in s
    ensures Encode(s) == [] <==> s == []
  {
    if s != [] {
      EncodedSlash(s[1..]);
    }
  }

  // ----- the digits of an escape -----

  const UPPER_DIGITS := "0123456789ABCDEF"
  const LOWER_DIGITS := "0123456789abcdef"

  /** The digits of the second parameter have their place as value, in either case. */
  lemma DigitsHavePlaces(n: nat, digits: string)
    requires n < 16 && (digits == UPPER_DIGITS || digits == LOWER_DIGITS)
    ensures HexValue(digits[n]) == Some(n)
  {
  }

  /** Nothing else is a digit. */
  lemma DigitHasPlace(c: char)
    requires HexValue(c).Some?
    ensures HexValue(c).value < 16 && (c == UPPER_DIGITS[HexValue(c).value] || c == LOWER_DIGITS[HexValue(c).value])
  {
  }

  /** An escape stands for the byte that its two digits name, whatever the case of each. */
  lemma EscapeIsByte(n: nat, high: string, low: string, rest: string, plus: bool)
    requires n < 256 && (high == UPPER_DIGITS || high == LOWER_DIGITS) && (low == UPPER_DIGITS || low == LOWER_DIGITS)
    ensures Decode(['%', high[n / 16], low[n % 16]] + rest, plus) == Prepend(n as char, Decode(rest, plus))
  {
    DigitsHavePlaces(n / 16, high);
    DigitsHavePlaces(n % 16, low);
    assert 16 * (n / 16) + n % 16 == n;
    DecodeTriple(high[n / 16], low[n % 16], rest, plus);
  }

  /** The same byte, or the same letter from A to F in the other case. */
  predicate SameDigit(a: char, b: char) {
    a == b || ('A' <= a <= 'F' && b as int == a as int + 32) || ('a' <= a <= 'f' && b as int == a as int - 32)
  }

  /** Texts that differ at most in the case of the digits of their escapes. */
  predicate SameEscapes(s: string, t: string)
    decreases |s|
  {
    |s| == |t| &&
    if s == [] then true
    else if s[0] == '%' && 2 < |s| then
      t[0] == '%' && SameDigit(s[1], t[1]) && SameDigit(s[2], t[2]) && SameEscapes(s[3..], t[3..])
    else s[0] == t[0] && SameEscapes(s[1..], t[1..])
  }

  lemma SamePair(a: char, b: char, c: char, d: char)
    requires SameDigit(a, c) && SameDigit(b, d)
    ensures HexPair(a, b) == HexPair(c, d)
  {
    SameValue(a, c);
    SameValue(b, d);
  }

  lemma SameValue(a: char, b: char)
    requires SameDigit(a, b)
    ensures HexValue(a) == HexValue(b) && (a == b || HexValue(a).Some?)
  {
  }

  /** Decoding does not depend on the case of the digits of the escapes (section 2.1 of RFC 3986). */
  lemma {:induction false} CaseDoesNotMatter(s: string, t: string, plus: bool)
    requires SameEscapes(s, t)
    ensures Decode(s, plus) == Decode(t, plus)
    decreases |s|
  {
    if s != [] {
      if s[0] == '%' && 2 < |s| {
        SamePair(s[1], s[2], t[1], t[2]);
        CaseDoesNotMatter(s[3..], t[3..], plus);
      } else {
        CaseDoesNotMatter(s[1..], t[1..], plus);
      }
    }
  }

  // ----- the alphabet -----

  const CAPITALS := "ABCDEFGHIJKLMNOPQRSTUVWXYZ"
  const SMALL_LETTERS := "abcdefghijklmnopqrstuvwxyz"
  const NUMERALS := "0123456789"

  /** Section 2.3 of RFC 3986. */
  predicate IsUnreserved(c: char) {
    c in CAPITALS || c in SMALL_LETTERS || c in NUMERALS || c == '-' || c == '.' || c == '_' || c == '~'
  }

  /** What encoding makes of one byte: unreserved bytes stay, a slash does if it
      is to, a space becomes a plus sign if it is to, and any other becomes an escape in upper case. */
  lemma EncodedByte(c: char, plus: bool, slash: bool)
    requires c as int < 256
    ensures Encode([c], plus, slash) ==
      if IsUnreserved(c) || (c == '/' && !slash) then [c]
      else if c == ' ' && plus then "+"
      else ['%', UPPER_DIGITS[c as int / 16], UPPER_DIGITS[c as int % 16]]
  {
    hide Encode, IsUnreserved;
    EncodeOne(c, plus, slash);
    UnreservedIs(c);
    UpperDigit(c as int / 16);
    UpperDigit(c as int % 16);
  }

  lemma EncodeOne(c: char, plus: bool, slash: bool)
    ensures Encode([c], plus, slash) == EncodeByte(c, plus, slash)
  {
    EncodeCons(c, [], plus, slash);
  }

  lemma UpperDigit(n: nat)
    requires n < 16
    ensures UPPER_DIGITS[n] == HexDigit(n)
  {
  }

  lemma UnreservedIs(c: char)
    ensures IsUnreserved(c) <==> IsPlain(c, true)
  {
    RunOfChars(CAPITALS, 'A', c);
    RunOfChars(SMALL_LETTERS, 'a', c);
    RunOfChars(NUMERALS, '0', c);
  }

  /** Consecutive characters from `first` on. */
  lemma RunOfChars(s: string, first: char, c: char)
    requires forall i :: 0 <= i < |s| ==> s[i] as int == first as int + i
    ensures c in s <==> first as int <= c as int < first as int + |s|
  {
    var i := c as int - first as int;
    if 0 <= i < |s| {
      assert s[i] == c;
    }
  }

  // ----- what is no escape -----

  /** Without a percent sign, or with one too near the end, a text stands for itself, but for plus signs. */
  lemma {:induction false} NoEscape(s: string, plus: bool)
    requires forall i :: 0 <= i < |s| - 2 ==> s[i] != '%'
    ensures Decode(s, plus).Ok? && |Decode(s, plus).value| == |s|
    ensures forall i :: 0 <= i < |s| ==> Decode(s, plus).value[i] == if plus && s[i] == '+' then ' ' else s[i]
  {
    if s != [] {
      var r := s[1..];
      assert forall i :: 0 <= i < |r| ==> r[i] == s[i + 1];
      NoEscape(r, plus);
      assert Decode(s, plus).value == [if plus && s[0] == '+' then ' ' else s[0]] + Decode(r, plus).value;
    }
  }

  /** `std::stoi(s, nullptr, 16)`: spaces, a sign, digits up to the first byte that is none; None where it
      throws. The prefix 0x of two bytes has no digit behind it, so its zero is the number. */
  function Stoi(s: string): Option<int> {
    if s != [] && s[0] as int in {9, 10, 11, 12, 13, 32} then Stoi(s[1..])
    else if s != [] && s[0] == '-' then Negative(Unsigned(s[1..], 0, false))
    else if s != [] && s[0] == '+' then Unsigned(s[1..], 0, false)
    else Unsigned(s, 0, false)
  }

  function Negative(n: Option<int>): Option<int> {
    if n.Some? then Some(-n.value) else None
  }

  /** The digits at the front of a text, after `n` has been read. */
  function Unsigned(s: string, n: int, any: bool): Option<int> {
    if s != [] && HexValue(s[0]).Some? then Unsigned(s[1..], 16 * n + HexValue(s[0]).value, true)
    else if any then Some(n)
    else None
  }

  /** What two bytes after a percent sign stand for, digits or not, is what the library function makes of
      them, cut to a byte; a failure is an exception. */
  lemma PairIsStoi(a: char, b: char)
    ensures HexPair(a, b) == match Stoi([a, b]) case Some(n) => Ok((n % 256) as char) case None => Err("stoi")
  {
    HexRange(a);
    HexRange(b);
    assert [a, b][1..] == [b] && [b][1..] == [];
    OneByte(b);
    if HexValue(a).Some? {
      assert Unsigned([a, b], 0, false) == Unsigned([b], HexValue(a).value, true);
    }
  }

  lemma OneByte(b: char)
    ensures forall n, any ::
      (Unsigned([b], n, any) == if HexValue(b).Some? then Some(16 * n + HexValue(b).value) else if any then Some(n) else None)
    ensures !IsSpace(b) && b != '-' && b != '+' ==> Stoi([b]) == Unsigned([b], 0, false)
    ensures IsSpace(b) || b == '-' || b == '+' ==> Stoi([b]) == None
  {
    HexRange(b);
    assert [b][1..] == [];
  }

  lemma HexRange(c: char)
    ensures HexValue(c).Some? ==> HexValue(c).value < 16 && !IsSpace(c) && c != '-' && c != '+'
  {
  }

  // ----- the functions of the source -----

  method EncodeText(str: string, encodePlus: bool, encodeSlash: bool) returns (output: string)
    ensures output == Encode(str, encodePlus, encodeSlash)
  {
    output := [];
    assert str[0..] == str;
    for i := 0 to |str|
      invariant Encode(str, encodePlus, encodeSlash) == output + Encode(str[i..], encodePlus, encodeSlash)
    {
      ghost var before := output;
      var chr := str[i];
      if IsPlain(chr, encodeSlash) {
        output := output + [chr];
      } else if encodePlus && chr == ' ' {
        output := output + ['+'];
      } else {
        output := output + ['%'];
        output := output + [HexDigit(chr as int / 16 % 16)];
        output := output + [HexDigit(chr as int % 16)];
      }
      assert output == before + EncodeByte(chr, encodePlus, encodeSlash);
      EncodeStep(before, str, i, encodePlus, encodeSlash);
    }
  }

  lemma EncodeStep(output: string, str: string, i: nat, plus: bool, slash: bool)
    requires i < |str|
    ensures output + Encode(str[i..], plus, slash)
            == output + EncodeByte(str[i], plus, slash) + Encode(str[i + 1..], plus, slash)
  {
    assert str[i..][1..] == str[i + 1..];
  }

  method DecodeText(encoded: string, decodePlus: bool) returns (r: Result<string>)
    ensures r == Decode(encoded, decodePlus)
  {
    var output := [];
    var i := 0;
    assert encoded[0..] == encoded;
    PrependNothing(Decode(encoded, decodePlus));
    while i < |encoded|
      invariant 0 <= i <= |encoded|
      invariant Decode(encoded, decodePlus) == PrependAll(output, Decode(encoded[i..], decodePlus))
    {
      assert encoded[i..][1..] == encoded[i + 1..];
      var c;
      if encoded[i] == '%' && i + 2 < |encoded| {
        var value := HexPair(encoded[i + 1], encoded[i + 2]);
        if value.Err? {
          return Err(value.error);
        }
        assert encoded[i..][3..] == encoded[i + 3..];
        c := value.value;
        i := i + 2;
      } else if decodePlus && encoded[i] == '+' {
        c := ' ';
      } else {
        c := encoded[i];
      }
      PrependMore(output, c, Decode(encoded[i + 1..], decodePlus));
      output := output + [c];
      i := i + 1;
    }
    assert output + [] == output;
    r := Ok(output);
  }

  function PrependAll(s: string, r: Result<string>): Result<string> {
    match r
    case Ok(t) => Ok(s + t)
    case Err(_) => r
  }

  lemma PrependNothing(r: Result<string>)
    ensures PrependAll([], r) == r
  {
    if r.Ok? {
      assert [] + r.value == r.value;
    }
  }

  lemma PrependMore(s: string, c: char, r: Result<string>)
    ensures PrependAll(s, Prepend(c, r)) == PrependAll(s + [c], r)
  {
    if r.Ok? {
      assert s + ([c] + r.value) == s + [c] + r.value;
    }
  }
}
