/** The parser that consumes a text from its front. Each method is specified by a function of `Texts`. */
module StringParser {
  import opened Wrappers
  import Texts

  class Parser {
    var str: string

    constructor (s: string)
      ensures str == s
    {
      str := s;
    }

    method ReadUntil(delimiter: string, withDelimiter: bool := false) returns (r: Option<string>)
      modifies this
      ensures (r, str) == Texts.ReadUntil(old(str), delimiter, withDelimiter)
    {
      if str == [] {
        return None;
      }
      Texts.FindIsFirst(str, delimiter);
      var pos := Texts.Find(str, delimiter);
      if pos.None? {
        return None;
      }
      r := Some(str[..if withDelimiter then pos.value + |delimiter| else pos.value]);
      str := str[pos.value + |delimiter|..];
    }

    method Split(delimiter: string, withDelimiter: bool := false) returns (r: Option<string>)
      modifies this
      ensures (r, str) == Texts.Split(old(str), delimiter, withDelimiter)
    {
      if str == [] {
        return None;
      }
      Texts.FindIsFirst(str, delimiter);
      var pos := Texts.Find(str, delimiter);
      if pos.None? {
        r, str := Some(str), [];
        return;
      }
      r := Some(str[..if withDelimiter then pos.value + |delimiter| else pos.value]);
      str := str[pos.value + |delimiter|..];
    }

    method ReadUntilEnd() returns (r: Option<string>)
      modifies this
      ensures (r, str) == Texts.ReadUntilEnd(old(str))
      ensures str == "" && r == if old(str) == "" then None else Some(old(str))
    {
      if str == [] {
        return None;
      }
      r, str := Some(str), [];
    }

    method Skip(chars: string) returns (skipped: bool)
      modifies this
      ensures (skipped, str) == Texts.Skip(old(str), chars)
      ensures old(str) == (if skipped then chars else "") + str && (skipped <==> chars <= old(str))
    {
      if chars <= str {
        str := str[|chars|..];
        return true;
      }
      return false;
    }

    /** Skips at most `count` bytes `chr` from the front. */
    method SkipN(chr: char, count: nat) returns (i: nat)
      modifies this
      ensures i == Texts.Run(old(str), chr, count) && str == old(str)[i..]
    {
      i := 0;
      while i < count && i < |str|
        invariant i <= count && i <= |str| && str == old(str)
        invariant Texts.Run(str, chr, count) == i + Texts.Run(str[i..], chr, count - i)
      {
        if str[i] != chr {
          break;
        }
        i := i + 1;
      }
      str := str[i..];
    }

    /** Reads an unsigned integer of at most `max`, after any leading spaces. */
    method ReadInt(max: nat) returns (r: Option<nat>)
      modifies this
      ensures (r, str) == Texts.ReadInt(old(str), max)
    {
      var _ := SkipN(' ', Texts.MAX_LEADING_SPACES);
      var result := Texts.FromChars(str, max);
      if result.None? {
        return None;
      }
      r, str := Some(result.value.0), str[result.value.1..];
    }

    method ReadUntilNewline() returns (r: Option<string>)
      modifies this
      ensures (r, str) == Texts.ReadUntilNewline(old(str))
    {
      if str == [] {
        return None;
      }
      Texts.FindIsFirst(str, "\n");
      var pos := Texts.Find(str, "\n");
      if pos.None? {
        return None;
      }
      var substr := str[..pos.value];
      str := str[pos.value + 1..];
      if substr != [] && substr[|substr| - 1] == '\r' {
        substr := substr[..|substr| - 1];
      }
      return Some(substr);
    }

    method ReadLine() returns (r: Option<string>)
      modifies this
      ensures (r, str) == Texts.ReadLine(old(str))
    {
      r := ReadUntilNewline();
      if r.Some? {
        return;
      }
      if str == [] {
        return None;
      }
      r, str := Some(str), [];
    }

    predicate Exhausted()
      reads this
    {
      str == []
    }
  }
}
