/** The incremental buffer: text is written in chunks and read back as lines or as bytes. */
module StringBuffer {
  import opened Wrappers
  import Texts
  import StringParser

  // ----- lines -----

  /** The complete lines of a text, without their newlines. */
  function RawLines(s: string): seq<string> {
    if s == [] then []
    else
      var n := |s| - 1;
      if s[n] == '\n' then RawLines(s[..n]) + [Tail(s[..n])] else RawLines(s[..n])
  }

  /** What follows the last newline. */
  function Tail(s: string): string {
    if s == [] || s[|s| - 1] == '\n' then [] else Tail(s[..|s| - 1]) + [s[|s| - 1]]
  }

  function Unwrap(lines: seq<string>): (r: seq<string>)
    ensures |r| == |lines| && forall i :: 0 <= i < |lines| ==> r[i] == Texts.Unwrapped(lines[i])
  {
    seq(|lines|, i requires 0 <= i < |lines| => Texts.Unwrapped(lines[i]))
  }

  /** The complete lines of a text, without newlines and carriage returns before them. */
  function Lines(s: string): seq<string> {
    Unwrap(RawLines(s))
  }

  lemma {:induction false} NoNewline(s: string)
    requires '\n' !in s
    ensures RawLines(s) == [] && Tail(s) == s
  {
    if s != [] {
      NoNewline(s[..|s| - 1]);
      assert s == s[..|s| - 1] + [s[|s| - 1]];
    }
  }

  /** Cutting a text after its first newline cuts off its first line. */
  lemma {:induction false} FirstLine(line: string, rest: string)
    requires '\n' !in line
    ensures RawLines(line + "\n" + rest) == [line] + RawLines(rest) && Tail(line + "\n" + rest) == Tail(rest)
  {
    var s := line + "\n" + rest;
    var n := |s| - 1;
    if rest == [] {
      assert s[..n] == line;
      NoNewline(line);
    } else {
      var front := rest[..|rest| - 1];
      assert s[..n] == line + "\n" + front && s[n] == rest[|rest| - 1];
      FirstLine(line, front);
    }
  }

  /** Before the newline there is none, so what is read is the first line. */
  lemma ReadSplits(s: string)
    ensures var (r, rest) := Texts.ReadUntilNewline(s);
      if r.None? then rest == s && '\n' !in s
      else
        |rest| < |s| &&
        var line := s[..|s| - |rest| - 1];
        '\n' !in line && s == line + "\n" + rest && r.value == Texts.Unwrapped(line)
  {
    Texts.FindIsFirst(s, "\n");
    var pos := Texts.Find(s, "\n");
    var n := if pos.None? then |s| else pos.value;
    forall k | 0 <= k < n
      ensures s[k] != '\n'
    {
      assert !("\n" <= s[k..]);
    }
    if pos.Some? {
      assert s[n..n + 1] == "\n";
    }
  }

  /** Reading a line takes the first line of a text, and finds none exactly when it has none. */
  lemma ReadTakesFirst(s: string)
    ensures var (r, rest) := Texts.ReadUntilNewline(s);
      Tail(s) == Tail(rest) && (r.None? <==> '\n' !in s) &&
      if r.Some? then Lines(s) == [r.value] + Lines(rest) else rest == s && Lines(s) == []
  {
    hide Texts.ReadUntilNewline, RawLines, Tail, Texts.Unwrapped;
    ReadSplits(s);
    var (r, rest) := Texts.ReadUntilNewline(s);
    if r.None? {
      NoNewline(s);
    } else {
      FirstLine(s[..|s| - |rest| - 1], rest);
      assert s[|s| - |rest| - 1] == '\n';
    }
  }

  /** Reading lines until there are none left, as the parser does on a whole text, gives its lines. */
  function ReadAll(s: string): (seq<string>, string)
    decreases |s|
  {
    Texts.FindIsFirst(s, "\n");
    var (r, rest) := Texts.ReadUntilNewline(s);
    if r.None? then ([], rest) else ([r.value] + ReadAll(rest).0, ReadAll(rest).1)
  }

  lemma {:induction false} ReadAllIsLines(s: string)
    ensures ReadAll(s) == (Lines(s), Tail(s))
    decreases |s|
  {
    ReadTakesFirst(s);
    var (r, rest) := Texts.ReadUntilNewline(s);
    if r.Some? {
      Texts.FindIsFirst(s, "\n");
      ReadAllIsLines(rest);
    } else {
      NoNewline(s);
    }
  }

  // ----- runs -----

  datatype Op = Write(chunk: string) | ReadLine | Read(max: nat)

  function Least(a: nat, b: nat): nat {
    if a < b then a else b
  }

  /** What is pending after an operation. */
  function Next(pending: string, op: Op): string {
    match op
    case Write(chunk) => pending + chunk
    case ReadLine => Texts.ReadUntilNewline(pending).1
    case Read(max) => pending[Least(max, |pending|)..]
  }

  function Pending(ops: seq<Op>): string {
    if ops == [] then [] else Next(Pending(ops[..|ops| - 1]), ops[|ops| - 1])
  }

  /** Everything that was written. */
  function Written(ops: seq<Op>): string {
    if ops == [] then []
    else Written(ops[..|ops| - 1]) + if ops[|ops| - 1].Write? then ops[|ops| - 1].chunk else []
  }

  /** The lines that were read. */
  function Returned(ops: seq<Op>): seq<string> {
    if ops == [] then []
    else
      var before := ops[..|ops| - 1];
      var r := Texts.ReadUntilNewline(Pending(before)).0;
      Returned(before) + if ops[|ops| - 1].ReadLine? && r.Some? then [r.value] else []
  }

  /** What a call answers. */
  datatype Answer = Nothing | Line(line: Option<string>) | Bytes(bytes: string)

  function AnswerOf(pending: string, op: Op): Answer {
    match op
    case Write(_) => Nothing
    case ReadLine => Line(Texts.ReadUntilNewline(pending).0)
    case Read(max) => Bytes(pending[..Least(max, |pending|)])
  }

  /** `piece` is what an answer accounts for: the bytes it returned, or the line with its end, which is a
      newline alone only if the line does not end in a carriage return; a failing call accounts for
      nothing. */
  predicate Accounts(answer: Answer, piece: string) {
    match answer
    case Nothing => piece == ""
    case Line(None) => piece == ""
    case Line(Some(line)) => exists crlf :: piece == line + Texts.LineEnd(crlf) && Texts.IsLine(line, crlf)
    case Bytes(bytes) => piece == bytes
  }

  /** The first complete line of a text with its newline, if there is one. */
  function RawLine(s: string): string {
    if RawLines(s) == [] then "" else RawLines(s)[0] + "\n"
  }

  /** The bytes that an operation hands out. */
  function Piece(pending: string, op: Op): string {
    match op
    case Write(_) => ""
    case ReadLine => RawLine(pending)
    case Read(max) => pending[..Least(max, |pending|)]
  }

  function AnswerAt(ops: seq<Op>, k: nat): Answer
    requires k < |ops|
  {
    AnswerOf(Pending(ops[..k]), ops[k])
  }

  function PieceAt(ops: seq<Op>, k: nat): string
    requires k < |ops|
  {
    Piece(Pending(ops[..k]), ops[k])
  }

  /** The pieces of all operations, one after the other. */
  function Taken(ops: seq<Op>): string {
    if ops == [] then [] else Taken(ops[..|ops| - 1]) + PieceAt(ops, |ops| - 1)
  }

  /** A line that was read is the first complete one, and its piece is the line with its line end. */
  lemma RawLineIsRead(s: string)
    ensures Accounts(Line(Texts.ReadUntilNewline(s).0), RawLine(s))
    ensures RawLine(s) + Texts.ReadUntilNewline(s).1 == s
  {
    hide Texts.ReadUntilNewline, RawLines;
    ReadSplits(s);
    var (r, rest) := Texts.ReadUntilNewline(s);
    if r.None? {
      NoNewline(s);
    } else {
      var line := s[..|s| - |rest| - 1];
      FirstLine(line, rest);
      assert RawLine(s) == line + "\n";
      WrappedOrNot(line);
    }
  }

  lemma WrappedOrNot(line: string)
    requires '\n' !in line
    ensures Accounts(Line(Some(Texts.Unwrapped(line))), line + "\n")
  {
    var n := |line| - 1;
    if line != [] && line[n] == '\r' {
      assert line == line[..n] + "\r";
      assert line + "\n" == line[..n] + Texts.LineEnd(true);
      assert Texts.IsLine(line[..n], true);
    } else {
      assert line + "\n" == line + Texts.LineEnd(false) && Texts.IsLine(line, false);
    }
  }

  /** What an operation hands out and what it leaves is what was pending, and its answer accounts for
      it. */
  lemma OperationConserves(pending: string, op: Op)
    ensures Accounts(AnswerOf(pending, op), Piece(pending, op))
    ensures !op.Write? ==> Piece(pending, op) + Next(pending, op) == pending
  {
    hide RawLine, Texts.ReadUntilNewline;
    if op.ReadLine? {
      RawLineIsRead(pending);
    }
  }

  /** No byte is lost, changed or handed out twice: what the answers account for and what is pending is
      what was written. */
  lemma {:induction false} BytesConserved(ops: seq<Op>)
    ensures Taken(ops) + Pending(ops) == Written(ops)
    ensures forall k :: 0 <= k < |ops| ==> Accounts(AnswerAt(ops, k), PieceAt(ops, k))
  {
    hide Piece, AnswerOf, Next, Accounts;
    forall k | 0 <= k < |ops|
      ensures Accounts(AnswerAt(ops, k), PieceAt(ops, k))
    {
      OperationConserves(Pending(ops[..k]), ops[k]);
    }
    if ops != [] {
      var (before, op) := (ops[..|ops| - 1], ops[|ops| - 1]);
      BytesConserved(before);
      StepConserves(Taken(before), Pending(before), Written(before), op);
    }
  }

  lemma StepConserves(taken: string, pending: string, written: string, op: Op)
    requires taken + pending == written
    ensures taken + Piece(pending, op) + Next(pending, op) == written + if op.Write? then op.chunk else []
  {
    hide RawLine, Texts.ReadUntilNewline;
    OperationConserves(pending, op);
    if op.Write? {
      assert taken + "" == taken;
      Texts.AppendAssociates(taken, pending, op.chunk);
    } else {
      assert written + [] == written;
      Texts.AppendAssociates(taken, Piece(pending, op), Next(pending, op));
    }
  }

  /** However a text is cut into chunks and whenever lines are read in between, the lines returned so
      far and the lines pending are the lines of the whole text. */
  lemma {:induction false} ChunksDoNotMatter(ops: seq<Op>)
    requires forall i :: 0 <= i < |ops| ==> !ops[i].Read?
    ensures Returned(ops) + Lines(Pending(ops)) == Lines(Written(ops))
    ensures Tail(Pending(ops)) == Tail(Written(ops))
  {
    hide Lines, Tail, Texts.ReadUntilNewline;
    if ops == [] {
      NothingPending();
    } else {
      var (before, op) := (ops[..|ops| - 1], ops[|ops| - 1]);
      ChunksDoNotMatter(before);
      if op.ReadLine? {
        assert Written(ops) == Written(before);
        ReadTakesFirst(Pending(before));
        var r := Texts.ReadUntilNewline(Pending(before)).0;
        if r.Some? {
          assert Returned(ops) + Lines(Pending(ops)) == Returned(before) + ([r.value] + Lines(Pending(ops)));
        } else {
          assert Returned(ops) == Returned(before);
        }
      } else {
        assert Returned(ops) == Returned(before);
        AppendLines(Returned(before), Pending(before), Written(before), op.chunk);
      }
    }
  }

  lemma NothingPending()
    ensures Returned([]) + Lines(Pending([])) == Lines(Written([])) && Tail(Pending([])) == Tail(Written([]))
  {
  }

  /** Appending the same text to texts with the same tail adds the same lines. */
  lemma {:induction false} AppendLines(returned: seq<string>, s: string, all: string, t: string)
    requires returned + Lines(s) == Lines(all) && Tail(s) == Tail(all)
    ensures returned + Lines(s + t) == Lines(all + t) && Tail(s + t) == Tail(all + t)
  {
    hide Lines, Tail, Texts.Unwrapped;
    if t == [] {
      assert s + t == s && all + t == all;
    } else {
      var (front, c) := (t[..|t| - 1], t[|t| - 1]);
      assert s + t == s + front + [c] && all + t == all + front + [c];
      AppendLines(returned, s, all, front);
      LinesSnoc(s + front, c);
      LinesSnoc(all + front, c);
    }
  }

  /** The lines of a text with one more character. */
  lemma LinesSnoc(s: string, c: char)
    ensures Lines(s + [c]) == Lines(s) + if c == '\n' then [Texts.Unwrapped(Tail(s))] else []
    ensures Tail(s + [c]) == if c == '\n' then [] else Tail(s) + [c]
  {
    assert (s + [c])[..|s|] == s;
    UnwrapSnoc(RawLines(s), Tail(s));
  }

  lemma UnwrapSnoc(lines: seq<string>, line: string)
    ensures Unwrap(lines + [line]) == Unwrap(lines) + [Texts.Unwrapped(line)]
  {
  }

  /** So when reading stops for want of a newline, exactly the lines of the whole text were returned,
      as the parser returns them. */
  lemma DrainedIsEverything(ops: seq<Op>)
    requires forall i :: 0 <= i < |ops| ==> !ops[i].Read?
    requires Texts.ReadUntilNewline(Pending(ops)).0.None?
    ensures Returned(ops) == ReadAll(Written(ops)).0 && Pending(ops) == ReadAll(Written(ops)).1
  {
    ChunksDoNotMatter(ops);
    ReadTakesFirst(Pending(ops));
    NoNewline(Pending(ops));
    ReadAllIsLines(Written(ops));
  }

  // ----- lines with either end -----

  /** Lines, each with whether it ends in CR and LF or in LF alone. */
  type Wire = seq<(string, bool)>

  predicate AllLines(wire: Wire) {
    forall i :: 0 <= i < |wire| ==> Texts.IsLine(wire[i].0, wire[i].1)
  }

  /** The text that the lines make up. */
  function TextOf(wire: Wire): string {
    if wire == [] then "" else wire[0].0 + Texts.LineEnd(wire[0].1) + TextOf(wire[1..])
  }

  function LinesOf(wire: Wire): (r: seq<string>)
    ensures |r| == |wire| && forall i :: 0 <= i < |wire| ==> r[i] == wire[i].0
  {
    seq(|wire|, i requires 0 <= i < |wire| => wire[i].0)
  }

  /** The parser reads from a text exactly the lines that it was made of, whatever their ends. */
  lemma {:induction false} LinesComeBack(wire: Wire)
    requires AllLines(wire)
    ensures ReadAll(TextOf(wire)) == (LinesOf(wire), "")
    decreases |wire|
  {
    hide Texts.ReadUntilNewline, Texts.LineEnd, Texts.IsLine, ReadAll;
    if wire == [] {
      NothingToRead();
    } else {
      LinesComeBack(wire[1..]);
      Texts.LineIsRead(wire[0].0, wire[0].1, TextOf(wire[1..]));
      ReadAllNext(TextOf(wire), wire[0].0, TextOf(wire[1..]));
      assert LinesOf(wire) == [wire[0].0] + LinesOf(wire[1..]);
    }
  }

  lemma NothingToRead()
    ensures ReadAll("") == ([], "")
  {
  }

  lemma ReadAllNext(s: string, line: string, rest: string)
    requires Texts.ReadUntilNewline(s) == (Some(line), rest)
    ensures ReadAll(s) == ([line] + ReadAll(rest).0, ReadAll(rest).1)
  {
    hide Texts.ReadUntilNewline;
  }

  /** However such a text is cut into chunks and whenever lines are read in between, the lines returned are
      the first of those lines, and the others are still to come; a buffer without a complete line has
      returned them all and is empty. */
  lemma ChunkedLinesComeBack(wire: Wire, ops: seq<Op>)
    requires AllLines(wire) && Written(ops) == TextOf(wire)
    requires forall i :: 0 <= i < |ops| ==> !ops[i].Read?
    ensures Returned(ops) + ReadAll(Pending(ops)).0 == LinesOf(wire)
    ensures Texts.ReadUntilNewline(Pending(ops)).0.None? ==> Returned(ops) == LinesOf(wire) && Pending(ops) == ""
  {
    hide Lines, Texts.ReadUntilNewline;
    LinesComeBack(wire);
    ReadAllIsLines(Written(ops));
    ReadAllIsLines(Pending(ops));
    ChunksDoNotMatter(ops);
    if Texts.ReadUntilNewline(Pending(ops)).0.None? {
      DrainedIsEverything(ops);
    }
  }

  lemma Overwritten(store: string, from: nat, at: nat, chunk: string)
    requires from <= at && at + |chunk| <= |store|
    ensures var t := store[..at] + chunk + store[at + |chunk|..];
      |t| == |store| && t[from..at] == store[from..at] && t[at..at + |chunk|] == chunk
  {
  }

  // ----- the object -----

  class StringBuffer {
    var store: string
    var readPosition: nat
    var writePosition: nat

    predicate Valid()
      reads this
    {
      readPosition <= writePosition <= |store|
    }

    /** The data available to read. */
    function Data(): string
      reads this
      requires Valid()
    {
      store[readPosition..writePosition]
    }

    constructor (initial: string := [])
      ensures Valid() && Data() == initial
    {
      store := initial;
      readPosition := 0;
      writePosition := |initial|;
    }

    /** Makes room for `size` bytes from position `at` on; what is available stays. */
    method Prepare(size: nat) returns (at: nat)
      requires Valid()
      modifies this`store
      ensures Valid() && Data() == old(Data()) && at == writePosition && |store| == writePosition + size
    {
      if |store| < writePosition + size {
        store := store + seq(writePosition + size - |store|, _ => '\0');
      } else {
        store := store[..writePosition + size];
      }
      return writePosition;
    }

    method Commit(size: nat)
      requires Valid() && size <= |store| - writePosition
      modifies this`writePosition
      ensures Valid() && Data() == old(Data()) + store[old(writePosition)..old(writePosition) + size]
    {
      writePosition := writePosition + size;
    }

    method Remaining() returns (r: nat)
      requires Valid()
      ensures r == |Data()|
    {
      return writePosition - readPosition;
    }

    predicate Exhausted()
      reads this
    {
      readPosition >= |store| || readPosition == writePosition
    }

    method Consume(size: nat)
      requires Valid() && size <= |Data()|
      modifies this`readPosition, this`writePosition
      ensures Valid() && Data() == old(Data())[size..]
    {
      readPosition := readPosition + size;
      if readPosition == writePosition {
        readPosition := 0;
        writePosition := 0;
      }
    }

    method Read(max: nat) returns (r: string)
      requires Valid()
      modifies this`readPosition, this`writePosition
      ensures Valid() && Data() == Next(old(Data()), Op.Read(max)) && Bytes(r) == AnswerOf(old(Data()), Op.Read(max))
      ensures r + Data() == old(Data())
    {
      hide Texts.ReadUntilNewline;
      ghost var before := Data();
      var size := if writePosition - readPosition < max then writePosition - readPosition else max;
      var pos := readPosition;
      Consume(size);
      r := store[pos..pos + size];
      assert r == before[..size] && before[..size] + before[size..] == before;
    }

    method ReadUntilNewline() returns (r: Option<string>)
      requires Valid()
      modifies this`readPosition, this`writePosition
      ensures Valid() && (r, Data()) == Texts.ReadUntilNewline(old(Data()))
    {
      if Exhausted() {
        return None;
      }
      var view := store[readPosition..writePosition];
      Texts.FindIsFirst(view, "\n");
      var pos := Texts.Find(view, "\n");
      if pos.None? {
        return None;
      }
      var substr := view[..pos.value];
      Consume(pos.value + 1);
      if substr != [] && substr[|substr| - 1] == '\r' {
        substr := substr[..|substr| - 1];
      }
      return Some(substr);
    }

    method StartsWith(prefix: string) returns (r: bool)
      requires Valid()
      ensures r <==> prefix <= Data()
    {
      var n := Remaining();
      return n >= |prefix| && prefix == store[readPosition..readPosition + |prefix|];
    }

    method Write(chunk: string)
      requires Valid()
      modifies this
      ensures Valid() && Data() == Next(old(Data()), Op.Write(chunk))
    {
      hide Texts.ReadUntilNewline;
      var at := Prepare(|chunk|);
      Overwritten(store, readPosition, at, chunk);
      store := store[..at] + chunk + store[at + |chunk|..];
      Commit(|chunk|);
    }

    method Clear()
      modifies this
      ensures Valid() && Data() == []
    {
      store, readPosition, writePosition := [], 0, 0;
    }
  }
}
