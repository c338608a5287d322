/** Compound RTCP packets (sections 6.1 and 6.4 of RFC 3550): the view and the walk from one packet to
    the next. */
module Rtcp {
  import opened Wrappers
  import opened Bytes

  const HEADER_LENGTH := 8
  const SENDER_INFO_LENGTH := 20
  const REPORT_BLOCK_LENGTH := 24
  const UINT16 := 0x1_0000

  datatype PacketType = Unknown | SenderReport | ReceiverReport | SourceDescription | Bye | App

  /** A view of bytes, or of nothing at all. */
  datatype View = Null | View(d: seq<Byte>) {
    function Size(): nat {
      if Null? then 0 else |d|
    }

    function Version(): nat {
      if Size() < 1 then 0 else d[0] / 64
    }

    function ReportCount(): nat {
      if Size() < 1 then 0 else d[0] % 32
    }

    function Type(): PacketType {
      if Size() < 2 then Unknown
      else match d[1]
        case 200 => SenderReport
        case 201 => ReceiverReport
        case 202 => SourceDescription
        case 203 => Bye
        case 204 => App
        case _ => Unknown
    }

    /** In 32-bit words; the sum is cut to 16 bits. */
    function Length(): nat {
      if Size() < 4 then 0 else (Be(d[2..4]) + 1) % UINT16
    }

    function Ssrc(): nat {
      if Size() < 8 then 0 else Be(d[4..8])
    }

    /** The seconds and the fraction. */
    function NtpTimestamp(): (nat, nat) {
      if Type() != SenderReport || Size() < HEADER_LENGTH + 8 then (0, 0)
      else (Be(d[HEADER_LENGTH..HEADER_LENGTH + 4]), Be(d[HEADER_LENGTH + 4..HEADER_LENGTH + 8]))
    }

    function SenderWord(at: nat): nat {
      if Type() != SenderReport || Size() < HEADER_LENGTH + at + 4 then 0
      else Be(d[HEADER_LENGTH + at..HEADER_LENGTH + at + 4])
    }

    function RtpTimestamp(): nat {
      SenderWord(8)
    }

    function PacketCount(): nat {
      SenderWord(12)
    }

    function OctetCount(): nat {
      SenderWord(16)
    }

    predicate Validate() {
      View? && Size() >= HEADER_LENGTH && Version() == 2 &&
      (Type() == SenderReport ==> Size() >= HEADER_LENGTH + SENDER_INFO_LENGTH)
    }

    function BlocksStart(): nat {
      HEADER_LENGTH + if Type() == SenderReport then SENDER_INFO_LENGTH else 0
    }

    /** A report block, or nothing. */
    function ReportBlock(index: nat): View {
      if index >= ReportCount() then Null
      else if Size() < BlocksStart() + REPORT_BLOCK_LENGTH * (index + 1) then Null
      else
        var at := BlocksStart() + REPORT_BLOCK_LENGTH * index;
        View(d[at..at + REPORT_BLOCK_LENGTH])
    }

    /** Where the reports end. */
    function ReportsEnd(): nat {
      BlocksStart() + REPORT_BLOCK_LENGTH * ReportCount()
    }

    /** The extension after the reports. A packet that says it is shorter than its reports has none to
        speak of; it must not be asked. */
    function ProfileExtension(): View
      requires ReportsEnd() < Size() && Length() * 4 <= Size() ==> ReportsEnd() <= Length() * 4
    {
      if Null? || ReportsEnd() >= Size() || Length() * 4 > Size() then Null
      else View(d[ReportsEnd()..Length() * 4])
    }

    function NextPacket(): View {
      if Null? || Length() * 4 >= Size() then Null else View(d[Length() * 4..])
    }
  }

  // ----- well-formed packets -----

  /** A sender or receiver report as on the wire. */
  datatype Packet = Packet(
    sender: Option<seq<Byte>>,
    padding: bool,
    ssrc: nat,
    blocks: seq<seq<Byte>>,
    extension: seq<Byte>) {

    /** In 32-bit words. */
    function Words(): nat {
      2 + (if sender.Some? then 5 else 0) + 6 * |blocks| + |extension| / 4
    }

    predicate Valid() {
      (sender.Some? ==> |sender.value| == SENDER_INFO_LENGTH) && ssrc < 0x1_0000_0000 && |blocks| < 32 &&
      (forall i :: 0 <= i < |blocks| ==> |blocks[i]| == REPORT_BLOCK_LENGTH) &&
      |extension| % 4 == 0 && Words() < UINT16
    }
  }

  function Concat(parts: seq<seq<Byte>>): seq<Byte> {
    if parts == [] then [] else parts[0] + Concat(parts[1..])
  }

  function SenderInfo(p: Packet): seq<Byte> {
    if p.sender.Some? then p.sender.value else []
  }

  function Header(p: Packet): (s: seq<Byte>)
    requires |p.blocks| < 32
    ensures |s| == HEADER_LENGTH
  {
    [128 + (if p.padding then 32 else 0) + |p.blocks|, if p.sender.Some? then 200 else 201] +
    ToBe(p.Words() - 1, 2) + ToBe(p.ssrc, 4)
  }

  function PacketBytes(p: Packet): seq<Byte>
    requires |p.blocks| < 32
  {
    Header(p) + SenderInfo(p) + Concat(p.blocks) + p.extension
  }

  lemma {:induction false} ConcatBlocks(blocks: seq<seq<Byte>>, i: nat)
    requires forall k :: 0 <= k < |blocks| ==> |blocks[k]| == REPORT_BLOCK_LENGTH
    ensures |Concat(blocks)| == REPORT_BLOCK_LENGTH * |blocks|
    ensures i < |blocks| ==> Concat(blocks)[REPORT_BLOCK_LENGTH * i..REPORT_BLOCK_LENGTH * i + REPORT_BLOCK_LENGTH] == blocks[i]
  {
    if blocks != [] {
      ConcatBlocks(blocks[1..], if i == 0 then 0 else i - 1);
      var at := REPORT_BLOCK_LENGTH * i;
      if 0 < i < |blocks| {
        assert Concat(blocks)[at..at + REPORT_BLOCK_LENGTH] ==
          Concat(blocks[1..])[at - REPORT_BLOCK_LENGTH..at];
      }
    }
  }

  lemma PacketSize(p: Packet)
    requires p.Valid()
    ensures |PacketBytes(p)| == 4 * p.Words()
  {
    ConcatBlocks(p.blocks, 0);
  }

  lemma HeaderParts(p: Packet, rest: seq<Byte>)
    requires |p.blocks| < 32
    ensures var d := Header(p) + rest;
      && d[0] == 128 + (if p.padding then 32 else 0) + |p.blocks| && d[1] == (if p.sender.Some? then 200 else 201)
      && d[2..4] == ToBe(p.Words() - 1, 2) && d[4..8] == ToBe(p.ssrc, 4)
  {
    hide ToBe;
  }

  lemma HeaderFields(p: Packet, rest: seq<Byte>)
    requires p.Valid()
    ensures var v := View(Header(p) + rest);
      && v.Version() == 2 && v.ReportCount() == |p.blocks| && v.Length() == p.Words() && v.Ssrc() == p.ssrc
      && v.Type() == if p.sender.Some? then SenderReport else ReceiverReport
  {
    hide Header, Be, ToBe, Power, Packet.Words;
    HeaderParts(p, rest);
    PowersAre();
    WordsPositive(p);
    BeOfToBe(p.Words() - 1, 2);
    BeOfToBe(p.ssrc, 4);
  }

  lemma WordsPositive(p: Packet)
    requires p.Valid()
    ensures 0 < p.Words() < UINT16
  {
  }

  /** The parts of a concatenation. */
  lemma Slices(h: seq<Byte>, s: seq<Byte>, b: seq<Byte>, e: seq<Byte>, rest: seq<Byte>)
    ensures var d := h + s + b + e + rest;
      var (i, j, k) := (|h|, |h| + |s|, |h| + |s| + |b|);
      d[..i] == h && d[i..j] == s && d[j..k] == b && d[k..k + |e|] == e && d[k + |e|..] == rest
  {
  }

  /** The parts of a packet as slices of whatever starts with it. */
  lemma PacketSlices(p: Packet, rest: seq<Byte>)
    requires p.Valid()
    ensures var (d, j) := (PacketBytes(p) + rest, HEADER_LENGTH + |SenderInfo(p)|);
      var k := j + REPORT_BLOCK_LENGTH * |p.blocks|;
      && |PacketBytes(p)| == 4 * p.Words() == k + |p.extension| && d[..4 * p.Words()] == PacketBytes(p)
      && d[HEADER_LENGTH..j] == SenderInfo(p) && d[j..k] == Concat(p.blocks) && d[k..4 * p.Words()] == p.extension
  {
    hide Header, Packet.Words;
    ConcatBlocks(p.blocks, 0);
    PacketSize(p);
    Slices(Header(p), SenderInfo(p), Concat(p.blocks), p.extension, rest);
  }

  lemma PacketFields(p: Packet, rest: seq<Byte>)
    requires p.Valid()
    ensures var v := View(PacketBytes(p) + rest);
      && v.Version() == 2 && v.ReportCount() == |p.blocks| && v.Length() == p.Words() && v.Ssrc() == p.ssrc
      && v.Type() == if p.sender.Some? then SenderReport else ReceiverReport
  {
    hide Header, Packet.Words, View.Length, View.Version, View.ReportCount, View.Type, View.Ssrc;
    var (s, b, e) := (SenderInfo(p), Concat(p.blocks), p.extension);
    assert PacketBytes(p) + rest == Header(p) + (s + b + e + rest);
    HeaderFields(p, s + b + e + rest);
  }

  /** What a view at the start of a packet shows, whatever follows: the header fields, the sender info,
      each report block and no more, and the extension; these parts make up its length. */
  lemma PacketParts(p: Packet, rest: seq<Byte>, index: nat)
    requires p.Valid()
    ensures var v := View(PacketBytes(p) + rest);
      && v.Validate() && v.Length() * 4 == |PacketBytes(p)| && v.d[..v.Length() * 4] == PacketBytes(p)
      && v.Ssrc() == p.ssrc && v.ReportCount() == |p.blocks| && (v.Type() == SenderReport <==> p.sender.Some?)
      && v.BlocksStart() == HEADER_LENGTH + |SenderInfo(p)| && v.d[HEADER_LENGTH..v.BlocksStart()] == SenderInfo(p)
      && v.ReportBlock(index) == (if index < |p.blocks| then View(p.blocks[index]) else Null)
      && v.ReportsEnd() <= v.Length() * 4 && v.d[v.BlocksStart()..v.ReportsEnd()] == Concat(p.blocks)
      && (if v.ProfileExtension().Null? then [] else v.ProfileExtension().d) == p.extension
  {
    hide PacketBytes, Concat, Packet.Words, View.Length, View.Version, View.ReportCount, View.Type, View.Ssrc;
    var d := PacketBytes(p) + rest;
    PacketFields(p, rest);
    PacketSlices(p, rest);
    if index < |p.blocks| {
      ConcatBlocks(p.blocks, index);
      BlockOf(d, Concat(p.blocks), HEADER_LENGTH + |SenderInfo(p)|, index);
    }
  }

  lemma BlockOf(d: seq<Byte>, b: seq<Byte>, start: nat, index: nat)
    requires start + |b| <= |d| && d[start..start + |b|] == b && REPORT_BLOCK_LENGTH * (index + 1) <= |b|
    ensures var at := REPORT_BLOCK_LENGTH * index;
      d[start + at..start + at + REPORT_BLOCK_LENGTH] == b[at..at + REPORT_BLOCK_LENGTH]
  {
    SliceOfSlice(d, b, start, REPORT_BLOCK_LENGTH * index, REPORT_BLOCK_LENGTH);
  }

  lemma SliceOfSlice(d: seq<Byte>, b: seq<Byte>, start: nat, at: nat, size: nat)
    requires start + |b| <= |d| && d[start..start + |b|] == b && at + size <= |b|
    ensures d[start + at..start + at + size] == b[at..at + size]
  {
    forall j | at <= j < at + size
      ensures d[start + j] == b[j]
    {
      assert d[start..start + |b|][j] == b[j];
    }
  }

  lemma SenderFields(p: Packet, rest: seq<Byte>)
    requires p.Valid()
    ensures var (v, s) := (View(PacketBytes(p) + rest), SenderInfo(p));
      if p.sender.Some? then
        && v.NtpTimestamp() == (Be(s[0..4]), Be(s[4..8])) && v.RtpTimestamp() == Be(s[8..12])
        && v.PacketCount() == Be(s[12..16]) && v.OctetCount() == Be(s[16..20])
      else v.NtpTimestamp() == (0, 0) && v.RtpTimestamp() == v.PacketCount() == v.OctetCount() == 0
  {
    hide Header, Be, View.Type, View.Length, View.Version, View.Ssrc, View.ReportCount, View.ProfileExtension, PacketBytes;
    PacketParts(p, rest, 0);
    var (d, s) := (PacketBytes(p) + rest, SenderInfo(p));
    if p.sender.Some? {
      SliceOfSlice(d, s, HEADER_LENGTH, 0, 4);
      SliceOfSlice(d, s, HEADER_LENGTH, 4, 4);
      SliceOfSlice(d, s, HEADER_LENGTH, 8, 4);
      SliceOfSlice(d, s, HEADER_LENGTH, 12, 4);
      SliceOfSlice(d, s, HEADER_LENGTH, 16, 4);
    } else {
      var v := View(d);
      assert v.SenderWord(8) == v.SenderWord(12) == v.SenderWord(16) == 0;
    }
  }

  /** Whatever the first eight bytes are, the fields make them up, but for the padding bit; the type is one
      of the five that are known, or unknown. */
  lemma FieldsMakeUp(d: seq<Byte>)
    requires |d| >= HEADER_LENGTH
    ensures var v := View(d);
      && d[0] == v.Version() * 64 + d[0] / 32 % 2 * 32 + v.ReportCount()
      && d[4..8] == ToBe(v.Ssrc(), 4)
      && d[2..4] == ToBe((v.Length() + UINT16 - 1) % UINT16, 2)
      && (if d[1] == 200 then v.Type() == SenderReport
          else if d[1] == 201 then v.Type() == ReceiverReport
          else if d[1] == 202 then v.Type() == SourceDescription
          else if d[1] == 203 then v.Type() == Bye
          else if d[1] == 204 then v.Type() == App
          else v.Type() == Unknown)
  {
    hide Be, ToBe;
    PowersAre();
    ToBeOfBe(d[2..4]);
    ToBeOfBe(d[4..8]);
    LengthBack(Be(d[2..4]));
  }

  lemma LengthBack(n: nat)
    requires n < UINT16
    ensures ((n + 1) % UINT16 + UINT16 - 1) % UINT16 == n
  {
  }

  /** A packet cut off within its header, or within the sender info if it is a sender report, is not
      valid, nor is one of another version. */
  lemma CutIsInvalid(p: Packet, n: nat)
    requires p.Valid() && n < HEADER_LENGTH + |SenderInfo(p)|
    ensures n <= |PacketBytes(p)| && !View(PacketBytes(p)[..n]).Validate()
  {
    PacketSize(p);
    HeaderParts(p, SenderInfo(p) + Concat(p.blocks) + p.extension);
    Regroup(Header(p), SenderInfo(p), Concat(p.blocks), p.extension);
    var d := PacketBytes(p);
    if n >= 2 {
      assert d[..n][1] == d[1];
    }
  }

  lemma Regroup(a: seq<Byte>, b: seq<Byte>, c: seq<Byte>, d: seq<Byte>)
    ensures a + b + c + d == a + (b + c + d)
  {
  }

  /** What is not there reads as zero, and a block or a packet that is not all there as nothing. */
  lemma ShortReadsZero(v: View, index: nat)
    ensures v.Size() < 1 ==> v.Version() == v.ReportCount() == 0
    ensures v.Size() < 2 ==> v.Type() == Unknown
    ensures (v.Size() < 4 ==> v.Length() == 0) && (v.Size() < 8 ==> v.Ssrc() == 0)
    ensures v.Size() < 16 ==> v.NtpTimestamp() == (0, 0)
    ensures (v.Size() < 20 ==> v.RtpTimestamp() == 0) && (v.Size() < 24 ==> v.PacketCount() == 0)
    ensures v.Size() < 28 ==> v.OctetCount() == 0
    ensures v.Size() < v.BlocksStart() + 24 * (index + 1) ==> v.ReportBlock(index) == Null
    ensures v.Size() <= 4 * v.Length() ==> v.NextPacket() == Null
  {
  }

  lemma OtherVersionInvalid(d: seq<Byte>)
    requires d != [] && !(128 <= d[0] < 192)
    ensures !View(d).Validate()
  {
  }

  // ----- the walk -----

  predicate AllValid(ps: seq<Packet>) {
    forall i :: 0 <= i < |ps| ==> ps[i].Valid()
  }

  function Compound(ps: seq<Packet>): seq<Byte>
    requires AllValid(ps)
  {
    if ps == [] then [] else PacketBytes(ps[0]) + Compound(ps[1..])
  }

  function Nth(v: View, k: nat): View
    decreases k
  {
    if k == 0 then v else Nth(v.NextPacket(), k - 1)
  }

  lemma CompoundSize(ps: seq<Packet>)
    requires AllValid(ps)
    ensures if ps == [] then Compound(ps) == [] else |Compound(ps)| >= HEADER_LENGTH
  {
  }

  lemma NextIsRest(ps: seq<Packet>)
    requires ps != [] && AllValid(ps)
    ensures View(Compound(ps)).NextPacket() == if |ps| == 1 then Null else View(Compound(ps[1..]))
  {
    hide View.Length, PacketBytes;
    var rest := Compound(ps[1..]);
    PacketParts(ps[0], rest, 0);
    CompoundSize(ps[1..]);
    assert (PacketBytes(ps[0]) + rest)[|PacketBytes(ps[0])|..] == rest;
  }

  lemma {:induction false} NothingFollowsNull(k: nat)
    ensures Nth(Null, k) == Null
  {
    if k > 0 {
      NothingFollowsNull(k - 1);
    }
  }

  /** The walk through a compound packet visits exactly its packets, in order, and then stops for
      good. */
  lemma {:induction false} WalkVisits(ps: seq<Packet>, k: nat)
    requires ps != [] && AllValid(ps)
    ensures Nth(View(Compound(ps)), k) == if k < |ps| then View(Compound(ps[k..])) else Null
    decreases k
  {
    hide Compound, View.NextPacket;
    if k == 0 {
      assert ps[0..] == ps;
    } else {
      NextIsRest(ps);
      if |ps| == 1 {
        NothingFollowsNull(k - 1);
      } else {
        WalkVisits(ps[1..], k - 1);
        if k < |ps| {
          assert ps[1..][k - 1..] == ps[k..];
        }
      }
    }
  }

  /** So the k-th view shows the k-th packet. */
  lemma WalkShows(ps: seq<Packet>, k: nat)
    requires k < |ps| && AllValid(ps)
    ensures var v := Nth(View(Compound(ps)), k);
      v.View? && v.Length() * 4 <= |v.d| && v.d[..v.Length() * 4] == PacketBytes(ps[k])
  {
    hide View.Length, PacketBytes;
    WalkVisits(ps, k);
    PacketParts(ps[k], Compound(ps[k..][1..]), 0);
  }

  /** On any bytes whatsoever the walk fails to move on exactly at fewer than four bytes or at a length
      field of all ones; otherwise the next view is shorter. */
  lemma StuckIff(d: seq<Byte>)
    requires d != []
    ensures var v := View(d);
      && (v.NextPacket() == v <==> |d| < 4 || Be(d[2..4]) == UINT16 - 1)
      && (v.NextPacket() != v ==> v.NextPacket().Size() < |d|)
  {
    hide Be, View.NextPacket;
    NextByLength(View(d));
    if |d| >= 4 {
      ToBeOfBe(d[2..4]);
      PowersAre();
      LengthWraps(Be(d[2..4]));
    }
  }

  lemma NextByLength(v: View)
    requires v.View? && v.d != []
    ensures if v.Length() == 0 then v.NextPacket() == v else v.NextPacket().Size() < v.Size()
  {
    hide View.Length;
    assert v.d[0..] == v.d;
  }

  lemma LengthWraps(n: nat)
    requires n < UINT16
    ensures (n + 1) % UINT16 == if n == UINT16 - 1 then 0 else n + 1
  {
  }
}
