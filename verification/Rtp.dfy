/** RTP packets (sections 5.1 and 5.3.1 of RFC 3550): the encoder, the view, and what the view
    recovers. */
module Rtp {
  import opened Wrappers
  import opened Bytes

  const BASE_LENGTH := 12
  const EXTENSION_LENGTH := 4
  const UINT8 := 0x100
  const UINT16 := 0x1_0000
  const UINT32 := 0x1_0000_0000

  // ----- the view -----

  function Version(d: seq<Byte>): nat {
    if |d| < 1 then 0 else d[0] / 64
  }

  function Padding(d: seq<Byte>): bool {
    if |d| < 1 then false else d[0] / 32 % 2 != 0
  }

  function HasExtension(d: seq<Byte>): bool {
    if |d| < 1 then false else d[0] / 16 % 2 != 0
  }

  function CsrcCount(d: seq<Byte>): nat {
    if |d| < 1 then 0 else d[0] % 16
  }

  /** The marker and the payload type are read from the second byte, which must be there. */
  function Marker(d: seq<Byte>): bool
    requires |d| != 1
  {
    if |d| < 1 then false else d[1] / 128 != 0
  }

  function PayloadType(d: seq<Byte>): nat
    requires |d| != 1
  {
    if |d| < 1 then 0 else d[1] % 128
  }

  function SequenceNumber(d: seq<Byte>): nat {
    if |d| < 4 then 0 else Be(d[2..4])
  }

  function Timestamp(d: seq<Byte>): nat {
    if |d| < 8 then 0 else Be(d[4..8])
  }

  function Ssrc(d: seq<Byte>): nat {
    if |d| < 12 then 0 else Be(d[8..12])
  }

  function Csrc(d: seq<Byte>, index: nat): nat
    requires index < CsrcCount(d) ==> BASE_LENGTH + 4 * index + 4 <= |d|
  {
    if index >= CsrcCount(d) then 0 else Be(d[BASE_LENGTH + 4 * index..BASE_LENGTH + 4 * index + 4])
  }

  function ExtensionStart(d: seq<Byte>): nat {
    BASE_LENGTH + CsrcCount(d) * 4
  }

  /** The extension header, if there is to be one, is there. */
  predicate Readable(d: seq<Byte>) {
    HasExtension(d) ==> ExtensionStart(d) + EXTENSION_LENGTH <= |d|
  }

  /** Copied from memory, so in the byte order of the host. */
  function ExtensionProfile(little: bool, d: seq<Byte>): nat
    requires Readable(d)
  {
    if !HasExtension(d) then 0 else ReadNative(little, d[ExtensionStart(d)..ExtensionStart(d) + 2])
  }

  /** Where the extension data starts and how long it is. */
  function ExtensionSpan(d: seq<Byte>): (nat, nat)
    requires Readable(d)
  {
    if !HasExtension(d) then (0, 0)
    else (ExtensionStart(d) + EXTENSION_LENGTH, 4 * Be(d[ExtensionStart(d) + 2..ExtensionStart(d) + 4]))
  }

  function HeaderTotalLength(d: seq<Byte>): nat
    requires Readable(d)
  {
    BASE_LENGTH + CsrcCount(d) * 4 + if HasExtension(d) then EXTENSION_LENGTH + ExtensionSpan(d).1 else 0
  }

  function PayloadData(d: seq<Byte>): seq<Byte>
    requires Readable(d)
  {
    if |d| < HeaderTotalLength(d) then [] else d[HeaderTotalLength(d)..]
  }

  predicate Validate(d: seq<Byte>)
    requires Readable(d)
  {
    |d| >= BASE_LENGTH && |d| >= HeaderTotalLength(d) && Version(d) == 2
  }

  // ----- the header on the wire -----

  datatype Extension = Extension(profile: nat, words: seq<nat>)

  datatype Header = Header(
    padding: bool,
    marker: bool,
    payloadType: nat,
    sequenceNumber: nat,
    timestamp: nat,
    ssrc: nat,
    csrcs: seq<nat>,
    extension: Option<Extension>) {

    predicate Valid() {
      payloadType < 128 && sequenceNumber < UINT16 && timestamp < UINT32 && ssrc < UINT32 && |csrcs| < 16 &&
      (forall i :: 0 <= i < |csrcs| ==> csrcs[i] < UINT32) &&
      (extension.Some? ==> extension.value.profile < UINT16 && |extension.value.words| < UINT16)
    }
  }

  function FirstByte(h: Header): Byte
    requires h.Valid()
  {
    128 + (if h.padding then 32 else 0) + (if h.extension.Some? then 16 else 0) + |h.csrcs|
  }

  function SecondByte(h: Header): Byte
    requires h.Valid()
  {
    (if h.marker then 128 else 0) + h.payloadType
  }

  function Fixed(h: Header): (s: seq<Byte>)
    requires h.Valid()
    ensures |s| == BASE_LENGTH
  {
    [FirstByte(h), SecondByte(h)] + ToBe(h.sequenceNumber, 2) + ToBe(h.timestamp, 4) + ToBe(h.ssrc, 4)
  }

  function ExtensionBytes(e: Extension): (s: seq<Byte>)
    ensures |s| == EXTENSION_LENGTH + 4 * |e.words|
  {
    ToBe(e.profile, 2) + ToBe(|e.words|, 2) + Words(e.words)
  }

  function Tail(h: Header): seq<Byte> {
    if h.extension.Some? then ExtensionBytes(h.extension.value) else []
  }

  /** The header as RFC 3550 lays it out. */
  function HeaderBytes(h: Header): seq<Byte>
    requires h.Valid()
  {
    Fixed(h) + Words(h.csrcs) + Tail(h)
  }

  /** The packet: header and payload. */
  function PacketBytes(h: Header, payload: seq<Byte>): seq<Byte>
    requires h.Valid()
  {
    HeaderBytes(h) + payload
  }

  lemma FirstByteBits(h: Header)
    requires h.Valid()
    ensures var b := FirstByte(h);
      b / 64 == 2 && (b / 32 % 2 != 0 <==> h.padding) && (b / 16 % 2 != 0 <==> h.extension.Some?) && b % 16 == |h.csrcs|
  {
  }

  lemma FixedParts(h: Header, rest: seq<Byte>)
    requires h.Valid()
    ensures var d := Fixed(h) + rest;
      && d[0] == FirstByte(h) && d[1] == SecondByte(h)
      && d[2..4] == ToBe(h.sequenceNumber, 2) && d[4..8] == ToBe(h.timestamp, 4) && d[8..12] == ToBe(h.ssrc, 4)
  {
  }

  /** The fixed part comes back whatever follows it. */
  lemma FixedRoundTrip(h: Header, rest: seq<Byte>)
    requires h.Valid()
    ensures var d := Fixed(h) + rest;
      && Version(d) == 2 && Padding(d) == h.padding && HasExtension(d) == h.extension.Some? && CsrcCount(d) == |h.csrcs|
      && Marker(d) == h.marker && PayloadType(d) == h.payloadType
      && SequenceNumber(d) == h.sequenceNumber && Timestamp(d) == h.timestamp && Ssrc(d) == h.ssrc
  {
    hide FirstByte, Fixed, Be, ToBe;
    var d := Fixed(h) + rest;
    FirstByteBits(h);
    FixedParts(h, rest);
    PowersAre();
    BeOfToBe(h.sequenceNumber, 2);
    BeOfToBe(h.timestamp, 4);
    BeOfToBe(h.ssrc, 4);
  }

  lemma CsrcPart(h: Header, rest: seq<Byte>, index: nat)
    requires h.Valid() && index < |h.csrcs|
    ensures var d := Fixed(h) + (Words(h.csrcs) + rest);
      d[BASE_LENGTH + 4 * index..BASE_LENGTH + 4 * index + 4] == ToBe(h.csrcs[index], 4)
  {
    hide Fixed, ToBe;
    WordAt(h.csrcs, index);
    var d := Fixed(h) + (Words(h.csrcs) + rest);
    assert d[BASE_LENGTH + 4 * index..BASE_LENGTH + 4 * index + 4] == Words(h.csrcs)[4 * index..4 * index + 4];
  }

  /** The slices of a concatenation. */
  lemma Slices(front: seq<Byte>, a: seq<Byte>, b: seq<Byte>, c: seq<Byte>, rest: seq<Byte>)
    ensures var (d, i) := (front + (a + b + c + rest), |front|);
      && d[i..i + |a|] == a && d[i + |a|..i + |a| + |b|] == b
      && d[i + |a| + |b|..i + |a| + |b| + |c|] == c && d[i + |a| + |b| + |c|..] == rest
  {
  }

  lemma ExtensionPart(h: Header, rest: seq<Byte>)
    requires h.Valid() && h.extension.Some?
    ensures var (d, start, e) := (Fixed(h) + (Words(h.csrcs) + (ExtensionBytes(h.extension.value) + rest)), BASE_LENGTH + 4 * |h.csrcs|, h.extension.value);
      && start + 4 + 4 * |e.words| + |rest| == |d|
      && d[start..start + 2] == ToBe(e.profile, 2) && d[start + 2..start + 4] == ToBe(|e.words|, 2)
      && d[start + 4..start + 4 + 4 * |e.words|] == Words(e.words) && d[start + 4 + 4 * |e.words|..] == rest
  {
    hide Fixed, ToBe, Words;
    var e := h.extension.value;
    Slices(Fixed(h) + Words(h.csrcs), ToBe(e.profile, 2), ToBe(|e.words|, 2), Words(e.words), rest);
    assert Fixed(h) + (Words(h.csrcs) + (ExtensionBytes(e) + rest)) == (Fixed(h) + Words(h.csrcs)) + (ExtensionBytes(e) + rest);
  }

  lemma PacketIs(h: Header, payload: seq<Byte>)
    requires h.Valid()
    ensures PacketBytes(h, payload) == Fixed(h) + (Words(h.csrcs) + (Tail(h) + payload))
  {
  }

  lemma CsrcBack(h: Header, payload: seq<Byte>, i: nat)
    requires h.Valid() && i < |h.csrcs|
    ensures var d := PacketBytes(h, payload);
      BASE_LENGTH + 4 * i + 4 <= |d| && Csrc(d, i) == h.csrcs[i]
  {
    hide Fixed, Be, ToBe, Words, Tail, PacketBytes;
    PacketIs(h, payload);
    FixedRoundTrip(h, Words(h.csrcs) + (Tail(h) + payload));
    CsrcPart(h, Tail(h) + payload, i);
    PowersAre();
    BeOfToBe(h.csrcs[i], 4);
  }

  /** The view of a packet validates, its header and payload lengths add up to its size, and it
      returns every contributing source, the extension and the payload. */
  lemma PacketRoundTrip(h: Header, payload: seq<Byte>)
    requires h.Valid()
    ensures var d := PacketBytes(h, payload);
      && Readable(d) && Validate(d)
      && HeaderTotalLength(d) == |HeaderBytes(h)| && HeaderTotalLength(d) + |PayloadData(d)| == |d| && PayloadData(d) == payload
      && (forall i :: 0 <= i < |h.csrcs| ==> BASE_LENGTH + 4 * i + 4 <= |d| && Csrc(d, i) == h.csrcs[i])
      && (h.extension.Some? ==>
          var (start, size) := ExtensionSpan(d);
          start + size <= |d| && d[start..start + size] == Words(h.extension.value.words))
  {
    hide Fixed, Be, ToBe, Words;
    var d := PacketBytes(h, payload);
    PacketIs(h, payload);
    FixedRoundTrip(h, Words(h.csrcs) + (Tail(h) + payload));
    if h.extension.Some? {
      ExtensionPart(h, payload);
      PowersAre();
      BeOfToBe(|h.extension.value.words|, 2);
    } else {
      assert d == Fixed(h) + Words(h.csrcs) + payload;
    }
    forall i | 0 <= i < |h.csrcs|
      ensures BASE_LENGTH + 4 * i + 4 <= |d| && Csrc(d, i) == h.csrcs[i]
    {
      CsrcBack(h, payload, i);
    }
  }

  /** The profile of the extension comes back exactly on a big-endian host or when its two bytes are
      equal. */
  lemma ProfileRoundTripIff(little: bool, h: Header, payload: seq<Byte>)
    requires h.Valid() && h.extension.Some?
    ensures var d := PacketBytes(h, payload);
      Readable(d) &&
      (ExtensionProfile(little, d) == h.extension.value.profile <==>
       !little || h.extension.value.profile / 256 == h.extension.value.profile % 256)
  {
    hide Fixed, Words, Be, ToBe, Power, ReadNative, PacketBytes, Validate, HeaderBytes, PayloadData, Csrc, ExtensionBytes, Reversed;
    var (d, p) := (PacketBytes(h, payload), h.extension.value.profile);
    PacketIs(h, payload);
    PacketRoundTrip(h, payload);
    FixedRoundTrip(h, Words(h.csrcs) + (Tail(h) + payload));
    ExtensionPart(h, payload);
    PowersAre();
    BeOfToBe(p, 2);
    NativeIsBigIff(little, ToBe(p, 2));
    TwoBytes(p);
  }

  lemma TwoBytes(p: nat)
    requires p < UINT16
    ensures Reversed(ToBe(p, 2)) == ToBe(p, 2) <==> p / 256 == p % 256
  {
    var s := ToBe(p, 2);
    assert ToBe(p / 256, 1) == ToBe(p / 256 / 256, 0) + [p / 256 % 256];
    assert s == [p / 256, p % 256];
    if p / 256 == p % 256 {
      assert Reversed(s) == s;
    } else {
      assert Reversed(s)[0] == s[1];
    }
  }

  function Bit(b: bool): nat {
    if b then 1 else 0
  }

  /** The first two bytes, put together from the fields that the view shows. */
  function BitsOf(d: seq<Byte>): (nat, nat)
    requires |d| >= 2
  {
    (Version(d) * 64 + Bit(Padding(d)) * 32 + Bit(HasExtension(d)) * 16 + CsrcCount(d), Bit(Marker(d)) * 128 + PayloadType(d))
  }

  /** Whatever the first twelve bytes are, the fields that the view shows make them up. */
  lemma FieldsMakeUp(d: seq<Byte>)
    requires |d| >= BASE_LENGTH
    ensures BitsOf(d) == (d[0] as nat, d[1] as nat)
    ensures d[2..12] == ToBe(SequenceNumber(d), 2) + ToBe(Timestamp(d), 4) + ToBe(Ssrc(d), 4)
  {
    hide Be, ToBe;
    ToBeOfBe(d[2..4]);
    ToBeOfBe(d[4..8]);
    ToBeOfBe(d[8..12]);
    BitsMakeUp(d);
    assert d[2..12] == d[2..4] + d[4..8] + d[8..12];
  }

  lemma BitsMakeUp(d: seq<Byte>)
    requires |d| >= 2
    ensures BitsOf(d) == (d[0] as nat, d[1] as nat)
  {
    ByteBits(d[0]);
    ByteBits(d[1]);
  }

  lemma ByteBits(n: Byte)
    ensures n / 64 * 64 + Bit(n / 32 % 2 != 0) * 32 + Bit(n / 16 % 2 != 0) * 16 + n % 16 == n
    ensures Bit(n / 128 != 0) * 128 + n % 128 == n
  {
    assert n / 32 == n / 64 * 2 + n / 32 % 2 && n / 16 == n / 32 * 2 + n / 16 % 2 && n == n / 16 * 16 + n % 16;
    assert n == n / 128 * 128 + n % 128;
  }

  /** A packet cut off within its header is not valid and has no payload; one cut off later is valid and has
      what is left of its payload. */
  lemma CutIsInvalid(h: Header, payload: seq<Byte>, n: nat)
    requires h.Valid() && n <= |PacketBytes(h, payload)| && Readable(PacketBytes(h, payload)[..n])
    ensures var d := PacketBytes(h, payload);
      && (Validate(d[..n]) <==> n >= |HeaderBytes(h)|)
      && PayloadData(d[..n]) == if n < |HeaderBytes(h)| then [] else payload[..n - |HeaderBytes(h)|]
  {
    hide Fixed, Be, ToBe, Words, HeaderBytes;
    var d := PacketBytes(h, payload);
    PacketRoundTrip(h, payload);
    HeaderIsLonger(h);
    if n >= BASE_LENGTH {
      SameLength(d, d[..n]);
      assert n >= |HeaderBytes(h)| ==> d[..n][|HeaderBytes(h)|..] == payload[..n - |HeaderBytes(h)|];
    }
  }

  lemma HeaderIsLonger(h: Header)
    requires h.Valid()
    ensures |HeaderBytes(h)| >= BASE_LENGTH
  {
  }

  /** What is not there reads as zero. */
  lemma ShortReadsZero(d: seq<Byte>)
    ensures |d| < 1 ==> Version(d) == CsrcCount(d) == 0 && !Padding(d) && !HasExtension(d) && !Marker(d) && PayloadType(d) == 0
    ensures (|d| < 4 ==> SequenceNumber(d) == 0) && (|d| < 8 ==> Timestamp(d) == 0) && (|d| < 12 ==> Ssrc(d) == 0)
  {
  }

  /** No source beyond the count, no profile and no data without an extension. */
  lemma AbsentReadsZero(little: bool, d: seq<Byte>, index: nat)
    requires Readable(d)
    ensures index >= CsrcCount(d) ==> Csrc(d, index) == 0
    ensures !HasExtension(d) ==> ExtensionProfile(little, d) == 0 && ExtensionSpan(d) == (0, 0)
  {
  }

  /** The length of the header is read from its first sixteen bytes and the extension header. */
  lemma SameLength(d: seq<Byte>, e: seq<Byte>)
    requires e <= d && |e| >= BASE_LENGTH && Readable(d) && Readable(e)
    ensures HeaderTotalLength(e) == HeaderTotalLength(d)
  {
    hide Be;
    assert e[0] == d[0];
    if HasExtension(d) {
      assert e[ExtensionStart(e) + 2..ExtensionStart(e) + 4] == d[ExtensionStart(d) + 2..ExtensionStart(d) + 4];
    }
  }

  lemma OtherVersionInvalid(d: seq<Byte>)
    requires d != [] && Readable(d) && !(128 <= d[0] < 192)
    ensures !Validate(d)
  {
  }

  // ----- the encoder -----

  /** The header that the encoder writes: neither padding nor marker, no sources, no extension. */
  function PlainHeader(payloadType: nat, sequenceNumber: nat, timestamp: nat, ssrc: nat): Header {
    Header(false, false, payloadType % 128, sequenceNumber, timestamp, ssrc, [], None)
  }

  class Packet {
    var payloadType: nat
    var sequenceNumber: nat
    var timestamp: nat
    var ssrc: nat

    predicate Valid()
      reads this
    {
      payloadType < UINT8 && sequenceNumber < UINT16 && timestamp < UINT32 && ssrc < UINT32
    }

    function PlainHeaderOf(): Header
      reads this
    {
      PlainHeader(payloadType, sequenceNumber, timestamp, ssrc)
    }

    constructor ()
      ensures Valid() && payloadType == sequenceNumber == timestamp == ssrc == 0
    {
      payloadType, sequenceNumber, timestamp, ssrc := 0, 0, 0, 0;
    }

    method SetPayloadType(value: nat)
      requires Valid() && value < UINT8
      modifies this`payloadType
      ensures Valid() && payloadType == value
    {
      payloadType := value;
    }

    method SetSequenceNumber(value: nat)
      requires Valid() && value < UINT16
      modifies this`sequenceNumber
      ensures Valid() && sequenceNumber == value
    {
      sequenceNumber := value;
    }

    method IncSequenceNumber(value: nat) returns (r: nat)
      requires Valid() && value < UINT16
      modifies this`sequenceNumber
      ensures Valid() && r == sequenceNumber == (old(sequenceNumber) + value) % UINT16
    {
      sequenceNumber := (sequenceNumber + value) % UINT16;
      return sequenceNumber;
    }

    method SetTimestamp(value: nat)
      requires Valid() && value < UINT32
      modifies this`timestamp
      ensures Valid() && timestamp == value
    {
      timestamp := value;
    }

    method IncTimestamp(value: nat) returns (r: nat)
      requires Valid() && value < UINT32
      modifies this`timestamp
      ensures Valid() && r == timestamp == (old(timestamp) + value) % UINT32
    {
      timestamp := (timestamp + value) % UINT32;
      return timestamp;
    }

    method SetSsrc(value: nat)
      requires Valid() && value < UINT32
      modifies this`ssrc
      ensures Valid() && ssrc == value
    {
      ssrc := value;
    }

    /** Appends the packet to what the buffer holds. */
    method Encode(little: bool, payload: seq<Byte>, buffer: ByteBuffer)
      requires Valid()
      modifies buffer
      ensures buffer.data == old(buffer.data) + PacketBytes(PlainHeaderOf(), payload)
    {
      hide ToBe, Power;
      PowersAre();
      ghost var h := PlainHeaderOf();
      buffer.WriteBigEndian(little, 0x80, 1);
      buffer.WriteBigEndian(little, payloadType % 128, 1);
      buffer.WriteBigEndian(little, sequenceNumber, 2);
      buffer.WriteBigEndian(little, timestamp, 4);
      buffer.WriteBigEndian(little, ssrc, 4);
      buffer.Write(payload);
      OneByte(0x80);
      OneByte(payloadType % 128);
      PlainBytes(h, payload);
    }
  }

  lemma OneByte(n: Byte)
    ensures ToBe(n, 1) == [n]
  {
  }

  lemma PlainBytes(h: Header, payload: seq<Byte>)
    requires h.Valid() && h.csrcs == [] && h.extension.None?
    ensures PacketBytes(h, payload) ==
      [FirstByte(h)] + [SecondByte(h)] + ToBe(h.sequenceNumber, 2) + ToBe(h.timestamp, 4) + ToBe(h.ssrc, 4) + payload
  {
  }

  /** What the view reads back from an encoded packet: the fields, of the payload type the low seven
      bits, and the payload. */
  lemma EncodedRoundTrip(payloadType: nat, sequenceNumber: nat, timestamp: nat, ssrc: nat, payload: seq<Byte>)
    requires payloadType < UINT8 && sequenceNumber < UINT16 && timestamp < UINT32 && ssrc < UINT32
    ensures var d := PacketBytes(PlainHeader(payloadType, sequenceNumber, timestamp, ssrc), payload);
      && Readable(d) && Validate(d) && |d| == BASE_LENGTH + |payload|
      && PayloadType(d) == payloadType % 128 && SequenceNumber(d) == sequenceNumber && Timestamp(d) == timestamp
      && Ssrc(d) == ssrc && PayloadData(d) == payload && !Marker(d) && !Padding(d) && !HasExtension(d) && CsrcCount(d) == 0
  {
    hide Fixed, Be, ToBe;
    var h := PlainHeader(payloadType, sequenceNumber, timestamp, ssrc);
    PacketIs(h, payload);
    PacketRoundTrip(h, payload);
    FixedRoundTrip(h, Words(h.csrcs) + (Tail(h) + payload));
  }

  // ----- a stream of packets -----

  /** The view of `d` validates it and shows these fields and this payload. */
  predicate Shows(d: seq<Byte>, payloadType: nat, sequenceNumber: nat, timestamp: nat, ssrc: nat, payload: seq<Byte>) {
    && Readable(d) && Validate(d)
    && PayloadType(d) == payloadType % 128 && Ssrc(d) == ssrc && PayloadData(d) == payload
    && SequenceNumber(d) == sequenceNumber && Timestamp(d) == timestamp
  }

  /** `d` is packet number `k` of a stream. */
  predicate IsPacket(d: seq<Byte>, k: nat, payloadType: nat, first: nat, timestamp: nat, frames: nat, ssrc: nat, payload: seq<Byte>) {
    Shows(d, payloadType, (first + k) % UINT16, (timestamp + k * frames) % UINT32, ssrc, payload)
  }

  /** Moving on from a number that has wrapped. */
  lemma NextNumbers(first: nat, timestamp: nat, k: nat, frames: nat)
    ensures ((first + k) % UINT16 + 1) % UINT16 == (first + (k + 1)) % UINT16
    ensures ((timestamp + k * frames) % UINT32 + frames) % UINT32 == (timestamp + (k + 1) * frames) % UINT32
  {
    assert (k + 1) * frames == k * frames + frames;
    Wraps(timestamp + k * frames, frames);
  }

  lemma Wraps(x: nat, d: nat)
    ensures (x % UINT32 + d) % UINT32 == (x + d) % UINT32
  {
  }

  /** Sends payloads as the audio sender does: the fields are set once, and after each packet sequence
      number and timestamp are moved on. */
  method EncodeStream(little: bool, payloadType: nat, first: nat, timestamp: nat, frames: nat, ssrc: nat, payloads: seq<seq<Byte>>)
    returns (packets: seq<seq<Byte>>)
    requires payloadType < UINT8 && first < UINT16 && timestamp < UINT32 && frames < UINT32 && ssrc < UINT32
    ensures |packets| == |payloads|
    ensures forall k :: 0 <= k < |payloads| ==> IsPacket(packets[k], k, payloadType, first, timestamp, frames, ssrc, payloads[k])
  {
    hide IsPacket, AtNumber;
    var packet := new Packet();
    packet.SetPayloadType(payloadType);
    packet.SetSsrc(ssrc);
    packet.SetSequenceNumber(first);
    packet.SetTimestamp(timestamp);
    var buffer := new ByteBuffer();
    FirstNumber(packet, first, timestamp, frames);
    packets := [];
    var i := 0;
    while i < |payloads|
      invariant 0 <= i <= |payloads| && |packets| == i && packet.Valid() && fresh(packet) && fresh(buffer)
      invariant packet.payloadType == payloadType && packet.ssrc == ssrc && AtNumber(packet, i, first, timestamp, frames)
      invariant forall k :: 0 <= k < i ==> IsPacket(packets[k], k, payloadType, first, timestamp, frames, ssrc, payloads[k])
    {
      buffer.Clear();
      EncodeNext(little, packet, i, first, timestamp, frames, payloads[i], buffer);
      packets := packets + [buffer.data];
      i := i + 1;
    }
  }

  /** The packet is about to be sent as number `k` of the stream. */
  predicate AtNumber(packet: Packet, k: nat, first: nat, timestamp: nat, frames: nat)
    reads packet
  {
    packet.sequenceNumber == (first + k) % UINT16 && packet.timestamp == (timestamp + k * frames) % UINT32
  }

  lemma FirstNumber(packet: Packet, first: nat, timestamp: nat, frames: nat)
    requires packet.Valid() && packet.sequenceNumber == first && packet.timestamp == timestamp
    ensures AtNumber(packet, 0, first, timestamp, frames)
  {
  }

  method EncodeNext(little: bool, packet: Packet, ghost k: nat, ghost first: nat, ghost timestamp: nat, frames: nat, payload: seq<Byte>,
                    buffer: ByteBuffer)
    requires packet.Valid() && AtNumber(packet, k, first, timestamp, frames) && frames < UINT32 && buffer.data == []
    modifies packet`sequenceNumber, packet`timestamp, buffer
    ensures packet.Valid() && AtNumber(packet, k + 1, first, timestamp, frames)
    ensures IsPacket(buffer.data, k, packet.payloadType, first, timestamp, frames, packet.ssrc, payload)
  {
    hide Shows, PacketBytes;
    packet.Encode(little, payload, buffer);
    assert buffer.data == PacketBytes(packet.PlainHeaderOf(), payload);
    IsShown(packet.payloadType, packet.sequenceNumber, packet.timestamp, packet.ssrc, payload);
    assert Shows(buffer.data, packet.payloadType, packet.sequenceNumber, packet.timestamp, packet.ssrc, payload);
    NextNumbers(first, timestamp, k, frames);
    var _ := packet.IncSequenceNumber(1);
    var _ := packet.IncTimestamp(frames);
  }

  lemma IsShown(payloadType: nat, sequenceNumber: nat, timestamp: nat, ssrc: nat, payload: seq<Byte>)
    requires payloadType < UINT8 && sequenceNumber < UINT16 && timestamp < UINT32 && ssrc < UINT32
    ensures var h := PlainHeader(payloadType, sequenceNumber, timestamp, ssrc);
      Shows(PacketBytes(h, payload), payloadType, sequenceNumber, timestamp, ssrc, payload)
  {
    hide PacketBytes;
    EncodedRoundTrip(payloadType, sequenceNumber, timestamp, ssrc, payload);
  }
}
