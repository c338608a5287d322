/** Numbers as bytes: big-endian on the wire, in the order of the host in memory. */
module Bytes {
  type Byte = n: nat | n < 256

  function Power(w: nat): (p: nat)
    ensures p > 0
  {
    if w == 0 then 1 else 256 * Power(w - 1)
  }

  lemma PowersAre()
    ensures Power(1) == 0x100 && Power(2) == 0x1_0000 && Power(4) == 0x1_0000_0000
  {
    assert Power(0) == 1 && Power(1) == 256 && Power(2) == 0x1_0000 && Power(3) == 0x100_0000;
  }

  /** The number whose big-endian bytes are `s`. */
  function Be(s: seq<Byte>): nat {
    if s == [] then 0 else Be(s[..|s| - 1]) * 256 + s[|s| - 1]
  }

  /** The `w` low bytes of a number, most significant first. */
  function ToBe(n: nat, w: nat): (s: seq<Byte>)
    ensures |s| == w
  {
    if w == 0 then [] else ToBe(n / 256, w - 1) + [n % 256]
  }

  lemma {:induction false} BeOfToBe(n: nat, w: nat)
    requires n < Power(w)
    ensures Be(ToBe(n, w)) == n
  {
    if w > 0 {
      BeOfToBe(n / 256, w - 1);
      assert ToBe(n, w)[..w - 1] == ToBe(n / 256, w - 1);
    }
  }

  lemma {:induction false} ToBeOfBe(s: seq<Byte>)
    ensures ToBe(Be(s), |s|) == s && Be(s) < Power(|s|)
  {
    if s != [] {
      ToBeOfBe(s[..|s| - 1]);
      assert s == s[..|s| - 1] + [s[|s| - 1]];
    }
  }

  /** The first byte is the most significant. */
  lemma {:induction false} FirstByteCounts(a: Byte, s: seq<Byte>)
    ensures Be([a] + s) == a as nat * Power(|s|) + Be(s)
  {
    if s != [] {
      var (front, last) := (s[..|s| - 1], s[|s| - 1]);
      FirstByteCounts(a, front);
      assert ([a] + s)[..|s|] == [a] + front;
      assert a as nat * Power(|front|) * 256 == a as nat * Power(|s|);
    } else {
      assert [a] + s == [a] && [a][..0] == [];
    }
  }

  function Reversed<T>(s: seq<T>): (r: seq<T>)
    ensures |r| == |s| && forall i :: 0 <= i < |s| ==> r[i] == s[|s| - 1 - i]
  {
    seq(|s|, i requires 0 <= i < |s| => s[|s| - 1 - i])
  }

  lemma ReversedTwice<T>(s: seq<T>)
    ensures Reversed(Reversed(s)) == s
  {
  }

  // ----- the byte order of the host -----

  /** The bytes of a number in the memory of the host. */
  function Memory(little: bool, n: nat, w: nat): seq<Byte> {
    if little then Reversed(ToBe(n, w)) else ToBe(n, w)
  }

  /** The number that the host sees in memory. */
  function ReadNative(little: bool, s: seq<Byte>): nat {
    if little then Be(Reversed(s)) else Be(s)
  }

  function SwapValue(n: nat, w: nat): nat {
    Be(Reversed(ToBe(n, w)))
  }

  function SwapIfLittle(little: bool, n: nat, w: nat): nat {
    if little then SwapValue(n, w) else n
  }

  function ReadBe(little: bool, s: seq<Byte>): nat {
    SwapIfLittle(little, ReadNative(little, s), |s|)
  }

  function WriteBe(little: bool, n: nat, w: nat): seq<Byte> {
    Memory(little, SwapIfLittle(little, n, w), w)
  }

  lemma SwapTwice(n: nat, w: nat)
    requires n < Power(w)
    ensures SwapValue(SwapValue(n, w), w) == n && SwapValue(n, w) < Power(w)
  {
    var s := Reversed(ToBe(n, w));
    ToBeOfBe(s);
    ReversedTwice(ToBe(n, w));
    BeOfToBe(n, w);
  }

  /** On either kind of host reading and writing big-endian means the same bytes, and reading undoes
      writing. */
  lemma BigEndianOnAnyHost(little: bool, n: nat, s: seq<Byte>)
    requires n < Power(|s|)
    ensures ReadBe(little, s) == Be(s) && WriteBe(little, n, |s|) == ToBe(n, |s|)
    ensures ReadBe(little, WriteBe(little, n, |s|)) == n
  {
    ReadBeIsBig(little, s);
    WriteBeIsBig(little, n, |s|);
    ReadBeIsBig(little, ToBe(n, |s|));
    BeOfToBe(n, |s|);
  }

  lemma ReadBeIsBig(little: bool, s: seq<Byte>)
    ensures ReadBe(little, s) == Be(s)
  {
    if little {
      ToBeOfBe(Reversed(s));
      ReversedTwice(s);
    }
  }

  lemma WriteBeIsBig(little: bool, n: nat, w: nat)
    requires n < Power(w)
    ensures WriteBe(little, n, w) == ToBe(n, w)
  {
    if little {
      ToBeOfBe(Reversed(ToBe(n, w)));
      ReversedTwice(ToBe(n, w));
    }
  }

  /** In a window of the native order a number comes out right exactly on a big-endian host or when its
      bytes are the same both ways. */
  lemma NativeIsBigIff(little: bool, s: seq<Byte>)
    ensures ReadNative(little, s) == Be(s) <==> !little || Reversed(s) == s
  {
    if little && Be(Reversed(s)) == Be(s) {
      ToBeOfBe(s);
      ToBeOfBe(Reversed(s));
    }
  }

  /** A sequence of 32-bit words. */
  function Words(ws: seq<nat>): (s: seq<Byte>)
    ensures |s| == 4 * |ws|
  {
    if ws == [] then [] else ToBe(ws[0], 4) + Words(ws[1..])
  }

  lemma {:induction false} WordAt(ws: seq<nat>, i: nat)
    requires i < |ws|
    ensures Words(ws)[4 * i..4 * i + 4] == ToBe(ws[i], 4)
  {
    if i > 0 {
      WordAt(ws[1..], i - 1);
      assert Words(ws)[4 * i..4 * i + 4] == Words(ws[1..])[4 * (i - 1)..4 * (i - 1) + 4];
    }
  }

  /** The buffer that packets are written to. */
  class ByteBuffer {
    var data: seq<Byte>

    constructor ()
      ensures data == []
    {
      data := [];
    }

    method Clear()
      modifies this
      ensures data == []
    {
      data := [];
    }

    method Write(bytes: seq<Byte>)
      modifies this
      ensures data == old(data) + bytes
    {
      data := data + bytes;
    }

    method WriteBigEndian(little: bool, value: nat, width: nat)
      requires value < Power(width)
      modifies this
      ensures data == old(data) + ToBe(value, width)
    {
      WriteBeIsBig(little, value, width);
      Write(Memory(little, SwapIfLittle(little, value, width), width));
    }
  }
}
