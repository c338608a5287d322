/** Sequences cut into blocks of equal size, and the loops that move and swap them in place. */
module Blocks {
  import opened Bytes

  lemma BlockFits(k: nat, n: nat, w: nat)
    requires k < n
    ensures k * w + w <= n * w
  {
    assert (k + 1) * w <= n * w;
  }

  lemma BlocksApart(j: nat, k: nat, w: nat)
    requires j != k
    ensures j * w + w <= k * w || k * w + w <= j * w
  {
    if j < k {
      BlockFits(j, k, w);
    } else {
      BlockFits(k, j, w);
    }
  }

  /** The `k`-th block of `w` elements. */
  function Block<T>(s: seq<T>, k: nat, w: nat): (b: seq<T>)
    requires k * w + w <= |s|
    ensures |b| == w && forall i :: 0 <= i < w ==> b[i] == s[k * w + i]
  {
    s[k * w..k * w + w]
  }

  /** Sequences with the same blocks are the same. */
  lemma BlocksDetermine<T>(s: seq<T>, t: seq<T>, n: nat, w: nat)
    requires |s| == n * w == |t|
    requires forall k :: 0 <= k < n ==> k * w + w <= n * w && Block(s, k, w) == Block(t, k, w)
    ensures s == t
  {
    forall i | 0 <= i < |s|
      ensures s[i] == t[i]
    {
      var k := i / w;
      InBlock(i, n, w);
      assert Block(s, k, w)[i - k * w] == Block(t, k, w)[i - k * w];
    }
  }

  lemma QuotientBelow(q: nat, n: nat, w: nat)
    ensures q >= n ==> q * w >= n * w
  {
    if q >= n {
      assert q * w == n * w + (q - n) * w;
    }
  }

  lemma InBlock(i: nat, n: nat, w: nat)
    requires i < n * w
    ensures w > 0 && i / w < n && i / w * w <= i < i / w * w + w
  {
    assert w > 0;
    QuotientBelow(i / w, n, w);
  }

  // ----- in place -----

  /** Swaps the bytes of the first `size` elements end to end. */
  method SwapBytes(data: array<Byte>, size: nat)
    requires size <= data.Length
    modifies data
    ensures data[..size] == Reversed(old(data[..size])) && data[size..] == old(data[size..])
  {
    SwapRange(data, 0, size);
  }

  function Opposite(from: nat, size: nat, k: int): int {
    from + from + size - 1 - k
  }

  /** The first and the last `j` of the elements from `from` on have changed places. */
  ghost predicate SwappedUpTo(s: seq<Byte>, t: seq<Byte>, from: nat, size: nat, j: nat) {
    from + size <= |s| == |t| && j <= size / 2 &&
    forall k :: 0 <= k < |t| ==>
      t[k] == if from <= k < from + j || from + size - j <= k < from + size then s[Opposite(from, size, k)] else s[k]
  }

  lemma NothingSwapped(s: seq<Byte>, from: nat, size: nat)
    requires from + size <= |s|
    ensures SwappedUpTo(s, s, from, size, 0)
  {
  }

  lemma SwapOn(s: seq<Byte>, t: seq<Byte>, u: seq<Byte>, from: nat, size: nat, j: nat)
    requires j < size / 2 && SwappedUpTo(s, t, from, size, j)
    requires var (a, b) := (from + j, from + size - j - 1); u == t[a := t[b]][b := t[a]]
    ensures SwappedUpTo(s, u, from, size, j + 1)
  {
  }

  lemma AllSwapped(s: seq<Byte>, t: seq<Byte>, from: nat, size: nat)
    requires SwappedUpTo(s, t, from, size, size / 2)
    ensures from + size <= |s| == |t| && t[from..from + size] == Reversed(s[from..from + size])
    ensures forall k :: 0 <= k < |t| && !(from <= k < from + size) ==> t[k] == s[k]
  {
    assert from + size <= |s| == |t|;
    hide SwappedUpTo;
    var (before, after) := (s[from..from + size], t[from..from + size]);
    forall k | 0 <= k < size
      ensures after[k] == Reversed(before)[k]
    {
      SwappedAt(s, t, from, size, k);
    }
    forall k | 0 <= k < |t| && !(from <= k < from + size)
      ensures t[k] == s[k]
    {
      Outside(s, t, from, size, k);
    }
  }

  lemma SwappedAt(s: seq<Byte>, t: seq<Byte>, from: nat, size: nat, k: nat)
    requires SwappedUpTo(s, t, from, size, size / 2) && k < size
    ensures t[from + k] == s[from + (size - 1 - k)]
  {
    var half := size / 2;
    assert half + half == size || half + half + 1 == size;
    assert Opposite(from, size, from + k) == from + (size - 1 - k);
  }

  lemma Outside(s: seq<Byte>, t: seq<Byte>, from: nat, size: nat, k: nat)
    requires SwappedUpTo(s, t, from, size, size / 2) && k < |t| && !(from <= k < from + size)
    ensures t[k] == s[k]
  {
  }

  /** The loop that both kinds of swap run. */
  method SwapRange(data: array<Byte>, from: nat, size: nat)
    requires from + size <= data.Length
    modifies data
    ensures data[from..from + size] == Reversed(old(data[from..from + size]))
    ensures forall k :: 0 <= k < data.Length && !(from <= k < from + size) ==> data[k] == old(data[k])
  {
    hide SwappedUpTo;
    ghost var s := data[..];
    NothingSwapped(s, from, size);
    var j := 0;
    while j < size / 2
      invariant 0 <= j <= size / 2
      invariant SwappedUpTo(s, data[..], from, size, j)
    {
      ghost var before := data[..];
      data[from + j], data[from + size - j - 1] := data[from + size - j - 1], data[from + j];
      SwapOn(s, before, data[..], from, size, j);
      j := j + 1;
    }
    AllSwapped(s, data[..], from, size);
    assert data[..][from..from + size] == data[from..from + size] && s[from..from + size] == old(data[from..from + size]);
  }

  /** Every block of `w` is reversed. */
  ghost predicate BlocksReversed(s: seq<Byte>, t: seq<Byte>, n: nat, w: nat) {
    |s| == n * w == |t| &&
    forall k :: 0 <= k < n ==> k * w + w <= n * w && Block(t, k, w) == Reversed(Block(s, k, w))
  }

  /** Swapping twice changes nothing. */
  lemma SwapBlocksTwice(s: seq<Byte>, t: seq<Byte>, u: seq<Byte>, n: nat, w: nat)
    requires BlocksReversed(s, t, n, w) && BlocksReversed(t, u, n, w)
    ensures u == s
  {
    forall k | 0 <= k < n
      ensures k * w + w <= n * w && Block(u, k, w) == Block(s, k, w)
    {
      BlockFits(k, n, w);
      ReversedTwice(Block(s, k, w));
    }
    BlocksDetermine(u, s, n, w);
  }

  ghost predicate IsReversedBlock(s: seq<Byte>, t: seq<Byte>, k: nat, w: nat) {
    k * w + w <= |s| == |t| && Block(t, k, w) == Reversed(Block(s, k, w))
  }

  ghost predicate IsSameBlock<T>(s: seq<T>, t: seq<T>, k: nat, w: nat) {
    k * w + w <= |s| == |t| && Block(t, k, w) == Block(s, k, w)
  }

  /** A change within one block leaves the others. */
  lemma BlockUntouched<T>(s: seq<T>, t: seq<T>, i: nat, g: nat, k: nat, w: nat)
    requires |s| == |t| && i == g * w && k != g && k * w + w <= |s|
    requires forall j :: 0 <= j < |s| && !(i <= j < i + w) ==> t[j] == s[j]
    ensures IsSameBlock(s, t, k, w)
  {
    BlocksApart(k, g, w);
    SliceUntouched(s, t, k * w, i, w);
  }

  lemma SliceUntouched<T>(s: seq<T>, t: seq<T>, at: nat, from: nat, w: nat)
    requires |s| == |t| && at + w <= |s| && (at + w <= from || from + w <= at)
    requires forall j :: 0 <= j < |s| && !(from <= j < from + w) ==> t[j] == s[j]
    ensures t[at..at + w] == s[at..at + w]
  {
  }

  /** Reverses one block and leaves the others. */
  method SwapBlock(data: array<Byte>, i: nat, w: nat, ghost g: nat)
    requires i == g * w && i + w <= data.Length
    modifies data
    ensures IsReversedBlock(old(data[..]), data[..], g, w)
    ensures forall k: nat :: k != g && k * w + w <= data.Length ==> IsSameBlock(old(data[..]), data[..], k, w)
    ensures forall k :: g * w + w <= k < data.Length ==> data[k] == old(data[k])
  {
    hide IsReversedBlock, IsSameBlock;
    ghost var before := data[..];
    SwapRange(data, i, w);
    assert data[..][i..i + w] == data[i..i + w] && before[i..i + w] == old(data[i..i + w]);
    BlockSwapped(before, data[..], i, g, w);
  }

  lemma BlockSwapped(s: seq<Byte>, t: seq<Byte>, i: nat, g: nat, w: nat)
    requires i == g * w && i + w <= |s| == |t| && t[i..i + w] == Reversed(s[i..i + w])
    requires forall k :: 0 <= k < |s| && !(i <= k < i + w) ==> t[k] == s[k]
    ensures IsReversedBlock(s, t, g, w)
    ensures forall k: nat :: k != g && k * w + w <= |s| ==> IsSameBlock(s, t, k, w)
  {
    forall k: nat | k != g && k * w + w <= |s|
      ensures IsSameBlock(s, t, k, w)
    {
      BlockUntouched(s, t, i, g, k, w);
    }
  }

  lemma ReversedPrefix(s: seq<Byte>, t: seq<Byte>, n: nat, w: nat)
    requires n * w <= |s| == |t|
    requires forall k :: 0 <= k < n ==> IsReversedBlock(s, t, k, w)
    ensures BlocksReversed(s[..n * w], t[..n * w], n, w)
  {
    forall k | 0 <= k < n
      ensures k * w + w <= n * w && Block(t[..n * w], k, w) == Reversed(Block(s[..n * w], k, w))
    {
      BlockFits(k, n, w);
      assert IsReversedBlock(s, t, k, w);
      assert Block(t[..n * w], k, w) == Block(t, k, w) && Block(s[..n * w], k, w) == Block(s, k, w);
    }
  }

  /** Swaps the bytes of every `stride` among the first `size`, which must be a whole number of them. */
  method SwapBytesStrided(data: array<Byte>, size: nat, stride: nat)
    requires size <= data.Length && (stride > 1 ==> size % stride == 0)
    modifies data
    ensures data[size..] == old(data[size..])
    ensures stride <= 1 ==> data[..size] == old(data[..size])
    ensures stride > 1 ==> BlocksReversed(old(data[..size]), data[..size], size / stride, stride)
  {
    hide IsReversedBlock, IsSameBlock, ReversedUpTo;
    if size == 0 || stride <= 1 {
      return;
    }
    ghost var s := data[..];
    ghost var (n, g) := (size / stride, 0);
    assert size == n * stride;
    NothingReversed(s, n, stride);
    var i := 0;
    while i < size
      invariant 0 <= g <= n && i == g * stride
      invariant ReversedUpTo(s, data[..], g, n, stride)
      invariant data[size..] == old(data[size..])
      decreases size - i
    {
      QuotientBelow(g, n, stride);
      BlockFits(g, n, stride);
      ghost var before := data[..];
      SwapBlock(data, i, stride, g);
      ReversedOn(s, before, data[..], g, n, stride);
      NextBlock(g, stride);
      g := g + 1;
      i := i + stride;
    }
    QuotientBelow(n, g, stride);
    AllReversed(s, data[..], n, stride);
    assert data[..][..size] == data[..size] && s[..size] == old(data[..size]);
  }

  /** Of `n` blocks the first `g` are reversed and the others unchanged. */
  ghost predicate ReversedUpTo(s: seq<Byte>, t: seq<Byte>, g: nat, n: nat, w: nat) {
    (forall k :: 0 <= k < g ==> IsReversedBlock(s, t, k, w)) &&
    forall k :: g <= k < n ==> IsSameBlock(s, t, k, w)
  }

  lemma NothingReversed(s: seq<Byte>, n: nat, w: nat)
    requires n * w <= |s|
    ensures ReversedUpTo(s, s, 0, n, w)
  {
    forall k: nat | k < n
      ensures IsSameBlock(s, s, k, w)
    {
      BlockFits(k, n, w);
    }
  }

  lemma ReversedOn(s: seq<Byte>, before: seq<Byte>, after: seq<Byte>, g: nat, n: nat, w: nat)
    requires ReversedUpTo(s, before, g, n, w) && g < n && n * w <= |s|
    requires |s| == |before| && IsReversedBlock(before, after, g, w)
    requires forall k: nat :: k != g && k * w + w <= |s| ==> IsSameBlock(before, after, k, w)
    ensures ReversedUpTo(s, after, g + 1, n, w)
  {
    hide IsReversedBlock, IsSameBlock;
    forall k: nat | k < n
      ensures if k <= g then IsReversedBlock(s, after, k, w) else IsSameBlock(s, after, k, w)
    {
      BlockFits(k, n, w);
      AfterSwap(s, before, after, k, w);
    }
  }

  lemma AllReversed(s: seq<Byte>, t: seq<Byte>, n: nat, w: nat)
    requires n * w <= |s| == |t| && ReversedUpTo(s, t, n, n, w)
    ensures BlocksReversed(s[..n * w], t[..n * w], n, w)
  {
    hide IsReversedBlock, IsSameBlock, BlocksReversed;
    ReversedPrefix(s, t, n, w);
  }

  lemma NextBlock(g: nat, w: nat)
    ensures (g + 1) * w == g * w + w
  {
  }

  lemma AfterSwap(s: seq<Byte>, before: seq<Byte>, after: seq<Byte>, k: nat, w: nat)
    requires k * w + w <= |s|
    ensures IsReversedBlock(s, before, k, w) && IsSameBlock(before, after, k, w) ==> IsReversedBlock(s, after, k, w)
    ensures IsSameBlock(s, before, k, w) && IsReversedBlock(before, after, k, w) ==> IsReversedBlock(s, after, k, w)
    ensures IsSameBlock(s, before, k, w) && IsSameBlock(before, after, k, w) ==> IsSameBlock(s, after, k, w)
  {
  }
}
