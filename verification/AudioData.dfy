/** Interleaving audio samples, as bytes and as typed samples behind channel pointers. */
module AudioData {
  import opened Bytes
  import opened Blocks

  // ----- interleaving bytes -----

  /** Where the sample at position `k` of a transposed table of `rows` by `cols` comes from. */
  function Source(k: nat, rows: nat, cols: nat): nat
    requires rows > 0
  {
    k % rows * cols + k / rows
  }

  lemma Decompose(i: nat, n: nat)
    requires n > 0
    ensures i == i / n * n + i % n
  {
  }

  lemma RowColumn(r: nat, c: nat, cols: nat)
    requires c < cols
    ensures (r * cols + c) / cols == r && (r * cols + c) % cols == c
  {
    var k := r * cols + c;
    Decompose(k, cols);
    QuotientBelow(k / cols, r + 1, cols);
    QuotientBelow(r, k / cols + 1, cols);
    assert (r + 1) * cols == r * cols + cols;
    assert (k / cols + 1) * cols == k / cols * cols + cols;
  }

  lemma RowColumnBelow(r: nat, c: nat, rows: nat, cols: nat)
    requires r < rows && c < cols
    ensures r * cols + c < rows * cols
  {
    BlockFits(r, rows, cols);
  }

  /** Transposing twice leads every sample back to its place: the index maps are inverse. */
  lemma SourceInverse(k: nat, rows: nat, cols: nat)
    requires k < rows * cols
    ensures rows > 0 && cols > 0 && Source(k, rows, cols) < rows * cols
    ensures Source(Source(k, rows, cols), cols, rows) == k
  {
    ProductCommutes(rows, cols, 1);
    InBlock(k, cols, rows);
    Decompose(k, rows);
    var (r, c) := (k % rows, k / rows);
    RowColumnBelow(r, c, rows, cols);
    RowColumn(r, c, cols);
    Reordered(k, r, c, r * cols + c, rows, cols);
  }

  lemma Reordered(k: nat, r: nat, c: nat, i: nat, rows: nat, cols: nat)
    requires rows > 0 && cols > 0 && r == k % rows && c == k / rows && k == c * rows + r
    requires i == r * cols + c && i / cols == r && i % cols == c
    ensures Source(k, rows, cols) == i && Source(i, cols, rows) == k
  {
  }

  /** Block `i` of `s` is block `k` of `t`. */
  ghost predicate SameBlockAt<T>(s: seq<T>, i: nat, t: seq<T>, k: nat, w: nat) {
    i * w + w <= |s| && k * w + w <= |t| && Block(t, k, w) == Block(s, i, w)
  }

  /** Block `k` of `t` is the block of `s` that belongs there. */
  ghost predicate Moved<T>(s: seq<T>, t: seq<T>, k: nat, rows: nat, cols: nat, w: nat) {
    rows > 0 && SameBlockAt(s, Source(k, rows, cols), t, k, w)
  }

  /** `t` holds the samples of the table `s` of `rows` by `cols`, column by column. */
  ghost predicate IsTransposed<T>(s: seq<T>, t: seq<T>, rows: nat, cols: nat, w: nat) {
    |s| == rows * cols * w == |t| && forall k: nat :: k < rows * cols ==> Moved(s, t, k, rows, cols, w)
  }

  /** Transposed means: the sample of a row and a column lies at that column and row. */
  lemma TransposedAt<T>(s: seq<T>, t: seq<T>, rows: nat, cols: nat, w: nat, r: nat, c: nat)
    requires IsTransposed(s, t, rows, cols, w) && r < rows && c < cols
    ensures SameBlockAt(s, r * cols + c, t, c * rows + r, w)
  {
    RowColumn(c, r, rows);
    RowColumnBelow(c, r, cols, rows);
    assert cols * rows == rows * cols;
    assert Moved(s, t, c * rows + r, rows, cols, w);
  }

  lemma ProductCommutes(rows: nat, cols: nat, w: nat)
    ensures rows * cols * w == cols * rows * w && rows * cols == cols * rows
  {
    assert rows * cols == cols * rows;
  }

  /** Transposing back gives the table. */
  lemma TransposedBack<T>(s: seq<T>, t: seq<T>, u: seq<T>, rows: nat, cols: nat, w: nat)
    requires IsTransposed(s, t, rows, cols, w) && IsTransposed(t, u, cols, rows, w)
    ensures u == s
  {
    ProductCommutes(rows, cols, w);
    forall k: nat | k < rows * cols
      ensures k * w + w <= rows * cols * w && Block(u, k, w) == Block(s, k, w)
    {
      BlockFits(k, rows * cols, w);
      SourceInverse(k, cols, rows);
      assert Moved(t, u, k, cols, rows, w);
      assert Moved(s, t, Source(k, cols, rows), rows, cols, w);
    }
    BlocksDetermine(u, s, rows * cols, w);
  }

  /** Stands for std::memcpy. */
  method CopyBytes(output: array<Byte>, to: nat, input: array<Byte>, from: nat, n: nat)
    requires to + n <= output.Length && from + n <= input.Length && input != output
    modifies output
    ensures output[to..to + n] == input[from..from + n]
    ensures forall j :: 0 <= j < output.Length && !(to <= j < to + n) ==> output[j] == old(output[j])
  {
    var i := 0;
    while i < n
      invariant 0 <= i <= n && output[to..to + i] == input[from..from + i]
      invariant forall j :: 0 <= j < output.Length && !(to <= j < to + i) ==> output[j] == old(output[j])
    {
      output[to + i] := input[from + i];
      i := i + 1;
    }
  }

  /** In bytes, the place that sample `k` comes from and the one that it goes to. */
  ghost predicate GoesTo(inputIndex: nat, outputIndex: nat, k: nat, rows: nat, cols: nat, w: nat) {
    rows > 0 && k < rows * cols && outputIndex == k * w && inputIndex == Source(k, rows, cols) * w
  }

  /** Copies one sample to its place; the blocks elsewhere stay. */
  method CopySample(input: array<Byte>, output: array<Byte>, inputIndex: nat, outputIndex: nat, w: nat,
                    ghost k: nat, ghost rows: nat, ghost cols: nat)
    requires rows * cols * w <= input.Length == output.Length && input != output
    requires GoesTo(inputIndex, outputIndex, k, rows, cols, w)
    modifies output
    ensures Moved(input[..], output[..], k, rows, cols, w)
    ensures forall j: nat :: j != k && Moved(input[..], old(output[..]), j, rows, cols, w) ==> Moved(input[..], output[..], j, rows, cols, w)
    ensures forall j :: 0 <= j < output.Length && rows * cols * w <= j ==> output[j] == old(output[j])
  {
    SourceInverse(k, rows, cols);
    BlockFits(k, rows * cols, w);
    BlockFits(Source(k, rows, cols), rows * cols, w);
    ghost var before := output[..];
    CopyBytes(output, outputIndex, input, inputIndex, w);
    assert output[..][outputIndex..outputIndex + w] == input[..][inputIndex..inputIndex + w];
    forall j: nat | j != k && Moved(input[..], before, j, rows, cols, w)
      ensures Moved(input[..], output[..], j, rows, cols, w)
    {
      BlockUntouched(before, output[..], outputIndex, k, j, w);
    }
  }

  lemma MovedPrefix<T>(s: seq<T>, t: seq<T>, rows: nat, cols: nat, w: nat)
    requires rows * cols * w <= |s| == |t| && forall k: nat :: k < rows * cols ==> Moved(s, t, k, rows, cols, w)
    ensures IsTransposed(s[..rows * cols * w], t[..rows * cols * w], rows, cols, w)
  {
    var n := rows * cols;
    forall k: nat | k < n
      ensures Moved(s[..n * w], t[..n * w], k, rows, cols, w)
    {
      SourceInverse(k, rows, cols);
      BlockFits(k, n, w);
      BlockFits(Source(k, rows, cols), n, w);
      MovedWithin(s, t, k, rows, cols, w, n * w);
    }
  }

  lemma MovedWithin<T>(s: seq<T>, t: seq<T>, k: nat, rows: nat, cols: nat, w: nat, size: nat)
    requires Moved(s, t, k, rows, cols, w) && size <= |s| == |t|
    requires k * w + w <= size && Source(k, rows, cols) * w + w <= size
    ensures Moved(s[..size], t[..size], k, rows, cols, w)
  {
    hide Source;
    assert Block(t[..size], k, w) == Block(t, k, w);
    assert Block(s[..size], Source(k, rows, cols), w) == Block(s, Source(k, rows, cols), w);
  }

  /** The sample of a frame and a channel is where it belongs after de-interleaving; for interleaving
      read the frame as channel and the channel as frame. */
  ghost predicate Placed<T>(s: seq<T>, t: seq<T>, frame: nat, channel: nat, frames: nat, channels: nat, w: nat) {
    Moved(s, t, channel * frames + frame, frames, channels, w)
  }

  lemma PlacesApart(f: nat, c: nat, g: nat, d: nat, frames: nat)
    requires f < frames && g < frames && c * frames + f == d * frames + g
    ensures f == g && c == d
  {
    RowColumn(c, f, frames);
    RowColumn(d, g, frames);
  }

  lemma AllPlaced<T>(s: seq<T>, t: seq<T>, frames: nat, channels: nat, w: nat)
    requires forall f, c :: 0 <= f < frames && 0 <= c < channels ==> Placed(s, t, f, c, frames, channels, w)
    ensures forall k: nat :: k < frames * channels ==> Moved(s, t, k, frames, channels, w)
  {
    forall k: nat | k < frames * channels
      ensures Moved(s, t, k, frames, channels, w)
    {
      InBlock(k, channels, frames);
      assert k == k / frames * frames + k % frames;
      assert Placed(s, t, k % frames, k / frames, frames, channels, w);
    }
  }

  ghost predicate StillPlaced<T>(s: seq<T>, before: seq<T>, after: seq<T>, frames: nat, channels: nat, w: nat) {
    forall f: nat, c: nat :: f < frames && c < channels && Placed(s, before, f, c, frames, channels, w) ==>
      Placed(s, after, f, c, frames, channels, w)
  }

  /** One step of either loop, of one the transpose of the other: from position (`frame`, `channel`) of
      the input table to position (`channel`, `frame`) of the output table; none placed before is
      disturbed. */
  method PlaceSample(input: array<Byte>, output: array<Byte>, frame: nat, channel: nat, frames: nat, channels: nat, w: nat)
    requires frame < frames && channel < channels
    requires frames * channels * w <= input.Length == output.Length && input != output
    modifies output
    ensures Placed(input[..], output[..], frame, channel, frames, channels, w)
    ensures StillPlaced(input[..], old(output[..]), output[..], frames, channels, w)
    ensures forall j :: 0 <= j < output.Length && frames * channels * w <= j ==> output[j] == old(output[j])
  {
    hide Moved, Source, StillPlaced, GoesTo;
    var inputIndex := frame * (channels * w) + channel * w;
    var outputIndex := channel * frames * w + frame * w;
    PlaceOf(frame, channel, frames, channels, w);
    ghost var (before, k) := (output[..], channel * frames + frame);
    CopySample(input, output, inputIndex, outputIndex, w, k, frames, channels);
    OthersStay(input[..], before, output[..], k, frames, channels, w);
  }

  lemma OthersStay<T>(s: seq<T>, before: seq<T>, after: seq<T>, k: nat, frames: nat, channels: nat, w: nat)
    requires Moved(s, after, k, frames, channels, w)
    requires forall j: nat :: j != k && Moved(s, before, j, frames, channels, w) ==> Moved(s, after, j, frames, channels, w)
    ensures StillPlaced(s, before, after, frames, channels, w)
  {
    hide Moved;
  }

  /** From frame after frame to channel after channel; an incomplete last frame is left alone. */
  method DeInterleave(input: array<Byte>, output: array<Byte>, numChannels: nat, bytesPerSample: nat)
    requires numChannels > 0 && bytesPerSample > 0 && input.Length == output.Length && input != output
    modifies output
    ensures var n := input.Length / (numChannels * bytesPerSample);
      var size := n * numChannels * bytesPerSample;
      size <= input.Length && IsTransposed(input[..size], output[..size], n, numChannels, bytesPerSample) &&
      forall j :: 0 <= j < output.Length && size <= j ==> output[j] == old(output[j])
  {
    hide Placed, Moved;
    var numFrames := input.Length / (numChannels * bytesPerSample);
    FramesFit(input.Length, numChannels, bytesPerSample, numFrames);
    var frame := 0;
    while frame < numFrames
      invariant 0 <= frame <= numFrames
      invariant forall f, c :: 0 <= f < frame && 0 <= c < numChannels ==>
        Placed(input[..], output[..], f, c, numFrames, numChannels, bytesPerSample)
      invariant forall j :: 0 <= j < output.Length && numFrames * numChannels * bytesPerSample <= j ==> output[j] == old(output[j])
    {
      var channel := 0;
      while channel < numChannels
        invariant 0 <= channel <= numChannels
        invariant forall f, c :: 0 <= f < frame && 0 <= c < numChannels ==>
          Placed(input[..], output[..], f, c, numFrames, numChannels, bytesPerSample)
        invariant forall c :: 0 <= c < channel ==>
          Placed(input[..], output[..], frame, c, numFrames, numChannels, bytesPerSample)
        invariant forall j :: 0 <= j < output.Length && numFrames * numChannels * bytesPerSample <= j ==> output[j] == old(output[j])
      {
        PlaceSample(input, output, frame, channel, numFrames, numChannels, bytesPerSample);
        channel := channel + 1;
      }
      frame := frame + 1;
    }
    AllPlaced(input[..], output[..], numFrames, numChannels, bytesPerSample);
    MovedPrefix(input[..], output[..], numFrames, numChannels, bytesPerSample);
    ghost var size := numFrames * numChannels * bytesPerSample;
    assert input[..][..size] == input[..size] && output[..][..size] == output[..size];
  }

  lemma FramesFit(length: nat, channels: nat, w: nat, n: nat)
    requires channels > 0 && w > 0 && channels * w > 0 && n == length / (channels * w)
    ensures n * channels * w <= length
  {
    assert n * channels * w == n * (channels * w);
  }

  /** The place of a sample in either order, in samples and in bytes. */
  lemma PlaceOf(frame: nat, channel: nat, frames: nat, channels: nat, w: nat)
    requires frame < frames && channel < channels
    ensures GoesTo(frame * (channels * w) + channel * w, channel * frames * w + frame * w, channel * frames + frame, frames, channels, w)
  {
    var k := channel * frames + frame;
    RowColumn(channel, frame, frames);
    RowColumnBelow(channel, frame, channels, frames);
    assert (channel * frames + frame) * w == channel * frames * w + frame * w;
    assert (frame * channels + channel) * w == frame * channels * w + channel * w;
    assert frame * channels * w == frame * (channels * w);
  }

  /** From channel after channel to frame after frame. */
  method Interleave(input: array<Byte>, output: array<Byte>, numChannels: nat, bytesPerSample: nat, numFrames: nat)
    requires numChannels > 0 && bytesPerSample > 0 && input.Length == output.Length && input != output
    requires numChannels * numFrames * bytesPerSample <= input.Length
    modifies output
    ensures var size := numChannels * numFrames * bytesPerSample;
      IsTransposed(input[..size], output[..size], numChannels, numFrames, bytesPerSample) &&
      forall j :: 0 <= j < output.Length && size <= j ==> output[j] == old(output[j])
  {
    hide Placed, Moved;
    var frame := 0;
    while frame < numFrames
      invariant 0 <= frame <= numFrames
      invariant forall c, f :: 0 <= c < numChannels && 0 <= f < frame ==>
        Placed(input[..], output[..], c, f, numChannels, numFrames, bytesPerSample)
      invariant forall j :: 0 <= j < output.Length && numChannels * numFrames * bytesPerSample <= j ==> output[j] == old(output[j])
    {
      var channel := 0;
      while channel < numChannels
        invariant 0 <= channel <= numChannels
        invariant forall c, f :: 0 <= c < numChannels && 0 <= f < frame ==>
          Placed(input[..], output[..], c, f, numChannels, numFrames, bytesPerSample)
        invariant forall c :: 0 <= c < channel ==>
          Placed(input[..], output[..], c, frame, numChannels, numFrames, bytesPerSample)
        invariant forall j :: 0 <= j < output.Length && numChannels * numFrames * bytesPerSample <= j ==> output[j] == old(output[j])
      {
        PlaceSample(input, output, channel, frame, numChannels, numFrames, bytesPerSample);
        channel := channel + 1;
      }
      frame := frame + 1;
    }
    AllPlaced(input[..], output[..], numChannels, numFrames, bytesPerSample);
    MovedPrefix(input[..], output[..], numChannels, numFrames, bytesPerSample);
    ghost var size := numChannels * numFrames * bytesPerSample;
    assert input[..][..size] == input[..size] && output[..][..size] == output[..size];
  }

  // ----- samples behind channel pointers -----

  function Mapped<S, T>(f: S -> T, s: seq<S>): (t: seq<T>)
    ensures |t| == |s| && forall i :: 0 <= i < |s| ==> t[i] == f(s[i])
  {
    seq(|s|, i requires 0 <= i < |s| => f(s[i]))
  }

  /** One sequence of frames for each channel. */
  predicate IsTable<T>(table: seq<seq<T>>, channels: nat, frames: nat) {
    |table| == channels && forall c :: 0 <= c < channels ==> |table[c]| == frames
  }

  /** The channels of an interleaved stream. */
  function Split<T>(s: seq<T>, frames: nat, channels: nat): (table: seq<seq<T>>)
    requires |s| == frames * channels
    ensures IsTable(table, channels, frames)
  {
    seq(channels, c requires 0 <= c < channels =>
      seq(frames, f requires 0 <= f < frames => (RowColumnBelow(f, c, frames, channels); s[f * channels + c])))
  }

  /** The interleaved stream of channels. */
  function Join<T>(table: seq<seq<T>>, frames: nat, channels: nat): (s: seq<T>)
    requires IsTable(table, channels, frames)
    ensures |s| == frames * channels
  {
    seq(frames * channels, i requires 0 <= i < frames * channels =>
      (InBlock(i, frames, channels); table[i % channels][i / channels]))
  }

  lemma SplitAt<T>(s: seq<T>, frames: nat, channels: nat, f: nat, c: nat)
    requires |s| == frames * channels && f < frames && c < channels
    ensures f * channels + c < |s| && Split(s, frames, channels)[c][f] == s[f * channels + c]
  {
    RowColumnBelow(f, c, frames, channels);
  }

  lemma JoinAt<T>(table: seq<seq<T>>, frames: nat, channels: nat, i: nat)
    requires IsTable(table, channels, frames) && i < frames * channels
    ensures channels > 0 && i / channels < frames && Join(table, frames, channels)[i] == table[i % channels][i / channels]
  {
    InBlock(i, frames, channels);
  }

  /** Interleaving the channels of a stream gives the stream, ... */
  lemma JoinSplit<T>(s: seq<T>, frames: nat, channels: nat)
    requires |s| == frames * channels
    ensures Join(Split(s, frames, channels), frames, channels) == s
  {
    hide Join, Split;
    forall i | 0 <= i < |s|
      ensures Join(Split(s, frames, channels), frames, channels)[i] == s[i]
    {
      JoinAt(Split(s, frames, channels), frames, channels, i);
      SplitAt(s, frames, channels, i / channels, i % channels);
      Decompose(i, channels);
    }
  }

  /** ... and the channels of the interleaved stream are the channels. */
  lemma SplitJoin<T>(table: seq<seq<T>>, frames: nat, channels: nat)
    requires IsTable(table, channels, frames)
    ensures Split(Join(table, frames, channels), frames, channels) == table
  {
    var s := Join(table, frames, channels);
    forall c | 0 <= c < channels
      ensures Split(s, frames, channels)[c] == table[c]
    {
      forall f | 0 <= f < frames
        ensures Split(s, frames, channels)[c][f] == table[c][f]
      {
        SplitAt(s, frames, channels, f, c);
        RowColumn(f, c, channels);
      }
    }
  }

  /** The channels of a stream that holds one channel after the other. */
  function SplitPlanar<T>(s: seq<T>, frames: nat, channels: nat): (table: seq<seq<T>>)
    requires |s| == frames * channels
    ensures IsTable(table, channels, frames)
  {
    seq(channels, c requires 0 <= c < channels =>
      seq(frames, f requires 0 <= f < frames =>
        (RowColumnBelow(c, f, channels, frames); assert channels * frames == frames * channels; s[c * frames + f])))
  }

  function JoinPlanar<T>(table: seq<seq<T>>, frames: nat, channels: nat): (s: seq<T>)
    requires IsTable(table, channels, frames)
    ensures |s| == frames * channels
  {
    seq(frames * channels, i requires 0 <= i < frames * channels =>
      (assert channels * frames == frames * channels; InBlock(i, channels, frames); table[i / frames][i % frames]))
  }

  lemma SplitPlanarAt<T>(s: seq<T>, frames: nat, channels: nat, f: nat, c: nat)
    requires |s| == frames * channels && f < frames && c < channels
    ensures c * frames + f < |s| && SplitPlanar(s, frames, channels)[c][f] == s[c * frames + f]
  {
    RowColumnBelow(c, f, channels, frames);
    assert channels * frames == frames * channels;
  }

  lemma JoinSplitPlanar<T>(s: seq<T>, frames: nat, channels: nat)
    requires |s| == frames * channels
    ensures JoinPlanar(SplitPlanar(s, frames, channels), frames, channels) == s
  {
    assert channels * frames == frames * channels;
    forall i | 0 <= i < |s|
      ensures JoinPlanar(SplitPlanar(s, frames, channels), frames, channels)[i] == s[i]
    {
      InBlock(i, channels, frames);
      SplitPlanarAt(s, frames, channels, i % frames, i / frames);
      assert i == i / frames * frames + i % frames;
    }
  }

  lemma SplitJoinPlanar<T>(table: seq<seq<T>>, frames: nat, channels: nat)
    requires IsTable(table, channels, frames)
    ensures SplitPlanar(JoinPlanar(table, frames, channels), frames, channels) == table
  {
    var s := JoinPlanar(table, frames, channels);
    forall c | 0 <= c < channels
      ensures SplitPlanar(s, frames, channels)[c] == table[c]
    {
      forall f | 0 <= f < frames
        ensures SplitPlanar(s, frames, channels)[c][f] == table[c][f]
      {
        SplitPlanarAt(s, frames, channels, f, c);
        RowColumn(c, f, frames);
      }
    }
  }

  /** Converting to channels and back gives the stream, as long as the conversion of single samples can
      be undone; for equal formats it is the identity. */
  lemma StreamRoundTrip<S(!new), T>(to: S -> T, back: T -> S, s: seq<S>, frames: nat, channels: nat)
    requires |s| == frames * channels && forall x :: back(to(x)) == x
    ensures Mapped(back, Join(Split(Mapped(to, s), frames, channels), frames, channels)) == s
    ensures Mapped(back, JoinPlanar(SplitPlanar(Mapped(to, s), frames, channels), frames, channels)) == s
  {
    JoinSplit(Mapped(to, s), frames, channels);
    JoinSplitPlanar(Mapped(to, s), frames, channels);
  }

  /** Converting channels to a stream and back gives the channels. */
  lemma ChannelsRoundTrip<S(!new), T>(to: S -> T, back: T -> S, table: seq<seq<S>>, frames: nat, channels: nat)
    requires IsTable(table, channels, frames) && forall x :: back(to(x)) == x
    ensures Split(Mapped(back, Mapped(to, Join(table, frames, channels))), frames, channels) == table
    ensures SplitPlanar(Mapped(back, Mapped(to, JoinPlanar(table, frames, channels))), frames, channels) == table
  {
    var (s, p) := (Join(table, frames, channels), JoinPlanar(table, frames, channels));
    assert Mapped(back, Mapped(to, s)) == s && Mapped(back, Mapped(to, p)) == p;
    SplitJoin(table, frames, channels);
    SplitJoinPlanar(table, frames, channels);
  }

  /** The frames of all channels from `start` on. */
  ghost function Rows<T>(a: array2<T>, start: nat, frames: nat): (table: seq<seq<T>>)
    requires start + frames <= a.Length1
    reads a
    ensures IsTable(table, a.Length0, frames)
    ensures forall c, f :: 0 <= c < a.Length0 && 0 <= f < frames ==> table[c][f] == a[c, start + f]
  {
    seq(a.Length0, c requires 0 <= c < a.Length0 reads a =>
      seq(frames, f requires 0 <= f < frames reads a => a[c, start + f]))
  }

  ghost function Table<T>(a: array2<T>): (table: seq<seq<T>>)
    reads a
    ensures IsTable(table, a.Length0, a.Length1)
  {
    Rows(a, 0, a.Length1)
  }

  /** The frames from `start` on of every channel of a table. */
  function Window<T>(table: seq<seq<T>>, width: nat, start: nat, frames: nat): (r: seq<seq<T>>)
    requires IsTable(table, |table|, width) && start + frames <= width
    ensures IsTable(r, |table|, frames)
  {
    seq(|table|, c requires 0 <= c < |table| => table[c][start..start + frames])
  }

  lemma RowsAreWindow<T>(a: array2<T>, start: nat, frames: nat)
    requires start + frames <= a.Length1
    ensures Rows(a, start, frames) == Window(Table(a), a.Length1, start, frames)
  {
    var (r, w) := (Rows(a, start, frames), Window(Table(a), a.Length1, start, frames));
    forall c | 0 <= c < a.Length0
      ensures r[c] == w[c]
    {
    }
  }

  /** The tables differ in one place, which now holds `x`. */
  ghost predicate IsStored<T>(before: seq<seq<T>>, after: seq<seq<T>>, ch: nat, k: nat, x: T) {
    |after| == |before| && ch < |before| && k < |before[ch]| && after == before[ch := before[ch][k := x]]
  }

  /** Only the frames from `start` on have changed. */
  ghost predicate ChangedWithin<T>(before: seq<seq<T>>, after: seq<seq<T>>, start: nat, frames: nat) {
    |after| == |before| && forall c :: 0 <= c < |before| ==> ChannelWithin(before[c], after[c], start, frames)
  }

  ghost predicate ChannelWithin<T>(before: seq<T>, after: seq<T>, start: nat, frames: nat) {
    |after| == |before| && forall k :: 0 <= k < |before| && !(start <= k < start + frames) ==> after[k] == before[k]
  }

  /** The sample of frame `f` and channel `c` has arrived from position `index`. */
  ghost predicate Arrived<S, T>(convert: S -> T, s: seq<S>, index: nat, table: seq<seq<T>>, start: nat, f: nat, c: nat) {
    c < |table| && start + f < |table[c]| && index < |s| && table[c][start + f] == convert(s[index])
  }

  /** The position of a sample in a stream of either kind. */
  function Place(interleaved: bool, f: nat, c: nat, frames: nat, channels: nat): nat {
    if interleaved then f * channels + c else c * frames + f
  }

  /** Up to position `i` the stream has arrived. */
  ghost predicate ArrivedUpTo<S, T>(
    convert: S -> T, s: seq<S>, i: nat, interleaved: bool, frames: nat, channels: nat, table: seq<seq<T>>, start: nat)
  {
    forall f: nat, c: nat :: f < frames && c < channels && Place(interleaved, f, c, frames, channels) < i ==>
      Arrived(convert, s, Place(interleaved, f, c, frames, channels), table, start, f, c)
  }

  lemma PlaceUnique(interleaved: bool, f: nat, c: nat, g: nat, d: nat, frames: nat, channels: nat)
    requires f < frames && g < frames && c < channels && d < channels
    requires Place(interleaved, f, c, frames, channels) == Place(interleaved, g, d, frames, channels)
    ensures f == g && c == d
  {
    if interleaved {
      RowColumn(f, c, channels);
      RowColumn(g, d, channels);
    } else {
      PlacesApart(f, c, g, d, frames);
    }
  }

  lemma PlaceBelow(interleaved: bool, f: nat, c: nat, frames: nat, channels: nat)
    requires f < frames && c < channels
    ensures Place(interleaved, f, c, frames, channels) < frames * channels
  {
    RowColumnBelow(f, c, frames, channels);
    RowColumnBelow(c, f, channels, frames);
    assert channels * frames == frames * channels;
  }

  /** One more sample of the stream is stored where it belongs. */
  lemma StoreNext<S, T>(
    convert: S -> T, s: seq<S>, interleaved: bool, frame: nat, ch: nat, frames: nat, channels: nat,
    before: seq<seq<T>>, after: seq<seq<T>>, start: nat)
    requires frame < frames && ch < channels
    requires ArrivedUpTo(convert, s, Place(interleaved, frame, ch, frames, channels), interleaved, frames, channels, before, start)
    requires Place(interleaved, frame, ch, frames, channels) < |s|
    requires IsStored(before, after, ch, start + frame, convert(s[Place(interleaved, frame, ch, frames, channels)]))
    ensures ArrivedUpTo(convert, s, Place(interleaved, frame, ch, frames, channels) + 1, interleaved, frames, channels, after, start)
  {
    hide Place;
    forall f: nat, c: nat | f < frames && c < channels &&
      Place(interleaved, f, c, frames, channels) < Place(interleaved, frame, ch, frames, channels) + 1
      ensures Arrived(convert, s, Place(interleaved, f, c, frames, channels), after, start, f, c)
    {
      if Place(interleaved, f, c, frames, channels) == Place(interleaved, frame, ch, frames, channels) {
        PlaceUnique(interleaved, f, c, frame, ch, frames, channels);
      } else {
        assert Arrived(convert, s, Place(interleaved, f, c, frames, channels), before, start, f, c);
      }
    }
  }

  /** The channels of a stream of either kind. */
  function Channels<T>(interleaved: bool, s: seq<T>, frames: nat, channels: nat): (table: seq<seq<T>>)
    requires |s| == frames * channels
    ensures IsTable(table, channels, frames)
  {
    if interleaved then Split(s, frames, channels) else SplitPlanar(s, frames, channels)
  }

  lemma ChannelsAt<T>(interleaved: bool, s: seq<T>, frames: nat, channels: nat, f: nat, c: nat)
    requires |s| == frames * channels && f < frames && c < channels
    ensures Place(interleaved, f, c, frames, channels) < |s|
    ensures Channels(interleaved, s, frames, channels)[c][f] == s[Place(interleaved, f, c, frames, channels)]
  {
    if interleaved {
      SplitAt(s, frames, channels, f, c);
    } else {
      SplitPlanarAt(s, frames, channels, f, c);
    }
  }

  lemma AllArrived<S, T>(
    convert: S -> T, s: seq<S>, interleaved: bool, frames: nat, channels: nat, table: seq<seq<T>>, width: nat, start: nat)
    requires IsTable(table, channels, width) && start + frames <= width && |s| == frames * channels
    requires ArrivedUpTo(convert, s, |s|, interleaved, frames, channels, table, start)
    ensures Window(table, width, start, frames) == Channels(interleaved, Mapped(convert, s), frames, channels)
  {
    hide Place, Channels;
    var (w, t) := (Window(table, width, start, frames), Channels(interleaved, Mapped(convert, s), frames, channels));
    forall c | 0 <= c < channels
      ensures w[c] == t[c]
    {
      forall f | 0 <= f < frames
        ensures w[c][f] == t[c][f]
      {
        PlaceBelow(interleaved, f, c, frames, channels);
        assert Arrived(convert, s, Place(interleaved, f, c, frames, channels), table, start, f, c);
        ChannelsAt(interleaved, Mapped(convert, s), frames, channels, f, c);
      }
    }
  }

  method Store<T>(dst: array2<T>, ch: nat, k: nat, x: T)
    requires ch < dst.Length0 && k < dst.Length1
    modifies dst
    ensures IsStored(old(Table(dst)), Table(dst), ch, k, x)
  {
    ghost var before := Table(dst);
    dst[ch, k] := x;
    ghost var after := before[ch := before[ch][k := x]];
    forall c | 0 <= c < dst.Length0
      ensures Table(dst)[c] == after[c]
    {
    }
  }

  lemma StoredWithin<T>(first: seq<seq<T>>, before: seq<seq<T>>, after: seq<seq<T>>, ch: nat, k: nat, x: T, start: nat, frames: nat)
    requires ChangedWithin(first, before, start, frames) && IsStored(before, after, ch, k, x) && start <= k < start + frames
    ensures ChangedWithin(first, after, start, frames)
  {
  }

  lemma NothingChanged<T>(table: seq<seq<T>>, start: nat, frames: nat)
    ensures ChangedWithin(table, table, start, frames)
  {
  }

  /** Stores the sample at position `i` of the stream. */
  method StoreAt<S, T>(convert: S -> T, x: S, ch: nat, frame: nat, numFrames: nat, numChannels: nat, dst: array2<T>,
                       dstStartFrame: nat, ghost interleaved: bool, ghost i: nat, ghost s: seq<S>, ghost first: seq<seq<T>>)
    requires dst.Length0 == numChannels && dstStartFrame + numFrames <= dst.Length1
    requires ch < numChannels && frame < numFrames && Place(interleaved, frame, ch, numFrames, numChannels) == i < |s| && x == s[i]
    requires ArrivedUpTo(convert, s, i, interleaved, numFrames, numChannels, Table(dst), dstStartFrame)
    requires ChangedWithin(first, Table(dst), dstStartFrame, numFrames)
    modifies dst
    ensures ArrivedUpTo(convert, s, i + 1, interleaved, numFrames, numChannels, Table(dst), dstStartFrame)
    ensures ChangedWithin(first, Table(dst), dstStartFrame, numFrames)
  {
    hide ArrivedUpTo, ChangedWithin, IsStored, Place, Table;
    ghost var before := Table(dst);
    Store(dst, ch, frame + dstStartFrame, convert(x));
    StoreNext(convert, s, interleaved, frame, ch, numFrames, numChannels, before, Table(dst), dstStartFrame);
    StoredWithin(first, before, Table(dst), ch, frame + dstStartFrame, convert(x), dstStartFrame, numFrames);
  }

  /** The channel and the frame of position `i`: here the two loops from a stream to channels differ. */
  function Locate(interleaved: bool, i: nat, frames: nat, channels: nat): (nat, nat)
    requires frames > 0 && channels > 0
  {
    if interleaved then (i % channels, i / channels) else (i / frames, i % frames)
  }

  lemma PlaceOfIndex(interleaved: bool, i: nat, frames: nat, channels: nat)
    requires i < frames * channels
    ensures frames > 0 && channels > 0
    ensures var (c, f) := Locate(interleaved, i, frames, channels);
      c < channels && f < frames && Place(interleaved, f, c, frames, channels) == i
  {
    assert channels * frames == frames * channels;
    InBlock(i, frames, channels);
    InBlock(i, channels, frames);
    Decompose(i, channels);
    Decompose(i, frames);
  }

  /** The loop from a stream that starts at `from` to channels. */
  method StreamToChannels<S, T>(convert: S -> T, interleaved: bool, src: array<S>, from: nat, size: nat, numFrames: nat, numChannels: nat,
                                dst: array2<T>, dstStartFrame: nat)
    requires dst.Length0 == numChannels && dstStartFrame + numFrames <= dst.Length1
    requires from + size <= src.Length && size == numFrames * numChannels
    modifies dst
    ensures ArrivedUpTo(convert, old(src[from..from + size]), size, interleaved, numFrames, numChannels, Table(dst), dstStartFrame)
    ensures ChangedWithin(old(Table(dst)), Table(dst), dstStartFrame, numFrames)
  {
    hide ArrivedUpTo, ChangedWithin, Table, Place, Locate;
    ghost var s := src[from..from + size];
    NothingChanged(Table(dst), dstStartFrame, numFrames);
    NothingArrived(convert, s, interleaved, numFrames, numChannels, Table(dst), dstStartFrame);
    var i := 0;
    while i < size
      invariant 0 <= i <= size && s == src[from..from + size]
      invariant ArrivedUpTo(convert, s, i, interleaved, numFrames, numChannels, Table(dst), dstStartFrame)
      invariant ChangedWithin(old(Table(dst)), Table(dst), dstStartFrame, numFrames)
    {
      PlaceOfIndex(interleaved, i, numFrames, numChannels);
      var (ch, frame) := Locate(interleaved, i, numFrames, numChannels);
      assert src[i + from] == s[i];
      StoreAt(convert, src[i + from], ch, frame, numFrames, numChannels, dst, dstStartFrame, interleaved, i, s, old(Table(dst)));
      i := i + 1;
    }
  }

  /** From a stream to channels. */
  method ToChannels<S, T>(convert: S -> T, interleaved: bool, src: array<S>, numFrames: nat, numChannels: nat, dst: array2<T>,
                          srcStartFrame: nat, dstStartFrame: nat)
    requires dst.Length0 == numChannels && dstStartFrame + numFrames <= dst.Length1
    requires srcStartFrame * numChannels + numFrames * numChannels <= src.Length
    modifies dst
    ensures var from := srcStartFrame * numChannels;
      Rows(dst, dstStartFrame, numFrames) ==
        Channels(interleaved, Mapped(convert, old(src[from..from + numFrames * numChannels])), numFrames, numChannels)
    ensures ChangedWithin(old(Table(dst)), Table(dst), dstStartFrame, numFrames)
  {
    hide ArrivedUpTo, ChangedWithin, Channels, Table, Rows;
    var (from, size) := (srcStartFrame * numChannels, numFrames * numChannels);
    ghost var s := src[from..from + size];
    StreamToChannels(convert, interleaved, src, from, size, numFrames, numChannels, dst, dstStartFrame);
    AllArrived(convert, s, interleaved, numFrames, numChannels, Table(dst), dst.Length1, dstStartFrame);
    RowsAreWindow(dst, dstStartFrame, numFrames);
  }

  lemma NothingArrived<S, T>(
    convert: S -> T, s: seq<S>, interleaved: bool, frames: nat, channels: nat, table: seq<seq<T>>, start: nat)
    ensures ArrivedUpTo(convert, s, 0, interleaved, frames, channels, table, start)
  {
  }

  lemma FrameOfJoin<T>(table: seq<seq<T>>, frames: nat, channels: nat, frame: nat)
    requires IsTable(table, channels, frames) && frame < frames
    ensures frame * channels + channels <= frames * channels
    ensures forall c :: 0 <= c < channels ==> Join(table, frames, channels)[frame * channels + c] == table[c][frame]
  {
    hide Join;
    BlockFits(frame, frames, channels);
    forall c | 0 <= c < channels
      ensures Join(table, frames, channels)[frame * channels + c] == table[c][frame]
    {
      RowColumn(frame, c, channels);
      JoinAt(table, frames, channels, frame * channels + c);
    }
  }

  /** From position `base` on `t` holds the converted samples of one frame. */
  ghost predicate HoldsFrame<S, T>(convert: S -> T, t: seq<T>, base: nat, table: seq<seq<S>>, frame: nat) {
    base + |table| <= |t| && forall c :: 0 <= c < |table| ==> frame < |table[c]| && t[base + c] == convert(table[c][frame])
  }

  /** One frame of an interleaved stream, `base` samples after its start. */
  method FrameToInterleaved<S, T>(convert: S -> T, src: array2<S>, srcStartFrame: nat, frame: nat, dst: array<T>, to: nat, base: nat,
                                  ghost frames: nat, ghost t: seq<T>)
    requires srcStartFrame + frames <= src.Length1 && frame < frames && to + |t| <= dst.Length
    requires HoldsFrame(convert, t, base, Rows(src, srcStartFrame, frames), frame)
    requires dst[to..to + base] == t[..base]
    modifies dst
    ensures dst[to..to + (base + src.Length0)] == t[..base + src.Length0]
    ensures forall k :: 0 <= k < dst.Length && !(to <= k < to + |t|) ==> dst[k] == old(dst[k])
  {
    ghost var table := Rows(src, srcStartFrame, frames);
    var ch := 0;
    while ch < src.Length0
      invariant 0 <= ch <= src.Length0 && dst[to..to + (base + ch)] == t[..base + ch]
      invariant forall k :: 0 <= k < dst.Length && !(to <= k < to + |t|) ==> dst[k] == old(dst[k])
    {
      assert t[base + ch] == convert(table[ch][frame]);
      dst[to + (base + ch)] := convert(src[ch, frame + srcStartFrame]);
      ch := ch + 1;
    }
  }

  /** The loop from channels to an interleaved stream that starts at `to`. */
  method FramesToInterleaved<S, T>(convert: S -> T, src: array2<S>, srcStartFrame: nat, numFrames: nat, dst: array<T>, to: nat, ghost t: seq<T>)
    requires srcStartFrame + numFrames <= src.Length1 && to + |t| <= dst.Length && |t| == numFrames * src.Length0
    requires t == Mapped(convert, Join(Rows(src, srcStartFrame, numFrames), numFrames, src.Length0))
    modifies dst
    ensures dst[to..to + |t|] == t
    ensures forall k :: 0 <= k < dst.Length && !(to <= k < to + |t|) ==> dst[k] == old(dst[k])
  {
    hide Join, Mapped, HoldsFrame, Rows;
    ghost var rows := Rows(src, srcStartFrame, numFrames);
    var frame := 0;
    var base := 0;
    while frame < numFrames
      invariant 0 <= frame <= numFrames && base == frame * src.Length0 <= |t|
      invariant dst[to..to + base] == t[..base]
      invariant forall k :: 0 <= k < dst.Length && !(to <= k < to + |t|) ==> dst[k] == old(dst[k])
    {
      BlockFits(frame, numFrames, src.Length0);
      FrameMapped(convert, rows, numFrames, src.Length0, frame, base, t);
      FrameToInterleaved(convert, src, srcStartFrame, frame, dst, to, base, numFrames, t);
      NextBase(frame, src.Length0);
      base := base + src.Length0;
      frame := frame + 1;
    }
    assert t[..base] == t;
  }

  lemma NextBase(frame: nat, channels: nat)
    ensures (frame + 1) * channels == frame * channels + channels
  {
  }

  lemma FrameMapped<S, T>(convert: S -> T, table: seq<seq<S>>, frames: nat, channels: nat, frame: nat, base: nat, t: seq<T>)
    requires IsTable(table, channels, frames) && frame < frames && base == frame * channels
    requires t == Mapped(convert, Join(table, frames, channels))
    ensures HoldsFrame(convert, t, base, table, frame)
  {
    hide Join;
    FrameOfJoin(table, frames, channels, frame);
  }

  /** From channels to an interleaved stream. */
  method ChannelsToInterleaved<S, T>(convert: S -> T, src: array2<S>, numFrames: nat, numChannels: nat, dst: array<T>,
                                     srcStartFrame: nat, dstStartFrame: nat)
    requires src.Length0 == numChannels && srcStartFrame + numFrames <= src.Length1
    requires dstStartFrame * numChannels + numFrames * numChannels <= dst.Length
    modifies dst
    ensures var to := dstStartFrame * numChannels;
      dst[to..to + numFrames * numChannels] ==
        Mapped(convert, Join(old(Rows(src, srcStartFrame, numFrames)), numFrames, numChannels))
    ensures forall k :: 0 <= k < dst.Length && !(dstStartFrame * numChannels <= k < dstStartFrame * numChannels + numFrames * numChannels) ==>
      dst[k] == old(dst[k])
  {
    hide Join;
    ghost var t := Mapped(convert, Join(Rows(src, srcStartFrame, numFrames), numFrames, numChannels));
    FramesToInterleaved(convert, src, srcStartFrame, numFrames, dst, dstStartFrame * numChannels, t);
  }

  /** `t` asks for a sample of frame `f` and channel `c`, `at` places after its start. */
  ghost predicate Asks<S, T>(convert: S -> T, t: seq<T>, table: seq<seq<S>>, c: nat, f: nat, frames: nat, at: nat) {
    c < |table| && f < |table[c]| && at == c * frames + f < |t| && t[at] == convert(table[c][f])
  }

  /** The sample of frame `f` and channel `c` is where `t` has it. */
  ghost predicate Delivered<T>(d: seq<T>, to: nat, t: seq<T>, c: nat, f: nat, frames: nat) {
    c * frames + f < |t| && to + |t| <= |d| && d[to + (c * frames + f)] == t[c * frames + f]
  }

  lemma PlanarPlace<S>(table: seq<seq<S>>, frames: nat, channels: nat, f: nat, c: nat)
    requires IsTable(table, channels, frames) && f < frames && c < channels
    ensures c * frames + f < frames * channels && JoinPlanar(table, frames, channels)[c * frames + f] == table[c][f]
  {
    RowColumnBelow(c, f, channels, frames);
    RowColumn(c, f, frames);
    assert channels * frames == frames * channels;
  }

  ghost predicate StillThere<T>(before: seq<T>, after: seq<T>, to: nat, t: seq<T>, frames: nat) {
    forall f: nat, c: nat :: f < frames && Delivered(before, to, t, c, f, frames) ==> Delivered(after, to, t, c, f, frames)
  }

  lemma StillDelivered<T>(before: seq<T>, after: seq<T>, to: nat, t: seq<T>, ch: nat, frame: nat, frames: nat, at: nat)
    requires frame < frames && at == ch * frames + frame < |t| && to + |t| <= |before|
    requires after == before[to + at := t[at]]
    ensures Delivered(after, to, t, ch, frame, frames) && StillThere(before, after, to, t, frames)
  {
    forall f: nat, c: nat | f < frames && Delivered(before, to, t, c, f, frames)
      ensures Delivered(after, to, t, c, f, frames)
    {
      if c * frames + f == at {
        PlacesApart(f, c, frame, ch, frames);
      }
    }
  }

  lemma PlanarAsks<S, T>(convert: S -> T, table: seq<seq<S>>, frames: nat, channels: nat, f: nat, c: nat, t: seq<T>)
    requires IsTable(table, channels, frames) && f < frames && c < channels
    requires t == Mapped(convert, JoinPlanar(table, frames, channels))
    ensures Asks(convert, t, table, c, f, frames, frames * c + f)
  {
    hide JoinPlanar;
    PlanarPlace(table, frames, channels, f, c);
  }

  lemma AllDelivered<T>(d: seq<T>, to: nat, t: seq<T>, frames: nat, channels: nat)
    requires |t| == frames * channels && to + |t| <= |d|
    requires forall f: nat, c: nat :: f < frames && c < channels ==> Delivered(d, to, t, c, f, frames)
    ensures d[to..to + frames * channels] == t
  {
    assert channels * frames == frames * channels;
    forall k | 0 <= k < |t|
      ensures d[to..to + |t|][k] == t[k]
    {
      InBlock(k, channels, frames);
      Decompose(k, frames);
      assert Delivered(d, to, t, k / frames, k % frames, frames);
    }
  }

  /** One sample, `at` places after the start of the stream at `to`. */
  method DeliverSample<S, T>(convert: S -> T, src: array2<S>, start: nat, ch: nat, frame: nat, dst: array<T>, to: nat, at: nat,
                             ghost frames: nat, ghost t: seq<T>)
    requires start + frames <= src.Length1 && ch < src.Length0 && frame < frames && to + |t| <= dst.Length
    requires Asks(convert, t, Rows(src, start, frames), ch, frame, frames, at)
    modifies dst
    ensures Delivered(dst[..], to, t, ch, frame, frames) && StillThere(old(dst[..]), dst[..], to, t, frames)
    ensures forall k :: 0 <= k < dst.Length && !(to <= k < to + |t|) ==> dst[k] == old(dst[k])
  {
    ghost var before := dst[..];
    dst[at + to] := convert(src[ch, frame + start]);
    assert dst[..] == before[to + at := t[at]];
    StillDelivered(before, dst[..], to, t, ch, frame, frames, at);
  }

  /** The loops from channels to a stream of one channel after the other that starts at `to`. */
  method FramesToPlanar<S, T>(convert: S -> T, src: array2<S>, srcStartFrame: nat, numFrames: nat, dst: array<T>, to: nat, ghost t: seq<T>)
    requires srcStartFrame + numFrames <= src.Length1 && to + |t| <= dst.Length && |t| == numFrames * src.Length0
    requires t == Mapped(convert, JoinPlanar(Rows(src, srcStartFrame, numFrames), numFrames, src.Length0))
    modifies dst
    ensures dst[to..to + |t|] == t
    ensures forall k :: 0 <= k < dst.Length && !(to <= k < to + |t|) ==> dst[k] == old(dst[k])
  {
    hide JoinPlanar, Mapped, Asks, Rows, Delivered;
    ghost var rows := Rows(src, srcStartFrame, numFrames);
    var frame := 0;
    while frame < numFrames
      invariant 0 <= frame <= numFrames
      invariant forall f: nat, c: nat :: f < frame && c < src.Length0 ==> Delivered(dst[..], to, t, c, f, numFrames)
      invariant forall k :: 0 <= k < dst.Length && !(to <= k < to + |t|) ==> dst[k] == old(dst[k])
    {
      var ch := 0;
      while ch < src.Length0
        invariant 0 <= ch <= src.Length0
        invariant forall f: nat, c: nat :: f < frame && c < src.Length0 ==> Delivered(dst[..], to, t, c, f, numFrames)
        invariant forall c: nat :: c < ch ==> Delivered(dst[..], to, t, c, frame, numFrames)
        invariant forall k :: 0 <= k < dst.Length && !(to <= k < to + |t|) ==> dst[k] == old(dst[k])
      {
        PlanarAsks(convert, rows, numFrames, src.Length0, frame, ch, t);
        DeliverSample(convert, src, srcStartFrame, ch, frame, dst, to, numFrames * ch + frame, numFrames, t);
        ch := ch + 1;
      }
      frame := frame + 1;
    }
    AllDelivered(dst[..], to, t, numFrames, src.Length0);
    assert dst[to..to + |t|] == dst[..][to..to + |t|];
  }

  /** From channels to a stream of one channel after the other. */
  method ChannelsToPlanar<S, T>(convert: S -> T, src: array2<S>, numFrames: nat, numChannels: nat, dst: array<T>,
                                srcStartFrame: nat, dstStartFrame: nat)
    requires src.Length0 == numChannels && srcStartFrame + numFrames <= src.Length1
    requires dstStartFrame * numChannels + numFrames * numChannels <= dst.Length
    modifies dst
    ensures var to := dstStartFrame * numChannels;
      dst[to..to + numFrames * numChannels] ==
        Mapped(convert, JoinPlanar(old(Rows(src, srcStartFrame, numFrames)), numFrames, numChannels))
    ensures forall k :: 0 <= k < dst.Length && !(dstStartFrame * numChannels <= k < dstStartFrame * numChannels + numFrames * numChannels) ==>
      dst[k] == old(dst[k])
  {
    hide JoinPlanar;
    ghost var t := Mapped(convert, JoinPlanar(Rows(src, srcStartFrame, numFrames), numFrames, numChannels));
    FramesToPlanar(convert, src, srcStartFrame, numFrames, dst, dstStartFrame * numChannels, t);
  }
}
