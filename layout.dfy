/**
 * The sample layout of the JACK backend (jack.c): JACK hands out one
 * buffer of native float samples per channel, while the decks' timecoder
 * and player work on one buffer of signed 16-bit samples interleaved
 * frame by frame (left, right, left, right, ...).
 *
 * The two per-sample conversions, a truncating cast of `x * 32768` one
 * way and a float division by 32768 the other, are parameters here
 * (`toShort`, `toFloat`): the layout is an exact index transform whatever
 * they compute.
 */
module Layout {

  /** The device layer's channel count (DEVICE_CHANNELS): stereo. */
  const Channels: nat := 2

  /** The frame capacity of the interleaved stack buffer of process_deck. */
  const MaxFrames: nat := 1024

  /** A native JACK sample, a C float. It is only carried, never computed on. */
  type Sample = real

  /** A C `signed short`. */
  newtype Short = x: int | -0x8000 <= x < 0x8000

  /** Every one of the `Channels` channels holds at least `n` frames. */
  predicate Covers(chans: seq<seq<Sample>>, n: nat)
  {
    |chans| == Channels && forall c :: 0 <= c < Channels ==> n <= |chans[c]|
  }

  /** Frame `f` of `chans` converted to fixed point, channels in order. */
  function Frame(chans: seq<seq<Sample>>, f: nat, toShort: Sample -> Short): (r: seq<Short>)
    requires Covers(chans, f + 1)
    ensures |r| == Channels
  {
    seq(Channels, c requires 0 <= c < Channels => toShort(chans[c][f]))
  }

  /**
   * The interleaved buffer that interleave writes for the first `n` frames:
   * frame after frame, each frame one sample per channel.
   */
  function Interleaved(chans: seq<seq<Sample>>, n: nat, toShort: Sample -> Short): (r: seq<Short>)
    requires Covers(chans, n)
    ensures |r| == Channels * n
  {
    if n == 0 then [] else Interleaved(chans, n - 1, toShort) + Frame(chans, n - 1, toShort)
  }

  /** Channel `c` of the first `n` frames of the interleaved buffer `buf`, converted back. */
  function Channel(buf: seq<Short>, n: nat, c: nat, toFloat: Short -> Sample): (r: seq<Sample>)
    requires Channels * n <= |buf| && c < Channels
    ensures |r| == n
  {
    if n == 0 then [] else Channel(buf, n - 1, c, toFloat) + [toFloat(buf[Channels * (n - 1) + c])]
  }

  /** The layout of interleave: sample `Channels * f + c` holds channel `c` of frame `f`. */
  lemma {:induction false} InterleavedAt(chans: seq<seq<Sample>>, n: nat, toShort: Sample -> Short, f: nat, c: nat)
    requires Covers(chans, n) && f < n && c < Channels
    ensures Interleaved(chans, n, toShort)[Channels * f + c] == toShort(chans[c][f])
  {
    if f < n - 1 {
      InterleavedAt(chans, n - 1, toShort, f, c);
    }
  }

  /** Interleaving fewer frames writes a prefix of the same buffer. */
  lemma {:induction false} InterleavedPrefix(chans: seq<seq<Sample>>, m: nat, n: nat, toShort: Sample -> Short)
    requires Covers(chans, n) && m <= n
    ensures Interleaved(chans, n, toShort)[..Channels * m] == Interleaved(chans, m, toShort)
  {
    if m < n {
      InterleavedPrefix(chans, m, n - 1, toShort);
      assert Interleaved(chans, n, toShort)[..Channels * (n - 1)] == Interleaved(chans, n - 1, toShort);
    }
  }

  /** Interleaving reads only the first `n` frames of each channel. */
  lemma {:induction false} InterleavedLocal(chans: seq<seq<Sample>>, other: seq<seq<Sample>>, n: nat, toShort: Sample -> Short)
    requires Covers(chans, n) && Covers(other, n)
    requires forall c :: 0 <= c < Channels ==> chans[c][..n] == other[c][..n]
    ensures Interleaved(chans, n, toShort) == Interleaved(other, n, toShort)
  {
    if n > 0 {
      InterleavedLocal(chans, other, n - 1, toShort);
      forall c | 0 <= c < Channels
        ensures chans[c][..n - 1] == other[c][..n - 1] && chans[c][n - 1] == other[c][n - 1]
      {
        assert chans[c][..n - 1] == chans[c][..n][..n - 1];
        assert other[c][..n - 1] == other[c][..n][..n - 1];
        assert chans[c][n - 1] == chans[c][..n][n - 1];
        assert other[c][n - 1] == other[c][..n][n - 1];
      }
      assert Frame(chans, n - 1, toShort) == Frame(other, n - 1, toShort);
    }
  }

  /** The layout of uninterleave: frame `f` of channel `c` comes from sample `Channels * f + c`. */
  lemma {:induction false} ChannelAt(buf: seq<Short>, n: nat, c: nat, toFloat: Short -> Sample, f: nat)
    requires Channels * n <= |buf| && c < Channels && f < n
    ensures Channel(buf, n, c, toFloat)[f] == toFloat(buf[Channels * f + c])
  {
    if f < n - 1 {
      ChannelAt(buf, n - 1, c, toFloat, f);
    }
  }

  /** Uninterleaving reads only the first `Channels * n` samples. */
  lemma {:induction false} ChannelLocal(buf: seq<Short>, other: seq<Short>, n: nat, c: nat, toFloat: Short -> Sample)
    requires Channels * n <= |buf| && Channels * n <= |other| && c < Channels
    requires buf[..Channels * n] == other[..Channels * n]
    ensures Channel(buf, n, c, toFloat) == Channel(other, n, c, toFloat)
  {
    if n > 0 {
      assert buf[..Channels * (n - 1)] == buf[..Channels * n][..Channels * (n - 1)];
      assert other[..Channels * (n - 1)] == other[..Channels * n][..Channels * (n - 1)];
      ChannelLocal(buf, other, n - 1, c, toFloat);
      assert buf[Channels * (n - 1) + c] == buf[..Channels * n][Channels * (n - 1) + c];
      assert other[Channels * (n - 1) + c] == other[..Channels * n][Channels * (n - 1) + c];
    }
  }

  /**
   * Layout round trip: uninterleaving an interleaved buffer gives back every
   * channel, frame by frame in the original order, each sample passed
   * through both conversions.
   */
  lemma RoundTrip(chans: seq<seq<Sample>>, n: nat, c: nat, toShort: Sample -> Short, toFloat: Short -> Sample)
    requires Covers(chans, n) && c < Channels
    ensures Channel(Interleaved(chans, n, toShort), n, c, toFloat)
         == seq(n, f requires 0 <= f < n => toFloat(toShort(chans[c][f])))
  {
    var buf := Interleaved(chans, n, toShort);
    forall f | 0 <= f < n
      ensures Channel(buf, n, c, toFloat)[f] == toFloat(toShort(chans[c][f]))
    {
      ChannelAt(buf, n, c, toFloat, f);
      InterleavedAt(chans, n, toShort, f, c);
    }
  }

  /** When `toFloat` undoes `toShort`, the round trip is the identity on each channel. */
  lemma RoundTripExact(chans: seq<seq<Sample>>, n: nat, c: nat, toShort: Sample -> Short, toFloat: Short -> Sample)
    requires Covers(chans, n) && c < Channels
    requires forall f :: 0 <= f < n ==> toFloat(toShort(chans[c][f])) == chans[c][f]
    ensures Channel(Interleaved(chans, n, toShort), n, c, toFloat) == chans[c][..n]
  {
    RoundTrip(chans, n, c, toShort, toFloat);
  }

  /**
   * The other round trip: interleaving the uninterleaved channels of a
   * buffer gives back its first `Channels * n` samples, each passed through
   * both conversions.
   */
  lemma ReverseRoundTrip(buf: seq<Short>, n: nat, toShort: Sample -> Short, toFloat: Short -> Sample)
    requires Channels * n <= |buf|
    ensures Covers(seq(Channels, c requires 0 <= c < Channels => Channel(buf, n, c, toFloat)), n)
    ensures Interleaved(seq(Channels, c requires 0 <= c < Channels => Channel(buf, n, c, toFloat)), n, toShort)
         == seq(Channels * n, i requires 0 <= i < Channels * n => toShort(toFloat(buf[i])))
  {
    var chans := seq(Channels, c requires 0 <= c < Channels => Channel(buf, n, c, toFloat));
    var out := Interleaved(chans, n, toShort);
    forall i | 0 <= i < Channels * n
      ensures out[i] == toShort(toFloat(buf[i]))
    {
      var f, c := i / Channels, i % Channels;
      assert i == Channels * f + c;
      InterleavedAt(chans, n, toShort, f, c);
      ChannelAt(buf, n, c, toFloat, f);
    }
  }

  /** The JACK channel buffers as sequences. */
  ghost function Contents(jbuf: seq<array<Sample>>): (r: seq<seq<Sample>>)
    reads jbuf
    ensures |r| == |jbuf| && forall c :: 0 <= c < |jbuf| ==> r[c] == jbuf[c][..]
  {
    seq(|jbuf|, c reads jbuf requires 0 <= c < |jbuf| => jbuf[c][..])
  }

  /**
   * interleave: write the first `nframes` frames of the channel buffers
   * `jbuf` into `buf`, frame-major, and nothing past them.
   */
  method Interleave(buf: array<Short>, jbuf: seq<array<Sample>>, nframes: nat, toShort: Sample -> Short)
    requires |jbuf| == Channels && Covers(Contents(jbuf), nframes)
    requires Channels * nframes <= buf.Length
    modifies buf
    ensures buf[..Channels * nframes] == Interleaved(Contents(jbuf), nframes, toShort)
    ensures buf[Channels * nframes..] == old(buf[Channels * nframes..])
  {
    ghost var chans := Contents(jbuf);
    var remaining, f, pos := nframes, 0, 0;
    while remaining > 0
      invariant f + remaining == nframes && pos == Channels * f
      invariant buf[..pos] == Interleaved(chans, f, toShort)
      invariant forall i :: pos <= i < buf.Length ==> buf[i] == old(buf[i])
    {
      pos := PackFrame(buf, jbuf, pos, chans, f, toShort);
      remaining, f := remaining - 1, f + 1;
    }
  }

  /** The inner loop of interleave: frame `f` of the channel buffers goes to `buf`, starting at `buf[pos]`. */
  method PackFrame(buf: array<Short>, jbuf: seq<array<Sample>>, pos: nat, ghost chans: seq<seq<Sample>>, f: nat,
                   toShort: Sample -> Short) returns (next: nat)
    requires |jbuf| == Channels && chans == Contents(jbuf) && Covers(chans, f + 1)
    requires pos == Channels * f && pos + Channels <= buf.Length && buf[..pos] == Interleaved(chans, f, toShort)
    modifies buf
    ensures next == pos + Channels && buf[..next] == Interleaved(chans, f + 1, toShort)
    ensures forall i :: next <= i < buf.Length ==> buf[i] == old(buf[i])
  {
    next := pos;
    for n := 0 to Channels
      invariant next == pos + n
      invariant buf[..next] == Interleaved(chans, f, toShort) + Frame(chans, f, toShort)[..n]
      invariant forall i :: next <= i < buf.Length ==> buf[i] == old(buf[i])
    {
      FrameSnoc(Interleaved(chans, f, toShort), chans, f, n, toShort);
      buf[next] := toShort(jbuf[n][f]);
      next := next + 1;
    }
  }

  /** Writing the next sample of frame `f` after the `earlier` ones extends the buffer by channel `n` of that frame. */
  lemma FrameSnoc(earlier: seq<Short>, chans: seq<seq<Sample>>, f: nat, n: nat, toShort: Sample -> Short)
    requires Covers(chans, f + 1) && n < Channels
    ensures earlier + Frame(chans, f, toShort)[..n + 1] == (earlier + Frame(chans, f, toShort)[..n]) + [toShort(chans[n][f])]
  {
    var frame := Frame(chans, f, toShort);
    assert frame[..n + 1] == frame[..n] + [frame[n]];
    assert earlier + (frame[..n] + [frame[n]]) == (earlier + frame[..n]) + [frame[n]];
  }

  /**
   * uninterleave: write channel `c` of the first `nframes` frames of `buf`
   * into the first `nframes` samples of `jbuf[c]`; the rest of each channel
   * buffer keeps its samples.
   */
  method Uninterleave(jbuf: seq<array<Sample>>, buf: array<Short>, nframes: nat, toFloat: Short -> Sample)
    requires |jbuf| == Channels && Covers(Contents(jbuf), nframes)
    requires forall c, d :: 0 <= c < d < Channels ==> jbuf[c] != jbuf[d]
    requires Channels * nframes <= buf.Length
    modifies jbuf
    ensures forall c :: 0 <= c < Channels ==>
      jbuf[c][..nframes] == Channel(buf[..], nframes, c, toFloat) &&
      jbuf[c][nframes..] == old(Contents(jbuf))[c][nframes..]
  {
    ghost var b, was := buf[..], Contents(jbuf);
    var remaining, f, pos := nframes, 0, 0;
    while remaining > 0
      invariant f + remaining == nframes && pos == Channels * f
      invariant UnpackedUpTo(jbuf, b, f, 0, toFloat, was)
    {
      pos := UnpackFrame(jbuf, buf, pos, b, f, toFloat, was);
      remaining, f := remaining - 1, f + 1;
    }
    forall c | 0 <= c < Channels
      ensures jbuf[c][..nframes] == Channel(b, nframes, c, toFloat) && jbuf[c][nframes..] == was[c][nframes..]
    {
      UnpackedChannel(jbuf[c], b, nframes, c, toFloat, was[c]);
    }
  }

  /** The inner loop of uninterleave: frame `f`, which starts at `buf[pos]`, goes to sample `f` of every channel buffer. */
  method UnpackFrame(jbuf: seq<array<Sample>>, buf: array<Short>, pos: nat, ghost b: seq<Short>, f: nat,
                     toFloat: Short -> Sample, ghost was: seq<seq<Sample>>) returns (next: nat)
    requires |jbuf| == Channels && forall c, d :: 0 <= c < d < Channels ==> jbuf[c] != jbuf[d]
    requires forall c :: 0 <= c < Channels ==> f < jbuf[c].Length
    requires pos == Channels * f && Channels * (f + 1) <= buf.Length && b == buf[..]
    requires UnpackedUpTo(jbuf, b, f, 0, toFloat, was)
    modifies jbuf
    ensures next == pos + Channels && UnpackedUpTo(jbuf, b, f + 1, 0, toFloat, was)
  {
    next := pos;
    for n := 0 to Channels
      invariant next == pos + n
      invariant UnpackedUpTo(jbuf, b, f, n, toFloat, was)
    {
      StoreSample(jbuf, n, buf[next], b, f, toFloat, was);
      next := next + 1;
    }
  }

  /**
   * The first `f` samples of channel buffer `out` hold channel `c` of `buf`
   * and the rest still hold what `was` held.
   */
  ghost predicate Unpacked(out: array<Sample>, buf: seq<Short>, f: nat, c: nat, toFloat: Short -> Sample, was: seq<Sample>)
    reads out
  {
    Channels * f <= |buf| && c < Channels && f <= out.Length && |was| == out.Length &&
    (forall i :: 0 <= i < f ==> out[i] == toFloat(buf[Channels * i + c])) &&
    (forall i :: f <= i < out.Length ==> out[i] == was[i])
  }

  /** Channel buffer `out`, once uninterleave is done with its first `n` frames. */
  lemma UnpackedChannel(out: array<Sample>, buf: seq<Short>, n: nat, c: nat, toFloat: Short -> Sample, was: seq<Sample>)
    requires Unpacked(out, buf, n, c, toFloat, was)
    ensures out[..n] == Channel(buf, n, c, toFloat) && out[n..] == was[n..]
  {
    forall f | 0 <= f < n
      ensures out[..n][f] == Channel(buf, n, c, toFloat)[f]
    {
      ChannelAt(buf, n, c, toFloat, f);
    }
  }

  /**
   * Uninterleave is done with frame `f` for the channels before `n` and
   * with the frames before `f` for the others.
   */
  ghost predicate UnpackedUpTo(jbuf: seq<array<Sample>>, buf: seq<Short>, f: nat, n: nat, toFloat: Short -> Sample,
                               was: seq<seq<Sample>>)
    reads jbuf
  {
    |jbuf| == Channels && |was| == Channels &&
    forall c :: 0 <= c < Channels ==> Unpacked(jbuf[c], buf, if c < n then f + 1 else f, c, toFloat, was[c])
  }

  /** One step of uninterleave: sample `x`, which is `buf`'s channel `n` of frame `f`, goes to `jbuf[n][f]`. */
  method StoreSample(jbuf: seq<array<Sample>>, n: nat, x: Short, ghost buf: seq<Short>, f: nat, toFloat: Short -> Sample,
                     ghost was: seq<seq<Sample>>)
    requires |jbuf| == Channels && n < Channels && forall c, d :: 0 <= c < d < Channels ==> jbuf[c] != jbuf[d]
    requires f < jbuf[n].Length && Channels * (f + 1) <= |buf| && x == buf[Channels * f + n]
    requires UnpackedUpTo(jbuf, buf, f, n, toFloat, was)
    modifies jbuf[n]
    ensures UnpackedUpTo(jbuf, buf, f, n + 1, toFloat, was)
  {
    jbuf[n][f] := toFloat(x);
    forall c | 0 <= c < Channels && c != n
      ensures jbuf[c] != jbuf[n]
    {
    }
  }
}
