/** Byte counts of middleware/bb_audio_stream.c in its 32-bit unsigned arithmetic. */
module AudioFormat {
  import P = AudioPipeline

  datatype Format = S16 | S24 | S32

  const WORD: nat := 0x1_0000_0000

  function SampleBytes(fmt: Format): nat { match fmt case S16 => 2 case S24 => 3 case S32 => 4 }

  /** Bytes of one frame: a sample for each channel. */
  function FrameBytes(channels: nat, fmt: Format): nat { channels * SampleBytes(fmt) }

  function Bytes(frames: nat, frameBytes: nat): nat { frames * frameBytes }

  /** Truncation to uint32_t. */
  function Wrap(x: nat): (r: nat)
    ensures r < WORD && if x < WORD then r == x else r < x
  {
    x % WORD
  }

  /** frames_to_bytes, what capture stores in a frame's size. */
  function FramesToBytes(frames: nat, channels: nat, fmt: Format): nat {
    Wrap(Bytes(frames, FrameBytes(channels, fmt)))
  }

  /** The division by which playback recovers the count. */
  function BytesToFrames(size: nat, channels: nat, fmt: Format): nat
    requires 1 <= FrameBytes(channels, fmt) < WORD
  {
    size / FrameBytes(channels, fmt)
  }

  lemma Order(a: nat, b: nat, k: nat)
    requires k >= 1
    ensures a <= b ==> Bytes(a, k) <= Bytes(b, k)
    ensures a < b ==> Bytes(a, k) + k <= Bytes(b, k)
  {
    if a <= b {
      var d := b - a;
      assert b * k == a * k + d * k;
    }
  }

  lemma QuotientBelow(size: nat, n: nat, k: nat)
    requires k >= 1
    ensures size < Bytes(n, k) ==> size / k < n
    ensures size == Bytes(n, k) ==> size / k == n
  {
    assert size == k * (size / k) + size % k;
    Order(n, size / k, k);
    Order(size / k, n, k);
  }

  /** Playback writes as many frames as capture read exactly when the byte count does not wrap. */
  lemma SameFramesExactly(frames: nat, channels: nat, fmt: Format)
    requires 1 <= FrameBytes(channels, fmt) < WORD
    ensures BytesToFrames(FramesToBytes(frames, channels, fmt), channels, fmt) == frames
            <==> Bytes(frames, FrameBytes(channels, fmt)) < WORD
  {
    QuotientBelow(FramesToBytes(frames, channels, fmt), frames, FrameBytes(channels, fmt));
  }

  /** The sizes reads can report for a device whose period buffer holds `period` frames. */
  function DeviceConfig(period: nat, channels: nat, fmt: Format): P.Config {
    P.Config(FramesToBytes(period, channels, fmt), set n: nat | 1 <= n <= period :: FramesToBytes(n, channels, fmt))
  }

  /** Without wrap-around every read of at least one frame fits the buffer and is never taken for the sentinel. */
  lemma DeviceConfigValid(period: nat, channels: nat, fmt: Format)
    requires channels >= 1 && Bytes(period, FrameBytes(channels, fmt)) < WORD
    ensures DeviceConfig(period, channels, fmt).Valid()
  {
    forall n: nat | 1 <= n <= period
      ensures 1 <= FramesToBytes(n, channels, fmt) <= FramesToBytes(period, channels, fmt)
    {
      Order(n, period, FrameBytes(channels, fmt));
      Order(0, n, FrameBytes(channels, fmt));
    }
  }
}
