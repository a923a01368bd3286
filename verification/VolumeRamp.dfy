/**
 The volume ramp at the start of a capture: 16-bit volume and step, applied in place to the
 buffer of each read until the ramp's frames are used up.
 */
module VolumeRamp {
  import opened AudioCapture

  const CAPTURE_START_RAMP_MS: nat := 100
  const USHRT_MAX: nat := 65535

  type Volume = x: nat | x <= 65535

  /** Volume, step and the frames still to be scaled. */
  datatype Ramp = Ramp(vol: Volume, step: Volume, frames: nat)

  /** The ramp's length for a sample rate, in the 32-bit arithmetic of the expression. */
  function RampFrames(rate: nat): nat {
    CAPTURE_START_RAMP_MS * rate % 0x1_0000_0000 / 1000
  }

  /** pcm_input_start's set-up; it divides by the length. */
  function StartRamp(rate: nat): Ramp
    requires RampFrames(rate) > 0
  {
    var step := USHRT_MAX / RampFrames(rate);
    Ramp(0, step % 0x1_0000, RampFrames(rate))
  }

  /** The set-up divides by zero for the rates below 10 Hz, and again where the product wraps. */
  lemma RampLengthIsPositive(rate: nat)
    ensures RampFrames(rate) > 0 <==> CAPTURE_START_RAMP_MS * rate % 0x1_0000_0000 >= 1000
    ensures rate < 42949672 ==> RampFrames(rate) == rate / 10 && (RampFrames(rate) > 0 <==> rate >= 10)
  {
    assert rate < 42949672 ==> CAPTURE_START_RAMP_MS * rate % 0x1_0000_0000 == 100 * rate;
  }

  /** The volume cannot pass 65535 before the ramp is over. */
  ghost predicate NoWrap(r: Ramp) {
    r.vol + r.step * r.frames <= USHRT_MAX
  }

  lemma StartIsSafe(rate: nat)
    requires RampFrames(rate) > 0
    ensures NoWrap(StartRamp(rate)) && StartRamp(rate).step == USHRT_MAX / RampFrames(rate)
  {
    hide RampFrames;
    QuotientTimes(USHRT_MAX, RampFrames(rate));
  }

  lemma QuotientTimes(a: nat, n: nat)
    requires n > 0
    ensures 0 <= a / n <= a && a / n * n <= a
  {
    var q, r := a / n, a % n;
    assert a == q * n + r;
    TimesAtLeast(q, n);
  }

  lemma TimesAtLeast(q: nat, n: nat)
    requires n > 0
    ensures q * n >= q && (q > 0 ==> q * n >= n)
  {
    assert q * n == q + q * (n - 1);
    assert q > 0 ==> q * n == n + (q - 1) * n;
  }

  /** One frame further; the volume is a uint16_t. */
  function Advance(r: Ramp): Ramp
    requires r.frames > 0
  {
    Ramp((r.vol + r.step) % 0x1_0000, r.step, r.frames - 1)
  }

  lemma AdvanceIsSafe(r: Ramp)
    requires NoWrap(r) && r.frames > 0
    ensures NoWrap(Advance(r)) && Advance(r).vol == r.vol + r.step
  {
    assert r.step * r.frames == r.step + r.step * (r.frames - 1);
  }

  /** (int16_t)((x * vol) >> 16): the sample times the volume as a fraction of 65536, rounded down. */
  function Scale(x: Sample, vol: Volume): (y: Sample)
    ensures if x >= 0 then 0 <= y <= x else x <= y <= 0
    ensures y * 0x1_0000 <= x * vol < (y + 1) * 0x1_0000
    ensures vol == 0 ==> y == 0
  {
    ScaleBounds(x, vol);
    x * vol / 0x1_0000
  }

  lemma ProductBounds(x: nat, vol: Volume)
    ensures 0 <= x * vol <= x * 0x1_0000
  {
    assert x * 0x1_0000 == x * vol + x * (0x1_0000 - vol);
  }

  lemma QuotientBounds(p: int, x: int)
    requires 0 <= p <= x * 0x1_0000
    ensures 0 <= p / 0x1_0000 <= x
  {
  }

  lemma NegativeQuotientBounds(p: int, x: int)
    requires x * 0x1_0000 <= p <= 0
    ensures x <= p / 0x1_0000 <= 0
  {
  }

  lemma ScaleBounds(x: Sample, vol: Volume)
    ensures var y := x * vol / 0x1_0000; if x >= 0 then 0 <= y <= x else x <= y <= 0
  {
    if x >= 0 {
      ProductBounds(x, vol);
      QuotientBounds(x * vol, x);
    } else {
      var k: int := x;
      ProductBounds(-k, vol);
      assert x * vol == -(-k * vol);
      NegativeQuotientBounds(x * vol, x);
    }
  }

  function Channels(mono: bool): nat { if mono then 1 else 2 }

  /** Whole frames among the samples. */
  function FrameCount(s: seq<Sample>, mono: bool): nat { if mono then |s| else |s| / 2 }

  predicate WholeFrames(s: seq<Sample>, mono: bool) { mono || |s| % 2 == 0 }

  /** The samples of the frames in s after the ramp. */
  function Ramped(s: seq<Sample>, mono: bool, r: Ramp): (t: seq<Sample>)
    ensures |t| == |s|
    decreases |s|
  {
    if |s| < Channels(mono) || r.frames == 0 then s
    else if mono then [Scale(s[0], r.vol)] + Ramped(s[1..], mono, Advance(r))
    else [Scale(s[0], r.vol), Scale(s[1], r.vol)] + Ramped(s[2..], mono, Advance(r))
  }

  /** The ramp after n frames. */
  function After(r: Ramp, n: nat): Ramp
    decreases n
  {
    if n == 0 || r.frames == 0 then r else After(Advance(r), n - 1)
  }

  /** The ramp never wraps, however many frames have passed. */
  lemma {:induction false} AfterIsSafe(r: Ramp, n: nat)
    requires NoWrap(r)
    ensures NoWrap(After(r, n)) && r.vol <= After(r, n).vol
    ensures After(r, n).frames == if n < r.frames then r.frames - n else 0
    ensures After(r, n).step == r.step
    decreases n
  {
    hide NoWrap;
    if n > 0 && r.frames > 0 {
      AdvanceIsSafe(r);
      AfterIsSafe(Advance(r), n - 1);
    }
  }

  /** It rises linearly until its frames are used up. */
  lemma {:induction false} AfterIsLinear(r: Ramp, n: nat)
    requires NoWrap(r) && n <= r.frames
    ensures After(r, n).vol == r.vol + r.step * n
    decreases n
  {
    hide NoWrap;
    if n > 0 {
      AdvanceIsSafe(r);
      AfterIsLinear(Advance(r), n - 1);
      assert r.step * n == r.step + r.step * (n - 1);
    }
  }

  /** No sample gets louder. */
  lemma {:induction false} RampedIsQuieter(s: seq<Sample>, mono: bool, r: Ramp, i: nat)
    requires i < |s|
    ensures var y := Ramped(s, mono, r)[i]; if s[i] >= 0 then 0 <= y <= s[i] else s[i] <= y <= 0
    decreases |s|
  {
    var c := Channels(mono);
    if |s| >= c && r.frames > 0 && i >= c {
      RampedIsQuieter(s[c..], mono, Advance(r), i - c);
    }
  }

  /** Two reads give the same samples and the same final ramp as one read of both. */
  lemma {:induction false} RampedInTwo(a: seq<Sample>, b: seq<Sample>, mono: bool, r: Ramp)
    requires WholeFrames(a, mono)
    ensures Ramped(a + b, mono, r) == Ramped(a, mono, r) + Ramped(b, mono, After(r, FrameCount(a, mono)))
    decreases |a|
  {
    hide Scale, Advance;
    var c := Channels(mono);
    if a == [] {
      assert a + b == b;
    } else if r.frames > 0 {
      assert (a + b)[c..] == a[c..] + b;
      RampedInTwo(a[c..], b, mono, Advance(r));
      assert FrameCount(a, mono) == 1 + FrameCount(a[c..], mono);
    } else {
      NothingLeft(b, mono, r);
    }
  }

  lemma NothingLeft(s: seq<Sample>, mono: bool, r: Ramp)
    requires r.frames == 0
    ensures Ramped(s, mono, r) == s
  {
  }

  lemma {:induction false} AfterInTwo(r: Ramp, m: nat, n: nat)
    ensures After(r, m + n) == After(After(r, m), n)
    decreases m
  {
    if m > 0 && r.frames > 0 {
      AfterInTwo(Advance(r), m - 1, n);
    }
  }

  /** What each sample of each frame becomes: the volume of its frame applies, or none once the ramp is over. */
  lemma {:induction false} RampedAt(s: seq<Sample>, mono: bool, r: Ramp, k: nat, c: nat)
    requires c < Channels(mono) && Channels(mono) * k + Channels(mono) <= |s|
    ensures var i := Channels(mono) * k + c;
            Ramped(s, mono, r)[i] == if k < r.frames then Scale(s[i], After(r, k).vol) else s[i]
    decreases k
  {
    hide Scale, Advance;
    var n := Channels(mono);
    if r.frames == 0 {
      NothingLeft(s, mono, r);
    } else if k > 0 {
      RampedAt(s[n..], mono, Advance(r), k - 1, c);
      assert n * k + c == n + (n * (k - 1) + c);
      AdvanceCounts(r);
    }
  }

  lemma AdvanceCounts(r: Ramp)
    requires r.frames > 0
    ensures Advance(r).frames == r.frames - 1
  {
  }

  /**
   A capture fades in: in a read after n frames, a sample of the read's frame k is scaled by n + k steps of
   65535 / length, in both channels, up to the ramp's length; later frames are untouched.
   */
  lemma FadesIn(rate: nat, n: nat, s: seq<Sample>, mono: bool, k: nat, c: nat)
    requires RampFrames(rate) > 0 && c < Channels(mono) && Channels(mono) * k + Channels(mono) <= |s|
    ensures var i := Channels(mono) * k + c;
            var t, step := Ramped(s, mono, After(StartRamp(rate), n))[i], 65535 / RampFrames(rate);
            && (n + k < RampFrames(rate) ==> t * 0x1_0000 <= s[i] * (step * (n + k)) < (t + 1) * 0x1_0000)
            && (n + k >= RampFrames(rate) ==> t == s[i])
            && (n + k == 0 ==> t == 0)
  {
    hide Scale, Ramped, After;
    var r0 := StartRamp(rate);
    StartIsSafe(rate);
    StartFrames(rate);
    RampedAt(s, mono, After(r0, n), k, c);
    AfterFrames(r0, n);
    AfterInTwo(r0, n, k);
    hide RampFrames, StartRamp, NoWrap;
    if n + k < RampFrames(rate) {
      AfterIsLinear(r0, n + k);
      ScaleIsProduct(s[Channels(mono) * k + c], After(r0, n + k).vol);
    }
  }

  lemma StartFrames(rate: nat)
    requires RampFrames(rate) > 0
    ensures StartRamp(rate).frames == RampFrames(rate) && StartRamp(rate).vol == 0
  {
    hide RampFrames;
  }

  lemma ScaleIsProduct(x: Sample, vol: Volume)
    ensures Scale(x, vol) * 0x1_0000 <= x * vol < (Scale(x, vol) + 1) * 0x1_0000
    ensures vol == 0 ==> Scale(x, vol) == 0
  {
  }

  function Joined(chunks: seq<seq<Sample>>): seq<Sample> {
    if chunks == [] then [] else chunks[0] + Joined(chunks[1..])
  }

  /** The output of a sequence of reads. */
  function RampedChunks(chunks: seq<seq<Sample>>, mono: bool, r: Ramp): seq<Sample> {
    if chunks == [] then []
    else Ramped(chunks[0], mono, r) + RampedChunks(chunks[1..], mono, After(r, FrameCount(chunks[0], mono)))
  }

  function AfterChunks(chunks: seq<seq<Sample>>, mono: bool, r: Ramp): Ramp {
    if chunks == [] then r else AfterChunks(chunks[1..], mono, After(r, FrameCount(chunks[0], mono)))
  }

  /** Any split of a signal into reads of whole frames gives the same output and final ramp. */
  lemma {:induction false} ChunkingDoesNotMatter(chunks: seq<seq<Sample>>, mono: bool, r: Ramp)
    requires forall i :: 0 <= i < |chunks| ==> WholeFrames(chunks[i], mono)
    ensures RampedChunks(chunks, mono, r) == Ramped(Joined(chunks), mono, r)
    ensures WholeFrames(Joined(chunks), mono)
    ensures AfterChunks(chunks, mono, r) == After(r, FrameCount(Joined(chunks), mono))
  {
    if chunks != [] {
      var n := FrameCount(chunks[0], mono);
      ChunkingDoesNotMatter(chunks[1..], mono, After(r, n));
      RampedInTwo(chunks[0], Joined(chunks[1..]), mono, r);
      AfterInTwo(r, n, FrameCount(Joined(chunks[1..]), mono));
    }
  }

  class RampedStream {
    const mono: bool
    var ramp: Ramp

    constructor (monoMask: bool, rate: nat)
      requires RampFrames(rate) > 0
      ensures mono == monoMask && ramp == StartRamp(rate) && NoWrap(ramp)
    {
      mono := monoMask;
      ramp := StartRamp(rate);
      StartIsSafe(rate);
    }

    /** The mono loop of in_apply_ramp. */
    method RampMono(buffer: array<Sample>, count: nat, vol0: Volume)
      returns (vol: Volume)
      requires mono && NoWrap(ramp) && vol0 == ramp.vol && count <= ramp.frames && count <= buffer.Length
      modifies buffer
      ensures Ramp(vol, ramp.step, ramp.frames - count) == After(ramp, count)
      ensures buffer[..count] == Ramped(old(buffer[..count]), true, ramp)
      ensures buffer[count..] == old(buffer[count..])
    {
      hide NoWrap, Scale, Ramped;
      vol := vol0;
      ghost var s, r := buffer[..count], ramp;
      for i := 0 to count
        invariant r == After(ramp, i) == Ramp(vol, ramp.step, ramp.frames - i) && NoWrap(r)
        invariant forall k :: i <= k < buffer.Length ==> buffer[k] == old(buffer[k])
        invariant Ramped(s, true, ramp) == buffer[..i] + Ramped(s[i..], true, r)
      {
        AdvanceIsSafe(r);
        AfterInTwo(ramp, i, 1);
        MonoStep(s, i, r);
        ghost var done, rest := buffer[..i], Ramped(s[i + 1..], true, Advance(r));
        buffer[i] := Scale(buffer[i], vol);
        assert buffer[..i + 1] == done + [Scale(s[i], vol)];
        Regrouped(done, [Scale(s[i], vol)], rest);
        vol := (vol + ramp.step) % 0x1_0000;
        r := Advance(r);
      }
      EmptyRamped(s[count..], true, r);
    }

    /** The stereo loop of in_apply_ramp. */
    method RampStereo(buffer: array<Sample>, count: nat, vol0: Volume)
      returns (vol: Volume)
      requires !mono && NoWrap(ramp) && vol0 == ramp.vol && count <= ramp.frames && 2 * count <= buffer.Length
      modifies buffer
      ensures Ramp(vol, ramp.step, ramp.frames - count) == After(ramp, count)
      ensures buffer[..2 * count] == Ramped(old(buffer[..2 * count]), false, ramp)
      ensures buffer[2 * count..] == old(buffer[2 * count..])
    {
      hide NoWrap, Scale, Ramped;
      vol := vol0;
      ghost var s, r := buffer[..2 * count], ramp;
      for i := 0 to count
        invariant r == After(ramp, i) == Ramp(vol, ramp.step, ramp.frames - i) && NoWrap(r)
        invariant forall k :: 2 * i <= k < buffer.Length ==> buffer[k] == old(buffer[k])
        invariant Ramped(s, false, ramp) == buffer[..2 * i] + Ramped(s[2 * i..], false, r)
      {
        AdvanceIsSafe(r);
        AfterInTwo(ramp, i, 1);
        StereoStep(s, 2 * i, r);
        ghost var done, rest := buffer[..2 * i], Ramped(s[2 * i + 2..], false, Advance(r));
        ScaleFrame(buffer, 2 * i, vol);
        assert buffer[..2 * i + 2] == done + [Scale(s[2 * i], vol), Scale(s[2 * i + 1], vol)];
        Regrouped(done, [Scale(s[2 * i], vol), Scale(s[2 * i + 1], vol)], rest);
        vol := (vol + ramp.step) % 0x1_0000;
        r := Advance(r);
      }
      EmptyRamped(s[2 * count..], false, r);
    }

    /** Both channels of the frame at sample index k. */
    method ScaleFrame(buffer: array<Sample>, k: nat, vol: Volume)
      requires k + 2 <= buffer.Length
      modifies buffer
      ensures buffer[k] == Scale(old(buffer[k]), vol) && buffer[k + 1] == Scale(old(buffer[k + 1]), vol)
      ensures forall i :: 0 <= i < buffer.Length && i != k && i != k + 1 ==> buffer[i] == old(buffer[i])
    {
      buffer[k] := Scale(buffer[k], vol);
      buffer[k + 1] := Scale(buffer[k + 1], vol);
    }

    /** in_apply_ramp on the frames of one read. */
    method InApplyRamp(buffer: array<Sample>, frames: nat)
      requires NoWrap(ramp) && Samples(frames, mono) <= buffer.Length
      modifies this`ramp, buffer
      ensures NoWrap(ramp) && ramp == After(old(ramp), frames)
      ensures buffer[..Samples(frames, mono)] == Ramped(old(buffer[..Samples(frames, mono)]), mono, old(ramp))
      ensures buffer[Samples(frames, mono)..] == old(buffer[Samples(frames, mono)..])
    {
      hide NoWrap, Ramped, After;
      var count := if frames < ramp.frames then frames else ramp.frames;
      ghost var n, m := Samples(frames, mono), Samples(count, mono);
      ghost var s := buffer[..n];
      AfterIsSafe(ramp, frames);
      RampedUpTo(s, frames, mono, ramp);
      assert s[..m] == buffer[..m];
      var vol: Volume;
      if mono {
        vol := RampMono(buffer, count, ramp.vol);
      } else {
        vol := RampStereo(buffer, count, ramp.vol);
      }
      assert buffer[..n] == buffer[..m] + s[m..];
      ramp := Ramp(vol, ramp.step, ramp.frames - count);
    }
  }

  lemma Regrouped(a: seq<Sample>, b: seq<Sample>, c: seq<Sample>)
    ensures a + (b + c) == a + b + c
  {
  }

  lemma MonoStep(s: seq<Sample>, k: nat, r: Ramp)
    requires k < |s| && r.frames > 0
    ensures Ramped(s[k..], true, r) == [Scale(s[k], r.vol)] + Ramped(s[k + 1..], true, Advance(r))
  {
    assert s[k..][1..] == s[k + 1..];
  }

  lemma StereoStep(s: seq<Sample>, k: nat, r: Ramp)
    requires k + 2 <= |s| && r.frames > 0
    ensures Ramped(s[k..], false, r) == [Scale(s[k], r.vol), Scale(s[k + 1], r.vol)] + Ramped(s[k + 2..], false, Advance(r))
  {
    assert s[k..][2..] == s[k + 2..];
  }

  /** Only the frames that the ramp still has are scaled. */
  lemma RampedUpTo(s: seq<Sample>, frames: nat, mono: bool, r: Ramp)
    requires |s| == Samples(frames, mono)
    ensures var count := if frames < r.frames then frames else r.frames;
            && Ramped(s, mono, r) == Ramped(s[..Samples(count, mono)], mono, r) + s[Samples(count, mono)..]
            && After(r, count) == After(r, frames)
  {
    hide Ramped, After, Advance;
    var count := if frames < r.frames then frames else r.frames;
    var m := Samples(count, mono);
    AfterFrames(r, count);
    assert s == s[..m] + s[m..];
    RampedInTwo(s[..m], s[m..], mono, r);
    AfterInTwo(r, count, frames - count);
    AfterDone(After(r, count), frames - count);
    if count == r.frames {
      NothingLeft(s[m..], mono, After(r, count));
    } else {
      EmptyRamped(s[m..], mono, After(r, count));
    }
  }

  lemma AfterDone(r: Ramp, n: nat)
    requires n == 0 || r.frames == 0
    ensures After(r, n) == r
  {
  }

  lemma {:induction false} AfterFrames(r: Ramp, n: nat)
    ensures After(r, n).frames == if n < r.frames then r.frames - n else 0
    decreases n
  {
    if n > 0 && r.frames > 0 {
      AfterFrames(Advance(r), n - 1);
    }
  }

  lemma EmptyRamped(s: seq<Sample>, mono: bool, r: Ramp)
    requires s == []
    ensures Ramped(s, mono, r) == s
  {
  }
}
