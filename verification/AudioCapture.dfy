/**
 Audio capture: period-sized blocks from the PCM device are reduced to mono in place and
 handed out in requests of any size.
 */
module AudioCapture {
  type Sample = x: int | -32768 <= x < 32768

  const ENODEV: int := 19

  /** The left channel of interleaved stereo samples. */
  function Left(block: seq<Sample>): (r: seq<Sample>)
    ensures |r| == |block| / 2
  {
    seq(|block| / 2, i requires 0 <= i < |block| / 2 => block[2 * i])
  }

  function Converted(block: seq<Sample>, mono: bool): seq<Sample> {
    if mono then Left(block) else block
  }

  /** All blocks read, converted and put end to end. */
  function Stream(blocks: seq<seq<Sample>>, mono: bool): seq<Sample> {
    if blocks == [] then []
    else Stream(blocks[..|blocks| - 1], mono) + Converted(blocks[|blocks| - 1], mono)
  }

  /** Samples in n frames. */
  function Samples(n: nat, mono: bool): nat { if mono then n else 2 * n }

  ghost predicate WholeBlocks(blocks: seq<seq<Sample>>, period: nat) {
    forall i :: 0 <= i < |blocks| ==> |blocks[i]| == 2 * period
  }

  lemma ConvertedLength(block: seq<Sample>, period: nat, mono: bool)
    requires |block| == 2 * period
    ensures |Converted(block, mono)| == Samples(period, mono)
  {
  }

  lemma {:induction false} StreamLength(blocks: seq<seq<Sample>>, period: nat, mono: bool)
    requires WholeBlocks(blocks, period)
    ensures |Stream(blocks, mono)| == Samples(period, mono) * |blocks|
  {
    hide Samples, Converted;
    var n := |blocks|;
    if n > 0 {
      StreamLength(blocks[..n - 1], period, mono);
      ConvertedLength(blocks[n - 1], period, mono);
      TimesSum(Samples(period, mono), n - 1, 1);
    }
  }

  /** Left and right samples in turn, as a stereo device delivers them. */
  function Interleaved(left: seq<Sample>, right: seq<Sample>): (r: seq<Sample>)
    requires |left| == |right|
    ensures |r| == 2 * |left|
  {
    if left == [] then [] else [left[0], right[0]] + Interleaved(left[1..], right[1..])
  }

  lemma {:induction false} InterleavedAt(left: seq<Sample>, right: seq<Sample>, i: nat)
    requires |left| == |right| && i < |left|
    ensures Interleaved(left, right)[2 * i] == left[i] && Interleaved(left, right)[2 * i + 1] == right[i]
  {
    if i > 0 {
      InterleavedAt(left[1..], right[1..], i - 1);
    }
  }

  /** The mono form of a stereo block is its left channel. */
  lemma LeftOfInterleaved(left: seq<Sample>, right: seq<Sample>)
    requires |left| == |right|
    ensures Converted(Interleaved(left, right), true) == left
    ensures Converted(Interleaved(left, right), false) == Interleaved(left, right)
  {
    forall i | 0 <= i < |left|
      ensures Left(Interleaved(left, right))[i] == left[i]
    {
      InterleavedAt(left, right, i);
    }
  }

  /** Where each sample of the stream comes from: sample j of block b, or the left one of frame j. */
  lemma {:induction false} StreamAt(blocks: seq<seq<Sample>>, period: nat, mono: bool, b: nat, j: nat)
    requires WholeBlocks(blocks, period) && b < |blocks| && j < if mono then period else 2 * period
    ensures Samples(period, mono) * b + j < |Stream(blocks, mono)|
    ensures Stream(blocks, mono)[Samples(period, mono) * b + j] == if mono then blocks[b][2 * j] else blocks[b][j]
  {
    hide Samples, Stream, Converted;
    var n := |blocks| - 1;
    StreamLength(blocks[..n], period, mono);
    ConvertedAt(blocks[n], period, mono, if b < n then 0 else j);
    PeriodSamples(period, mono);
    assert Stream(blocks, mono) == Stream(blocks[..n], mono) + Converted(blocks[n], mono) by { LastBlock(blocks, mono); }
    if b < n {
      StreamAt(blocks[..n], period, mono, b, j);
    }
  }

  lemma LastBlock(blocks: seq<seq<Sample>>, mono: bool)
    requires blocks != []
    ensures Stream(blocks, mono) == Stream(blocks[..|blocks| - 1], mono) + Converted(blocks[|blocks| - 1], mono)
  {
  }

  lemma ConvertedAt(block: seq<Sample>, period: nat, mono: bool, j: nat)
    requires |block| == 2 * period && j < if mono then period else 2 * period
    ensures |Converted(block, mono)| == if mono then period else 2 * period
    ensures Converted(block, mono)[j] == if mono then block[2 * j] else block[j]
  {
  }

  lemma PeriodSamples(period: nat, mono: bool)
    ensures Samples(period, mono) == if mono then period else 2 * period
  {
  }

  lemma NoSamples(mono: bool)
    ensures Samples(0, mono) == 0
  {
  }

  lemma SamplesFit(n: nat, m: nat, mono: bool)
    ensures Samples(n + m, mono) == Samples(n, mono) + Samples(m, mono)
  {
  }

  lemma MoreTimes(period: nat, m: nat, n: nat)
    requires m <= n && period > 0
    ensures period * n == period * m + period * (n - m) && (n > m ==> period * (n - m) > 0)
  {
    TimesSum(period, m, n - m);
    if n > m {
      TimesSum(period, 1, n - m - 1);
    }
  }

  lemma TimesSum(period: nat, m: nat, n: nat)
    ensures period * (m + n) == period * m + period * n && period * n >= 0
  {
  }

  lemma SamplesTimes(period: nat, n: nat, mono: bool)
    ensures Samples(period, mono) * n == if mono then period * n else 2 * (period * n)
  {
  }

  lemma MoreWholeBlocks(blocks: seq<seq<Sample>>, block: seq<Sample>, period: nat)
    requires WholeBlocks(blocks, period) && |block| == 2 * period
    ensures WholeBlocks(blocks + [block], period)
  {
  }

  lemma StreamGrows(blocks: seq<seq<Sample>>, block: seq<Sample>, mono: bool)
    ensures Stream(blocks + [block], mono) == Stream(blocks, mono) + Converted(block, mono)
  {
    assert (blocks + [block])[..|blocks|] == blocks;
  }

  /** The first n samples of the caller's buffer are the newly delivered ones; the others are untouched. */
  ghost predicate Copied(was: seq<Sample>, dst: seq<Sample>, d0: seq<Sample>, d1: seq<Sample>, n: nat) {
    n <= |dst| == |was| && d1 == d0 + dst[..n] && dst[n..] == was[n..]
  }

  lemma NothingCopied(dst: seq<Sample>, d: seq<Sample>)
    ensures Copied(dst, dst, d, d, 0)
  {
  }

  lemma CopiedLength(was: seq<Sample>, dst: seq<Sample>, d0: seq<Sample>, d1: seq<Sample>, n: nat)
    requires Copied(was, dst, d0, d1, n)
    ensures n <= |dst| && |d1| == |d0| + n
  {
  }

  lemma CopiedMore(was: seq<Sample>, mid: seq<Sample>, dst: seq<Sample>, d0: seq<Sample>, d1: seq<Sample>, d2: seq<Sample>,
                   n: nat, m: nat)
    requires Copied(was, mid, d0, d1, n) && n + m <= |dst| == |mid|
    requires d2 == d1 + dst[n..n + m] && dst[..n] == mid[..n] && dst[n + m..] == mid[n + m..]
    ensures Copied(was, dst, d0, d2, n + m)
  {
    assert dst[..n + m] == dst[..n] + dst[n..n + m];
    assert mid[n + m..] == mid[n..][m..] && was[n + m..] == was[n..][m..];
  }

  /** What one pcm_read of a period does: it delivers a block, or fails and leaves the buffer in any state. */
  datatype Read = Block(samples: seq<Sample>) | Failure(status: int, left: seq<Sample>)

  predicate ReadFits(r: Read, size: nat) {
    match r
    case Block(samples) => |samples| == size
    case Failure(status, left) => status < 0 && |left| == size
  }

  predicate DeviceFits(device: seq<Read>, size: nat) {
    forall i :: 0 <= i < |device| ==> ReadFits(device[i], size)
  }

  /** One read of the device, with its status, and the blocks read before and after. */
  ghost predicate OneRead(device: seq<Read>, rest: seq<Read>, b0: seq<seq<Sample>>, b1: seq<seq<Sample>>, status: int) {
    if device == [] then status == -ENODEV && rest == [] && b1 == b0
    else
      && rest == device[1..]
      && match device[0]
         case Block(samples) => status == 0 && b1 == b0 + [samples]
         case Failure(e, _) => status == e < 0 && b1 == b0
  }

  /** Successful reads only: the blocks that came are what the device delivered, in order. */
  ghost predicate GoodReads(device: seq<Read>, rest: seq<Read>, b0: seq<seq<Sample>>, b1: seq<seq<Sample>>) {
    && |b0| <= |b1| <= |b0| + |device|
    && b1[..|b0|] == b0 && rest == device[|b1| - |b0|..]
    && forall i :: 0 <= i < |b1| - |b0| ==> device[i] == Block(b1[|b0| + i])
  }

  /** Good reads until one fails; without an open device there are none. */
  ghost predicate FailedReads(open: bool, device: seq<Read>, rest: seq<Read>, b0: seq<seq<Sample>>, b1: seq<seq<Sample>>,
                              status: int) {
    if !open then status == -ENODEV && rest == device && b1 == b0
    else
      && |b0| <= |b1| <= |b0| + |device|
      && var mid := device[|b1| - |b0|..];
         GoodReads(device, mid, b0, b1) && OneRead(mid, rest, b1, b1, status)
  }

  /** The blocks the device still delivers before it fails. */
  function Good(device: seq<Read>): (n: nat)
    ensures n <= |device|
  {
    if device == [] || device[0].Failure? then 0 else 1 + Good(device[1..])
  }

  lemma {:induction false} GoodFrom(device: seq<Read>, k: nat)
    requires k <= |device| && forall i :: 0 <= i < k ==> device[i].Block?
    ensures Good(device) == k + Good(device[k..])
  {
    if k > 0 {
      GoodFrom(device[1..], k - 1);
      assert device[1..][k - 1..] == device[k..];
    } else {
      assert device[0..] == device;
    }
  }

  /** A call with good reads only has read no more blocks than there were, a failing call all of them. */
  lemma ReadsOfGood(failed: bool, open: bool, d0: seq<Read>, d1: seq<Read>, b0: seq<seq<Sample>>, b1: seq<seq<Sample>>,
                    status: int)
    requires if failed then FailedReads(open, d0, d1, b0, b1, status) && status < 0 else GoodReads(d0, d1, b0, b1)
    requires !open ==> b1 == b0
    ensures |b0| <= |b1| && (open ==> |b1| - |b0| <= Good(d0) && (failed ==> |b1| - |b0| == Good(d0)))
  {
    if open {
      GoodFrom(d0, |b1| - |b0|);
    }
  }

  lemma NoReads(device: seq<Read>, b: seq<seq<Sample>>)
    ensures GoodReads(device, device, b, b)
  {
  }

  lemma BlocksGrow(failed: bool, open: bool, d0: seq<Read>, d1: seq<Read>, b0: seq<seq<Sample>>, b1: seq<seq<Sample>>,
                   status: int)
    requires if failed then FailedReads(open, d0, d1, b0, b1, status) else GoodReads(d0, d1, b0, b1)
    ensures |b0| <= |b1| && (|b0| == |b1| ==> b0 == b1)
  {
  }

  lemma ReadsFail(open: bool, d0: seq<Read>, d1: seq<Read>, d2: seq<Read>, b0: seq<seq<Sample>>, b1: seq<seq<Sample>>,
                  status: int)
    requires GoodReads(d0, d1, b0, b1)
    requires if open then OneRead(d1, d2, b1, b1, status) else status == -ENODEV && d2 == d0 && b1 == b0
    ensures FailedReads(open, d0, d2, b0, b1, status) && |b0| <= |b1| && b1[..|b0|] == b0
  {
  }

  /** One more good read. */
  lemma OneMoreRead(d0: seq<Read>, d1: seq<Read>, d2: seq<Read>, b0: seq<seq<Sample>>, b1: seq<seq<Sample>>, b2: seq<seq<Sample>>)
    requires GoodReads(d0, d1, b0, b1) && OneRead(d1, d2, b1, b2, 0)
    ensures GoodReads(d0, d2, b0, b2)
  {
    var k := |b1| - |b0|;
    assert d1 != [] && d1[0] == d0[k] && d0[k..][1..] == d0[k + 1..];
    assert b2[..|b0|] == b1[..|b0|];
  }

  class StreamIn {
    const mono: bool
    const periodSize: nat
    const buffer: array<Sample>
    var pcmOpen: bool
    var framesIn: nat
    var readStatus: int
    /** The outcomes of the reads to come; after the last of them the device is gone. */
    var device: seq<Read>
    /** The blocks read so far and the samples handed out so far. */
    ghost var blocks: seq<seq<Sample>>
    ghost var delivered: seq<Sample>

    constructor (monoMask: bool, period: nat, outcomes: seq<Read>)
      requires period > 0 && DeviceFits(outcomes, 2 * period)
      ensures Valid() && fresh(buffer) && mono == monoMask && periodSize == period
      ensures blocks == [] && delivered == [] && framesIn == 0 && pcmOpen && device == outcomes
    {
      mono, periodSize := monoMask, period;
      buffer := new Sample[2 * period](_ => 0);
      pcmOpen, framesIn, readStatus := true, 0, 0;
      device, blocks, delivered := outcomes, [], [];
    }

    /** The frames of the last block that are still to be handed out. */
    ghost function Pending(): seq<Sample>
      reads this`framesIn, buffer
      requires framesIn <= periodSize && buffer.Length == 2 * periodSize
    {
      buffer[Samples(periodSize - framesIn, mono)..Samples(periodSize, mono)]
    }

    /** What was delivered, followed by what is pending, is everything that was read. */
    ghost predicate Valid()
      reads this, buffer
    {
      && 0 < periodSize && buffer.Length == 2 * periodSize
      && framesIn <= periodSize
      && (framesIn > 0 ==> pcmOpen && readStatus == 0)
      && WholeBlocks(blocks, periodSize) && DeviceFits(device, 2 * periodSize)
      && Stream(blocks, mono) == delivered + Pending()
    }

    /** pcm_read of one period. */
    method PcmRead() returns (status: int)
      requires buffer.Length == 2 * periodSize && DeviceFits(device, 2 * periodSize)
      modifies buffer, this`blocks, this`device
      ensures status <= 0 && DeviceFits(device, 2 * periodSize)
      ensures OneRead(old(device), device, old(blocks), blocks, status)
      ensures status == 0 ==> blocks == old(blocks) + [buffer[..]]
    {
      if device == [] {
        return -ENODEV;
      }
      var outcome := device[0];
      assert ReadFits(outcome, 2 * periodSize);
      device := device[1..];
      match outcome
      case Block(samples) =>
        Fill(samples);
        blocks := blocks + [samples];
        status := 0;
      case Failure(e, left) =>
        Fill(left);
        status := e;
    }

    method Fill(samples: seq<Sample>)
      requires |samples| == buffer.Length
      modifies buffer
      ensures buffer[..] == samples
    {
      forall i | 0 <= i < |samples| {
        buffer[i] := samples[i];
      }
    }

    /** Discards the right channel in place; sample i is written after sample 2i was read. */
    method DownmixInPlace()
      requires buffer.Length == 2 * periodSize
      modifies buffer
      ensures buffer[..periodSize] == Left(old(buffer[..]))
    {
      var i := 1;
      while i < periodSize
        invariant 1 <= i
        invariant forall j :: 0 <= j < i && j < periodSize ==> buffer[j] == old(buffer[2 * j])
        invariant forall j :: i <= j < buffer.Length ==> buffer[j] == old(buffer[j])
      {
        buffer[i] := buffer[i * 2];
        i := i + 1;
      }
    }

    /** pcm_input_start: frames left from an earlier session are dropped and the accounts start afresh. */
    method Start(isOpen: bool)
      requires Valid()
      modifies this`pcmOpen, this`framesIn, this`blocks, this`delivered
      ensures Valid() && framesIn == 0 && blocks == [] && delivered == [] && pcmOpen == isOpen
    {
      pcmOpen, framesIn := isOpen, 0;
      blocks, delivered := [], [];
    }

    /** The middle of get_input_next_buffer: another block, if it can be read. */
    method ReadPeriod()
      requires Valid() && framesIn == 0 && pcmOpen
      modifies this`framesIn, this`readStatus, this`blocks, this`device, buffer
      ensures Valid() && readStatus <= 0 && OneRead(old(device), device, old(blocks), blocks, readStatus)
      ensures framesIn == if readStatus == 0 then periodSize else 0
    {
      hide OneRead, Stream, WholeBlocks, DeviceFits;
      ghost var before := blocks;
      NothingPending();
      readStatus := PcmRead();
      if readStatus != 0 {
        FailedRead(old(device), device, before, blocks, readStatus);
        NothingPending();
        return;
      }
      ghost var block := buffer[..];
      framesIn := periodSize;
      if mono {
        DownmixInPlace();
      }
      StreamGrows(before, block, mono);
      MoreWholeBlocks(before, block, periodSize);
      assert Pending() == Converted(block, mono);
    }

    lemma NothingPending()
      requires framesIn == 0 && buffer.Length == 2 * periodSize
      ensures Pending() == [] && delivered + Pending() == delivered
    {
    }

    lemma FailedRead(d0: seq<Read>, d1: seq<Read>, b0: seq<seq<Sample>>, b1: seq<seq<Sample>>, status: int)
      requires OneRead(d0, d1, b0, b1, status) && status != 0
      ensures b1 == b0
    {
    }

    /**
     get_input_next_buffer: `raw` is the index of the first frame handed out, -1 for no buffer.
     Another block is read only when none is pending.
     */
    method GetInputNextBuffer(request: nat) returns (raw: int, frameCount: nat, status: int)
      requires Valid()
      modifies this`framesIn, this`readStatus, this`blocks, this`device, buffer
      ensures Valid() && delivered == old(delivered)
      ensures status == readStatus && (raw == -1 <==> status != 0)
      ensures status == 0 ==> && framesIn > 0 && raw == Samples(periodSize - framesIn, mono)
                              && frameCount == if request < framesIn then request else framesIn
      ensures status == 0 ==> && raw + Samples(frameCount, mono) <= buffer.Length
                              && buffer[raw..raw + Samples(frameCount, mono)] == Pending()[..Samples(frameCount, mono)]
      ensures status != 0 ==> frameCount == 0 && status < 0 && blocks == old(blocks) && framesIn == old(framesIn)
      ensures old(framesIn) > 0 ==>
                status == 0 && blocks == old(blocks) && device == old(device) && framesIn == old(framesIn)
      ensures old(framesIn) == 0 && pcmOpen ==> OneRead(old(device), device, old(blocks), blocks, status)
      ensures !pcmOpen ==> status == -ENODEV && device == old(device)
    {
      hide Stream, WholeBlocks, DeviceFits, OneRead, Pending;
      if !pcmOpen {
        readStatus := -ENODEV;
        return -1, 0, readStatus;
      }
      if framesIn == 0 {
        ReadPeriod();
        if readStatus != 0 {
          FailedRead(old(device), device, old(blocks), blocks, readStatus);
          return -1, 0, readStatus;
        }
      }
      frameCount := if request > framesIn then framesIn else request;
      raw := Samples(periodSize - framesIn, mono);
      status := readStatus;
      PendingFront(frameCount);
    }

    /** The front of what is pending, as a slice of the buffer. */
    lemma PendingFront(n: nat)
      requires n <= framesIn <= periodSize && buffer.Length == 2 * periodSize
      ensures var raw := Samples(periodSize - framesIn, mono);
              && raw + Samples(n, mono) <= buffer.Length && Samples(n, mono) <= |Pending()|
              && buffer[raw..raw + Samples(n, mono)] == Pending()[..Samples(n, mono)]
    {
    }

    /** release_input_buffer: the frames handed out are no longer pending. */
    method ReleaseInputBuffer(frameCount: nat)
      requires Valid() && frameCount <= framesIn
      modifies this`framesIn, this`delivered
      ensures Valid() && framesIn == old(framesIn) - frameCount
      ensures delivered == old(delivered) + old(Pending())[..Samples(frameCount, mono)]
    {
      hide Stream, WholeBlocks, DeviceFits;
      ghost var n, pending, was := Samples(frameCount, mono), Pending(), delivered;
      delivered := delivered + pending[..n];
      framesIn := framesIn - frameCount;
      assert Pending() == pending[n..];
      hide Pending, Samples;
      assert was + pending == was + pending[..n] + pending[n..];
    }

    /** One turn of pcm_read_frames: the next buffer is copied to sample index `at` and released. */
    method ReadSome(dst: array<Sample>, at: nat, frames: nat) returns (count: nat)
      requires Valid() && dst != buffer && frames > 0 && at + Samples(frames, mono) <= dst.Length
      modifies this`framesIn, this`readStatus, this`blocks, this`device, this`delivered, buffer, dst
      ensures Valid() && readStatus <= 0
      ensures readStatus != 0 ==> old(framesIn) == framesIn == 0 && blocks == old(blocks)
      ensures old(framesIn) > 0 ==> blocks == old(blocks) && device == old(device)
      ensures old(framesIn) == 0 && pcmOpen ==> OneRead(old(device), device, old(blocks), blocks, readStatus)
      ensures !pcmOpen ==> readStatus == -ENODEV && device == old(device)
      ensures if readStatus == 0 then 0 < count <= frames else count == 0
      ensures delivered == old(delivered) + dst[at..at + Samples(count, mono)]
      ensures dst[..at] == old(dst[..at])
      ensures dst[at + Samples(count, mono)..] == old(dst[at + Samples(count, mono)..])
    {
      hide Stream, WholeBlocks, Valid, Pending, OneRead;
      var raw, frameCount, status := GetInputNextBuffer(frames);
      count := 0;
      if raw != -1 {
        CopySamples(dst, at, raw, Samples(frameCount, mono));
        count := frameCount;
      }
      ReleaseInputBuffer(frameCount);
    }

    /** The memcpy of pcm_read_frames. */
    method CopySamples(dst: array<Sample>, at: nat, raw: nat, n: nat)
      requires dst != buffer && raw + n <= buffer.Length && at + n <= dst.Length
      modifies dst
      ensures dst[at..at + n] == buffer[raw..raw + n]
      ensures dst[..at] == old(dst[..at]) && dst[at + n..] == old(dst[at + n..])
    {
      forall i | 0 <= i < n {
        dst[at + i] := buffer[raw + i];
      }
    }

    /** The frames that can be had before the device fails: those pending and those of the blocks to come. */
    ghost function Available(): nat
      reads this`framesIn, this`pcmOpen, this`device
    {
      framesIn + if pcmOpen then periodSize * Good(device) else 0
    }

    lemma ClosedHasNothing()
      requires Valid()
      ensures !pcmOpen ==> framesIn == 0
      ensures periodSize > 0
    {
    }

    /** The loop of pcm_read_frames. */
    method ReadLoop(dst: array<Sample>, frames: int) returns (r: int, ghost copied: nat)
      requires Valid() && dst != buffer && (frames > 0 ==> Samples(frames, mono) <= dst.Length)
      modifies this`framesIn, this`readStatus, this`blocks, this`device, this`delivered, buffer, dst
      ensures Valid()
      ensures Copied(old(dst[..]), dst[..], old(delivered), delivered, Samples(copied, mono))
      ensures r < 0 ==> r == readStatus && copied < frames && framesIn == 0
      ensures r >= 0 ==> r == copied == if frames > 0 then frames else 0
      ensures r >= 0 ==> GoodReads(old(device), device, old(blocks), blocks)
      ensures r < 0 ==> FailedReads(pcmOpen, old(device), device, old(blocks), blocks, r)
      ensures !pcmOpen ==> device == old(device) && blocks == old(blocks)
    {
      hide Stream, WholeBlocks, Valid, Pending, OneRead, GoodReads, FailedReads, Copied, Samples;
      ghost var was, d0, b0, given0 := dst[..], device, blocks, delivered;
      var pos := 0;
      NothingCopied(was, given0);
      NoReads(d0, b0);
      NoSamples(mono);
      while pos < frames
        invariant 0 <= pos && (frames > 0 ==> pos <= frames) && (frames <= 0 ==> pos == 0)
        invariant Valid() && Copied(was, dst[..], given0, delivered, Samples(pos, mono))
        invariant GoodReads(d0, device, b0, blocks)
        invariant !pcmOpen ==> device == d0 && blocks == b0
        decreases frames - pos
      {
        SamplesFit(pos, frames - pos, mono);
        ghost var before, given, d, b := dst[..], delivered, device, blocks;
        var count := ReadSome(dst, Samples(pos, mono), frames - pos);
        SamplesFit(pos, count, mono);
        SamplesFit(count, frames - pos - count, mono);
        CopiedMore(was, before, dst[..], given0, given, delivered, Samples(pos, mono), Samples(count, mono));
        if readStatus != 0 {
          ReadsFail(pcmOpen, d0, d, device, b0, blocks, readStatus);
          return readStatus, pos;
        }
        if d != device || b != blocks {
          OneMoreRead(d0, d, device, b0, b, blocks);
        }
        pos := pos + count;
      }
      return pos, pos;
    }

    /**
     pcm_read_frames without a resampler. It returns the frames asked for or the failing status; either
     way what it copied is the next part of the stream. It fails just when more frames are asked for than
     can be had, and has then used up, for nothing, all that could be had.
     */
    method PcmReadFrames(dst: array<Sample>, frames: int) returns (r: int, ghost copied: nat)
      requires Valid() && dst != buffer && (frames > 0 ==> Samples(frames, mono) <= dst.Length)
      modifies this`framesIn, this`readStatus, this`blocks, this`device, this`delivered, buffer, dst
      ensures Valid()
      ensures Copied(old(dst[..]), dst[..], old(delivered), delivered, Samples(copied, mono))
      ensures r < 0 ==> r == readStatus && copied < frames
      ensures r >= 0 ==> r == copied == if frames > 0 then frames else 0
      ensures |old(blocks)| <= |blocks|
      ensures copied + framesIn == old(framesIn) + periodSize * (|blocks| - |old(blocks)|)
      ensures r < 0 ==> framesIn == 0 && (copied == 0 <==> old(framesIn) == 0 && blocks == old(blocks))
      ensures r >= 0 ==> GoodReads(old(device), device, old(blocks), blocks)
      ensures r < 0 ==> FailedReads(pcmOpen, old(device), device, old(blocks), blocks, r)
      ensures !pcmOpen ==> device == old(device) && blocks == old(blocks)
      ensures r < 0 <==> frames > old(Available())
      ensures r < 0 ==> copied == old(Available())
    {
      hide Stream, WholeBlocks, Valid, Pending, OneRead, GoodReads, FailedReads, Copied, Good;
      ghost var outcomes := device;
      ClosedHasNothing();
      ghost var framesBefore, given, read := framesIn, |delivered|, blocks;
      FrameConservation();
      r, copied := ReadLoop(dst, frames);
      CopiedLength(old(dst[..]), dst[..], old(delivered), delivered, Samples(copied, mono));
      BlocksGrow(r < 0, pcmOpen, old(device), device, read, blocks, r);
      Accounts(framesBefore, given, |read|, copied);
      ReadsOfGood(r < 0, pcmOpen, outcomes, device, read, blocks, r);
      if pcmOpen {
        MoreTimes(periodSize, |blocks| - |read|, Good(outcomes));
      }
    }

    /** What was copied since earlier counts is what was pending then, and every block since, less what is pending now. */
    lemma Accounts(framesBefore: nat, deliveredBefore: nat, blocksBefore: nat, copied: nat)
      requires Valid() && blocksBefore <= |blocks| && |delivered| == deliveredBefore + Samples(copied, mono)
      requires deliveredBefore + Samples(framesBefore, mono) == Samples(periodSize, mono) * blocksBefore
      ensures copied + framesIn == framesBefore + periodSize * (|blocks| - blocksBefore)
      ensures |blocks| > blocksBefore ==> periodSize * (|blocks| - blocksBefore) > 0
    {
      hide Stream, WholeBlocks, DeviceFits, Pending;
      FrameConservation();
      hide Valid;
      SamplesTimes(periodSize, |blocks|, mono);
      SamplesTimes(periodSize, blocksBefore, mono);
      MoreTimes(periodSize, blocksBefore, |blocks|);
    }

    /** Frames delivered and frames pending add up to the blocks read. */
    lemma FrameConservation()
      requires Valid()
      ensures |delivered| + Samples(framesIn, mono) == Samples(periodSize, mono) * |blocks|
      ensures delivered <= Stream(blocks, mono)
    {
      StreamLength(blocks, periodSize, mono);
    }
  }

  /** A stereo block of one frame and then a failure: two frames are asked for and the first one is lost. */
  method OneGoodBlockThenFailure(left: Sample, right: Sample) returns (r: int, ghost copied: nat, ghost lost: seq<Sample>)
    ensures r == -5 && copied == 1 && lost == [left, right]
  {
    hide FailedReads, GoodReads, OneRead, Copied, Stream, WholeBlocks, StreamIn.Valid, StreamIn.Pending;
    var outcomes := [Block([left, right]), Failure(-5, [0, 0])];
    var s := new StreamIn(false, 1, outcomes);
    var dst := new Sample[4](_ => 0);
    r, copied := s.PcmReadFrames(dst, 2);
    OneBlockRead([left, right], [0, 0], s.device, s.blocks, r, copied + s.framesIn);
    lost := s.delivered;
    s.FrameConservation();
    OneBlockStream([left, right]);
  }

  lemma OneBlockStream(block: seq<Sample>)
    ensures Stream([block], false) == block
  {
    assert [] + [block] == [block];
    StreamGrows([], block, false);
  }

  /** Of a block and a failure, asked for two frames, just the block is read. */
  lemma OneBlockRead(block: seq<Sample>, left: seq<Sample>, rest: seq<Read>, blocks: seq<seq<Sample>>, r: int, frames: int)
    requires frames == |blocks| && (r >= 0 ==> frames >= 2)
    requires var outcomes := [Block(block), Failure(-5, left)];
             if r < 0 then FailedReads(true, outcomes, rest, [], blocks, r) else GoodReads(outcomes, rest, [], blocks)
    ensures r == -5 && blocks == [block]
  {
    var outcomes, n := [Block(block), Failure(-5, left)], |blocks|;
    assert outcomes[0] == Block(block) && outcomes[1] == Failure(-5, left);
    assert n > 0 ==> outcomes[0] == Block(blocks[0]);
    assert outcomes[0..] == outcomes && outcomes[1..] == [Failure(-5, left)];
  }
}
