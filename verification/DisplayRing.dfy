/**
 The display renderers number the buffers they queue in the output driver around a ring and only
 count how many are outstanding; the driver returns them oldest first.
 */
module DisplayRing {
  /** x modulo max for x below 2 * max. */
  function Wrap(x: int, max: int): int {
    if x < max then x else x - max
  }

  /** The `count` ring indices before `index`, oldest first. */
  function LastIndices(index: int, count: nat, max: int): seq<int> {
    if count == 0 then [] else [Wrap(index + max - count, max)] + LastIndices(index, count - 1, max)
  }

  lemma {:induction false} LastIndexAt(index: nat, count: nat, max: nat, j: nat)
    requires index < max && j < count <= max
    ensures |LastIndices(index, count, max)| == count
    ensures LastIndices(index, count, max)[j] == Wrap(index + max - count + j, max)
  {
    if j > 0 {
      LastIndexAt(index, count - 1, max, j - 1);
    } else if count > 1 {
      LastIndexAt(index, count - 1, max, 0);
    }
  }

  lemma NextModulo(index: nat, max: nat)
    requires index < max
    ensures (index + 1) % max == Wrap(index + 1, max)
  {
    if index + 1 == max {
      assert max % max == 0;
    }
  }

  /** Queueing under the current index moves the window along. */
  lemma {:induction false} QueueIndex(index: nat, count: nat, max: nat)
    requires index < max && count < max
    ensures LastIndices(index, count, max) + [index] == LastIndices((index + 1) % max, count + 1, max)
  {
    NextModulo(index, max);
    var next := Wrap(index + 1, max);
    if count == 0 {
      assert LastIndices(next, 1, max) == [Wrap(next + max - 1, max)] + LastIndices(next, 0, max);
    } else {
      QueueIndex(index, count - 1, max);
      assert Wrap(index + max - count, max) == Wrap(next + max - (count + 1), max);
    }
  }

  lemma DequeueIndex(index: nat, count: nat, max: nat)
    requires index < max && 0 < count <= max
    ensures LastIndices(index, count, max)[1..] == LastIndices(index, count - 1, max)
    ensures LastIndices(index, count, max) != []
  {
  }

  /** The next index is outstanding exactly when the whole ring is. */
  lemma {:induction false} NextIndexIsFree(index: nat, count: nat, max: nat)
    requires index < max && count <= max
    ensures index in LastIndices(index, count, max) <==> count == max
  {
    if count > 0 {
      NextIndexIsFree(index, count - 1, max);
    }
  }

  /** All outstanding indices differ. */
  lemma LastIndicesDiffer(index: nat, count: nat, max: nat, i: nat, j: nat)
    requires index < max && i < j < count <= max
    ensures |LastIndices(index, count, max)| == count
    ensures LastIndices(index, count, max)[i] != LastIndices(index, count, max)[j]
  {
    LastIndexAt(index, count, max, i);
    LastIndexAt(index, count, max, j);
  }

  /**
   The output driver. Queueing an index that it still holds, or waiting for a buffer when it holds none,
   are misuses; they are recorded. `failed` counts the calls that failed.
   */
  class OutputDriver {
    var outstanding: seq<int>
    ghost var misused: bool
    ghost var failed: nat

    constructor ()
      ensures outstanding == [] && !misused
    {
      outstanding, misused := [], false;
    }

    method QBuf(index: nat) returns (ret: int)
      modifies this
      ensures outstanding == if ret < 0 then old(outstanding) else old(outstanding) + [index]
      ensures misused <==> old(misused) || index in old(outstanding)
      ensures failed == old(failed) + if ret < 0 then 1 else 0
    {
      misused := misused || index in outstanding;
      ret := *;
      if ret >= 0 {
        outstanding := outstanding + [index];
      } else {
        failed := failed + 1;
      }
    }

    method DqBuf() returns (ret: int)
      modifies this
      ensures old(outstanding) == [] ==> ret < 0
      ensures outstanding == if ret < 0 then old(outstanding) else old(outstanding)[1..]
      ensures misused <==> old(misused) || old(outstanding) == []
      ensures failed == old(failed) + if ret < 0 then 1 else 0
    {
      misused := misused || outstanding == [];
      ret := *;
      if outstanding == [] {
        ret := -1;
      }
      if ret >= 0 {
        outstanding := outstanding[1..];
      } else {
        failed := failed + 1;
      }
    }

    method StreamOn() returns (ret: int)
      modifies this`failed
      ensures failed == old(failed) + if ret < 0 then 1 else 0
    {
      ret := *;
      if ret < 0 {
        failed := failed + 1;
      }
    }

    method StreamOff()
      modifies this`outstanding
      ensures outstanding == []
    {
      outstanding := [];
    }
  }

  /** A renderer's counters and the driver's buffers. */
  datatype RingState = RingState(count: nat, index: nat, outstanding: seq<int>)

  ghost predicate InSync(s: RingState, max: nat) {
    s.index < max && s.count <= max && s.outstanding == LastIndices(s.index, s.count, max)
  }

  /** A frame queued under the current index. */
  function Queued(s: RingState, max: nat): (q: RingState)
    requires s.index < max
    ensures q.outstanding != [] && q.index < max
  {
    RingState(s.count + 1, (s.index + 1) % max, s.outstanding + [s.index])
  }

  /** With more than one frame outstanding, the oldest is awaited before the next is queued. */
  function Waited(s: RingState): RingState {
    if s.count > 1 && s.outstanding != [] then RingState(s.count - 1, s.index, s.outstanding[1..]) else s
  }

  /** The account after n frames shown without an error. */
  function Frames(n: nat, max: nat): (s: RingState)
    requires max > 0
    ensures s.index < max
  {
    if n == 0 then RingState(0, 0, []) else Queued(Waited(Frames(n - 1, max)), max)
  }

  /** The next frame is not queued under an index that the driver still holds. */
  predicate NextIsFree(s: RingState) {
    s.index !in Waited(s).outstanding
  }

  lemma {:induction false} FramesStayInSync(n: nat, max: nat)
    requires max >= 2
    ensures InSync(Frames(n, max), max) && Frames(n, max).count == (if n < 2 then n else 2)
    ensures NextIsFree(Frames(n, max))
  {
    hide LastIndices;
    if n > 0 {
      FramesStayInSync(n - 1, max);
      FrameInSync(Frames(n - 1, max), max);
      WaitedInSync(Frames(n - 1, max), max);
    } else {
      NoneOutstanding(max);
    }
    FrameInSync(Frames(n, max), max);
  }

  /** A frame in an account that is right: the wait is for a buffer there is, the index is free, the account stays right. */
  lemma FrameInSync(s: RingState, max: nat)
    requires InSync(s, max) && s.count <= 2 && max >= 2
    ensures s.count > 1 ==> s.outstanding != []
    ensures InSync(Waited(s), max) && Waited(s).count <= 1 && NextIsFree(s)
    ensures InSync(Queued(Waited(s), max), max) && Queued(Waited(s), max).count <= 2
  {
    hide LastIndices;
    WaitedInSync(s, max);
    NextIndexIsFree(s.index, Waited(s).count, max);
    QueueIndex(s.index, Waited(s).count, max);
    if s.count > 1 {
      DequeueIndex(s.index, s.count, max);
    }
  }

  lemma NoneOutstanding(max: nat)
    ensures LastIndices(0, 0, max) == []
  {
  }

  lemma WaitedInSync(s: RingState, max: nat)
    requires InSync(s, max) && s.count <= 2
    ensures InSync(Waited(s), max) && Waited(s).index == s.index
    ensures Waited(s).count == if s.count > 1 then 1 else s.count
  {
    if s.count > 0 {
      DequeueIndex(s.index, s.count, max);
    }
  }

  /** No number of frames makes the renderer queue an outstanding index just when the ring has two buffers at least. */
  lemma RingNeedsTwo(max: nat)
    requires max > 0
    ensures (forall n: nat :: NextIsFree(Frames(n, max))) <==> max >= 2
  {
    if max >= 2 {
      forall n: nat
        ensures NextIsFree(Frames(n, max))
      {
        FramesStayInSync(n, max);
      }
    } else {
      assert Frames(0, 1) == RingState(0, 0, []);
      assert Frames(1, 1) == RingState(1, 0, [0]);
      assert !NextIsFree(Frames(1, max));
    }
  }

  class HWCCommonRenderer {
    const maxBufferCount: nat
    const driver: OutputDriver
    var outCount: nat
    var outIndex: nat
    var started: bool
    var hasHandle: bool

    constructor (max: nat, output: OutputDriver)
      requires max >= 1 && output.outstanding == []
      ensures Account() && outIndex < max && maxBufferCount == max && driver == output && !started
    {
      maxBufferCount, driver := max, output;
      outCount, outIndex, started, hasHandle := 0, 0, false, false;
    }

    ghost function State(): RingState
      reads this, driver
    {
      RingState(outCount, outIndex, driver.outstanding)
    }

    /** The count is the driver's, and the buffers outstanding are the last ones queued, at most two. */
    ghost predicate Account()
      reads this, driver
    {
      outCount <= 2 && InSync(State(), maxBufferCount)
    }

    /**
     render. It fails just when one of its driver calls does. Whatever fails, the account stays right and
     the driver is not misused, in a ring of two buffers or more; only a failing stream start after the
     buffer was queued leaves the driver one buffer ahead, and then the next frame is a misuse.
     */
    method Render() returns (ret: int, ghost startFailed: bool)
      requires outIndex < maxBufferCount
      modifies this`outCount, this`outIndex, this`started, this`hasHandle, driver
      ensures outIndex < maxBufferCount
      ensures old(Account()) && maxBufferCount >= 2 ==>
                (driver.misused <==> old(driver.misused)) && (!startFailed ==> Account())
      ensures startFailed ==> ret < 0 && !started && outIndex == old(outIndex) && outIndex in driver.outstanding
      ensures startFailed && old(outCount) <= 2 ==> !NextIsFree(State())
      ensures !old(hasHandle) ==> ret == 0 && State() == old(State()) && (driver.misused <==> old(driver.misused))
      ensures old(hasHandle) && ret == 0 ==>
                && started && !hasHandle && State() == Queued(Waited(old(State())), maxBufferCount)
                && (driver.misused <==> old(driver.misused) || !NextIsFree(old(State())))
      ensures ret <= 0 && driver.failed == old(driver.failed) + if ret < 0 then 1 else 0
      ensures ret < 0 ==> hasHandle == old(hasHandle)
      ensures ret < 0 && !startFailed ==> State() == old(State()) || State() == Waited(old(State()))
      ensures startFailed ==>
                && driver.outstanding == Waited(old(State())).outstanding + [outIndex]
                && outCount == Waited(old(State())).count
    {
      hide LastIndices, InSync;
      ret, startFailed := 0, false;
      ghost var s, max := State(), maxBufferCount;
      if InSync(s, max) && s.count <= 2 && max >= 2 {
        FrameInSync(s, max);
      }
      if hasHandle {
        if outCount > 1 {
          ret := driver.DqBuf();
          if ret < 0 {
            return;
          }
          outCount := outCount - 1;
        }
        assert State() == Waited(s);
        ret := driver.QBuf(outIndex);
        if ret < 0 {
          return;
        }
        if !started {
          ret := driver.StreamOn();
          if ret < 0 {
            return ret, true;
          }
          started := true;
        }
        outCount := outCount + 1;
        outIndex := (outIndex + 1) % maxBufferCount;
        hasHandle := false;
        assert State() == Queued(Waited(s), max);
      }
      ret := 0;
    }

    method Stop()
      requires outIndex < maxBufferCount
      modifies this`outCount, this`outIndex, this`started, driver`outstanding
      ensures !started && outIndex < maxBufferCount
      ensures old(started) ==> outCount == outIndex == 0 && driver.outstanding == [] && Account()
      ensures !old(started) ==> State() == old(State())
    {
      if started {
        driver.StreamOff();
        started := false;
        outCount := 0;
        outIndex := 0;
      }
    }
  }

  /** A frame that the mirror shows without an error: queue first, then wait if the ring is full. */
  function MirrorFrame(s: RingState, max: nat): RingState
    requires s.index < max
  {
    var queued := Queued(s, max);
    if queued.count >= max then queued.(count := queued.count - 1, outstanding := queued.outstanding[1..])
    else queued
  }

  /** Queueing a frame keeps the account; showing it also leaves room for the next one. */
  lemma MirrorFrameKeepsSync(s: RingState, max: nat)
    requires InSync(s, max) && s.count < max
    ensures InSync(Queued(s, max), max)
    ensures InSync(MirrorFrame(s, max), max) && MirrorFrame(s, max).count < max
  {
    QueueIndex(s.index, s.count, max);
    NextModulo(s.index, max);
    if s.count + 1 >= max {
      DequeueIndex((s.index + 1) % max, s.count + 1, max);
    }
  }

  /** In sync, the next index is taken exactly when the ring is full. */
  lemma MirrorIndexIsFree(s: RingState, max: nat)
    requires InSync(s, max)
    ensures s.index in s.outstanding <==> s.count == max
  {
    NextIndexIsFree(s.index, s.count, max);
  }

  /** stop empties the driver but not the counters: the account survives only if nothing was outstanding. */
  lemma MirrorStopBreaksSync(s: RingState, max: nat)
    requires InSync(s, max)
    ensures InSync(s.(outstanding := []), max) <==> s.count == 0
  {
    if s.count > 0 {
      DequeueIndex(s.index, s.count, max);
    }
  }

  /**
   Once in its steady state and stopped, a mirror that shows a frame again waits for that very frame:
   the driver is left without a buffer after every frame.
   */
  lemma MirrorAfterRestart(s: RingState, max: nat)
    requires InSync(s, max) && s.count == max - 1
    ensures MirrorFrame(s.(outstanding := []), max).outstanding == []
    ensures MirrorFrame(s.(outstanding := []), max).count == max - 1
  {
  }

  /**
   What stays true of a mirror through stops and failed waits: the buffers outstanding are the last ones
   queued, though the counter may count more of them.
   */
  ghost predicate Window(s: RingState, max: nat) {
    var k := |s.outstanding|;
    s.index < max && k <= max && k <= s.count && s.outstanding == LastIndices(s.index, k, max)
  }

  /** Then the next index is taken just when every buffer is outstanding. */
  lemma WindowIndexIsTaken(s: RingState, max: nat)
    requires Window(s, max)
    ensures s.index in s.outstanding <==> |s.outstanding| == max
  {
    NextIndexIsFree(s.index, |s.outstanding|, max);
  }

  /** A frame shown, a frame queued whose wait failed, or a stop of the stream. */
  datatype MirrorStep = FrameShown | WaitFailed | Stopped

  function AfterStep(s: RingState, step: MirrorStep, max: nat): (r: RingState)
    requires s.index < max
    ensures r.index < max
  {
    match step
    case FrameShown => MirrorFrame(s, max)
    case WaitFailed => Queued(s, max)
    case Stopped => s.(outstanding := [])
  }

  /** Every step keeps it, as long as no taken index is queued; without a failed wait the next index stays free. */
  lemma StepKeepsWindow(s: RingState, step: MirrorStep, max: nat)
    requires Window(s, max) && (step == Stopped || |s.outstanding| < max)
    ensures Window(AfterStep(s, step, max), max)
    ensures step != WaitFailed ==> |AfterStep(s, step, max).outstanding| < max
  {
    hide LastIndices;
    var k := |s.outstanding|;
    if step == Stopped {
      NoIndices(s.index, max);
    } else {
      QueueIndex(s.index, k, max);
      DequeueIndex(Queued(s, max).index, k + 1, max);
    }
  }

  lemma NoIndices(index: nat, max: nat)
    ensures LastIndices(index, 0, max) == []
  {
  }

  function AfterSteps(s: RingState, steps: seq<MirrorStep>, max: nat): (r: RingState)
    requires s.index < max
    ensures r.index < max
  {
    if steps == [] then s else AfterStep(AfterSteps(s, steps[..|steps| - 1], max), steps[|steps| - 1], max)
  }

  function Shown(n: nat): seq<MirrorStep> {
    seq(n, _ => FrameShown)
  }

  /** From its start the mirror queues frames without waiting until one buffer is left, and keeps one from then on. */
  lemma {:induction false} MirrorFills(n: nat, max: nat)
    requires max > 0
    ensures var s := AfterSteps(RingState(0, 0, []), Shown(n), max);
            InSync(s, max) && s.count == if n < max then n else max - 1
  {
    hide LastIndices, MirrorFrame;
    NoIndices(0, max);
    if n > 0 {
      MirrorFills(n - 1, max);
      assert Shown(n)[..n - 1] == Shown(n - 1);
      var s := AfterSteps(RingState(0, 0, []), Shown(n - 1), max);
      MirrorFrameKeepsSync(s, max);
      MirrorFrameCount(s, max);
    }
  }

  lemma MirrorFrameCount(s: RingState, max: nat)
    requires s.index < max
    ensures MirrorFrame(s, max).count == if s.count + 1 >= max then s.count else s.count + 1
  {
  }

  /** No taken index was queued on the way. */
  ghost predicate NoMisuse(s: RingState, steps: seq<MirrorStep>, max: nat)
    requires s.index < max
  {
    if steps == [] then true
    else
      var n := |steps| - 1;
      var t := AfterSteps(s, steps[..n], max);
      NoMisuse(s, steps[..n], max) && (steps[n] == Stopped || t.index !in t.outstanding)
  }

  lemma {:induction false} StepsKeepWindow(s: RingState, steps: seq<MirrorStep>, max: nat)
    requires Window(s, max) && NoMisuse(s, steps, max)
    ensures Window(AfterSteps(s, steps, max), max)
  {
    hide Window, AfterStep;
    WindowSize(s, max);
    if steps != [] {
      var n := |steps| - 1;
      var t := AfterSteps(s, steps[..n], max);
      StepsKeepWindow(s, steps[..n], max);
      WindowIndexIsTaken(t, max);
      WindowSize(t, max);
      StepKeepsWindow(t, steps[n], max);
    }
  }

  lemma WindowSize(s: RingState, max: nat)
    requires Window(s, max)
    ensures |s.outstanding| <= max && s.index < max
  {
  }

  /** With no failed wait the mirror never queues a taken index, however often it is stopped and started. */
  lemma {:induction false} NoFailureNoMisuse(s: RingState, steps: seq<MirrorStep>, max: nat)
    requires Window(s, max) && |s.outstanding| < max && WaitFailed !in steps
    ensures NoMisuse(s, steps, max) && Window(AfterSteps(s, steps, max), max)
    ensures |AfterSteps(s, steps, max).outstanding| < max
  {
    hide Window, AfterStep;
    WindowSize(s, max);
    if steps != [] {
      var n := |steps| - 1;
      assert WaitFailed !in steps[..n] && steps[n] in steps;
      var t := AfterSteps(s, steps[..n], max);
      NoFailureNoMisuse(s, steps[..n], max);
      WindowIndexIsTaken(t, max);
      StepKeepsWindow(t, steps[n], max);
    }
  }

  /** The waits that failed since the last stop, added to k if there was none. */
  function Failures(steps: seq<MirrorStep>, k: nat): nat {
    if steps == [] then k
    else
      var f := Failures(steps[..|steps| - 1], k);
      match steps[|steps| - 1]
      case FrameShown => f
      case WaitFailed => f + 1
      case Stopped => 0
  }

  /** Once the counter is up, the buffers outstanding are those of the failed waits since the last stop. */
  lemma {:induction false} SteadyOutstanding(s: RingState, steps: seq<MirrorStep>, max: nat)
    requires s.index < max && s.count >= max - 1
    ensures AfterSteps(s, steps, max).count >= max - 1
    ensures |AfterSteps(s, steps, max).outstanding| == Failures(steps, |s.outstanding|)
  {
    if steps != [] {
      SteadyOutstanding(s, steps[..|steps| - 1], max);
    }
  }

  /**
   So a mirror in its steady state queues a taken index after a run just when the waits that failed since
   its last stop, with the buffers outstanding before if it was not stopped, make up the whole ring.
   */
  lemma MisuseAfterFailures(s: RingState, steps: seq<MirrorStep>, max: nat)
    requires Window(s, max) && s.count >= max - 1 && NoMisuse(s, steps, max)
    ensures var t := AfterSteps(s, steps, max);
            t.index in t.outstanding <==> Failures(steps, |s.outstanding|) == max
  {
    hide Window, NextIsFree, NoMisuse;
    WindowSize(s, max);
    StepsKeepWindow(s, steps, max);
    WindowIndexIsTaken(AfterSteps(s, steps, max), max);
    SteadyOutstanding(s, steps, max);
  }

  /** A ring of three: two frames, and a third whose wait fails; the fourth would go under index 0 again. */
  lemma FailedWaitFillsTheRing()
    ensures var t := AfterSteps(RingState(0, 0, []), [FrameShown, FrameShown, WaitFailed], 3);
            t == RingState(3, 0, [0, 1, 2]) && t.index in t.outstanding
  {
    var s := RingState(0, 0, []);
    var a, b := FrameShown, WaitFailed;
    assert [a, a, b][..2] == [a, a] && [a, a][..1] == [a] && [a][..0] == [];
    assert AfterSteps(s, [a], 3) == RingState(1, 1, [0]);
    assert AfterSteps(s, [a, a], 3) == RingState(2, 2, [0, 1]);
  }

  /** A frame shown and a frame whose wait fails, in sync and out of it. */
  lemma MirrorFacts(s: RingState, max: nat)
    requires s.index < max
    ensures Window(s, max) ==> (s.index in s.outstanding <==> |s.outstanding| == max)
    ensures Window(s, max) && |s.outstanding| < max ==>
              && Window(MirrorFrame(s, max), max) && |MirrorFrame(s, max).outstanding| < max
              && Window(Queued(s, max), max)
    ensures InSync(s, max) ==> s.count <= max && (s.index in s.outstanding <==> s.count == max)
    ensures InSync(s, max) && s.count < max ==>
              && InSync(MirrorFrame(s, max), max) && MirrorFrame(s, max).count < max
              && MirrorFrame(s, max).index !in MirrorFrame(s, max).outstanding
              && InSync(Queued(s, max), max)
              && (Queued(s, max).index in Queued(s, max).outstanding <==> Queued(s, max).count == max)
  {
    hide LastIndices;
    if Window(s, max) {
      WindowIndexIsTaken(s, max);
      if |s.outstanding| < max {
        StepKeepsWindow(s, FrameShown, max);
        StepKeepsWindow(s, WaitFailed, max);
      }
    }
    if InSync(s, max) {
      MirrorIndexIsFree(s, max);
      if s.count < max {
        MirrorFrameKeepsSync(s, max);
        MirrorIndexIsFree(Queued(s, max), max);
        MirrorIndexIsFree(MirrorFrame(s, max), max);
      }
    }
  }

  class HDMIMirrorRenderer {
    const maxBufferCount: nat
    const driver: OutputDriver
    var outCount: nat
    var outIndex: nat
    var started: bool
    var hasHandle: bool

    constructor (max: nat, output: OutputDriver)
      requires max >= 1 && output.outstanding == []
      ensures maxBufferCount == max && driver == output && !started && InSync(State(), max) && outCount == 0
      ensures Window(State(), max) && |driver.outstanding| < max
    {
      maxBufferCount, driver := max, output;
      outCount, outIndex, started, hasHandle := 0, 0, false, false;
    }

    ghost function State(): RingState
      reads this, driver
    {
      RingState(outCount, outIndex, driver.outstanding)
    }

    /**
     render. It fails just when one of its driver calls does. Whatever the counters are, the buffers
     outstanding stay the last ones queued, and a frame misuses the driver just when all buffers are
     outstanding; only a failed stream start leaves the driver one buffer ahead, and then the next index is
     taken as well.
     */
    method Render() returns (ret: int, ghost startFailed: bool, ghost waitFailed: bool)
      requires outIndex < maxBufferCount
      modifies this`outCount, this`outIndex, this`started, driver
      ensures outIndex < maxBufferCount
      ensures driver.misused <==> old(driver.misused) || (hasHandle && old(outIndex in driver.outstanding))
      ensures ret == 0 ==>
                State() == if hasHandle then AfterStep(old(State()), FrameShown, maxBufferCount) else old(State())
      ensures waitFailed ==>
                ret < 0 && outCount >= maxBufferCount && State() == AfterStep(old(State()), WaitFailed, maxBufferCount)
      ensures ret != 0 ==> ret < 0 && hasHandle && (!startFailed && !waitFailed ==> State() == old(State()))
      ensures old(Window(State(), maxBufferCount)) ==>
                && (driver.misused <==> old(driver.misused) || (hasHandle && |old(driver.outstanding)| == maxBufferCount))
                && (|old(driver.outstanding)| < maxBufferCount && !startFailed ==>
                      && Window(State(), maxBufferCount)
                      && (!waitFailed ==> |driver.outstanding| < maxBufferCount))
      ensures old(InSync(State(), maxBufferCount) && outCount < maxBufferCount) && !startFailed ==>
                && InSync(State(), maxBufferCount)
                && (ret == 0 ==> outCount < maxBufferCount)
                && (outIndex in driver.outstanding <==> outCount == maxBufferCount)
      ensures startFailed ==>
                && ret < 0 && !started && outIndex == old(outIndex) && outCount == old(outCount)
                && driver.outstanding == old(driver.outstanding) + [outIndex]
      ensures ret <= 0 && driver.failed == old(driver.failed) + if ret < 0 then 1 else 0
    {
      hide InSync, LastIndices, Window, MirrorFrame, Queued;
      MirrorFacts(State(), maxBufferCount);
      ret, startFailed, waitFailed := 0, false, false;
      if hasHandle {
        ret, startFailed, waitFailed := ShowFrame();
      }
    }

    /** render, once there is a frame. */
    method ShowFrame() returns (ret: int, ghost startFailed: bool, ghost waitFailed: bool)
      requires outIndex < maxBufferCount
      modifies this`outCount, this`outIndex, this`started, driver
      ensures outIndex < maxBufferCount
      ensures ret <= 0 && driver.failed == old(driver.failed) + if ret < 0 then 1 else 0
      ensures driver.misused <==> old(driver.misused) || old(outIndex in driver.outstanding)
      ensures ret == 0 ==> !startFailed && !waitFailed && State() == MirrorFrame(old(State()), maxBufferCount)
      ensures waitFailed ==> ret < 0 && !startFailed && outCount >= maxBufferCount
                             && State() == Queued(old(State()), maxBufferCount)
      ensures startFailed ==>
                && ret < 0 && !started && outIndex == old(outIndex) && outCount == old(outCount)
                && driver.outstanding == old(driver.outstanding) + [outIndex]
      ensures ret < 0 && !startFailed && !waitFailed ==> State() == old(State())
    {
      ret, startFailed, waitFailed := 0, false, false;
      ghost var s, max := State(), maxBufferCount;
      ret := driver.QBuf(outIndex);
      if ret < 0 {
        return;
      }
      if !started {
        ret := driver.StreamOn();
        if ret < 0 {
          return ret, true, false;
        }
        started := true;
      }
      outCount := outCount + 1;
      outIndex := (outIndex + 1) % maxBufferCount;
      assert State() == Queued(s, max);
      if outCount >= maxBufferCount {
        ret := driver.DqBuf();
        if ret < 0 {
          waitFailed := true;
          return;
        }
        outCount := outCount - 1;
      }
      assert State() == MirrorFrame(s, max);
      ret := 0;
    }

    method Stop()
      modifies this`started, driver`outstanding
      ensures !started && outCount == old(outCount) && outIndex == old(outIndex)
      ensures driver.outstanding == if old(started) then [] else old(driver.outstanding)
      ensures old(Window(State(), maxBufferCount)) ==> Window(State(), maxBufferCount)
      ensures old(Window(State(), maxBufferCount) && |driver.outstanding| < maxBufferCount) ==>
                |driver.outstanding| < maxBufferCount
    {
      hide LastIndices;
      if Window(State(), maxBufferCount) {
        StepKeepsWindow(State(), Stopped, maxBufferCount);
      }
      if started {
        driver.StreamOff();
        started := false;
      }
    }
  }
}
