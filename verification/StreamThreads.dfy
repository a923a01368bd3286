/**
 The preview and record threads without zoom. The driver reports only an index when it has filled
 a buffer; the HAL sends on the oldest buffer of its own queue. The two queues move in lockstep.
 */
module StreamThreads {
  import opened CameraStream
  import opened Options

  /** A buffer queued in the driver under an index. */
  datatype Slot = Slot(index: nat, handle: Handle)

  function SlotHandles(slots: seq<Slot>): (hs: seq<Handle>)
    ensures |hs| == |slots|
  {
    seq(|slots|, i requires 0 <= i < |slots| => slots[i].handle)
  }

  ghost predicate DistinctIndices(slots: seq<Slot>) {
    forall i, j :: 0 <= i < j < |slots| ==> slots[i].index != slots[j].index
  }

  /**
   The capture driver: it fills and returns buffers in the order they were queued, or fails. `failed` counts
   the calls that failed, or returned a status, though they could have succeeded.
   */
  class Driver {
    var queued: seq<Slot>
    ghost var filled: seq<Handle>
    ghost var failed: nat

    constructor ()
      ensures queued == [] && filled == []
    {
      queued, filled := [], [];
    }

    method QBuf(index: nat, h: Handle) returns (ret: int)
      modifies this
      ensures filled == old(filled) && failed == old(failed) + if ret != 0 then 1 else 0
      ensures queued == if ret < 0 then old(queued) else old(queued) + [Slot(index, h)]
    {
      ret := *;
      failed := failed + if ret != 0 then 1 else 0;
      if ret >= 0 {
        queued := queued + [Slot(index, h)];
      }
    }

    method DqBuf() returns (ret: int, index: nat)
      modifies this
      ensures ret < 0 ==> queued == old(queued) && filled == old(filled)
      ensures failed == old(failed) + if ret < 0 && old(queued) != [] then 1 else 0
      ensures ret >= 0 ==> old(queued) != [] && index == old(queued)[0].index && queued == old(queued)[1..]
                           && filled == old(filled) + [old(queued)[0].handle]
    {
      ret, index := *, 0;
      if queued == [] {
        ret := -1;
      } else if ret < 0 {
        failed := failed + 1;
      }
      if ret >= 0 {
        index := queued[0].index;
        filled := filled + [queued[0].handle];
        queued := queued[1..];
      }
    }

    method StreamOn() returns (ret: int)
      modifies this`failed
      ensures failed == old(failed) + if ret < 0 then 1 else 0
    {
      ret := *;
      failed := failed + if ret < 0 then 1 else 0;
    }
  }

  /** How a turn of a loop ends; `dq` is the buffer the driver has just filled, `nu` the one just taken from the framework. */
  datatype Exit =
    | GoesOn(nu: Handle)
    | NoFrame
    | StoppedWithFrame(dq: Handle)
    | NotEnqueued(dq: Handle)
    | StoppedWithoutBuffer
    | NoNewBuffer
    | NotQueued(nu: Handle)
    | QueuedWithStatus(nu: Handle)
    | StoppedAfterTurn(nu: Handle)

  /** What the HAL holds, given what the driver holds. */
  function HeldAt(exit: Exit, driver: seq<Handle>): seq<Handle> {
    match exit
    case StoppedWithFrame(dq) => [dq] + driver
    case NotQueued(nu) => driver + [nu]
    case _ => driver
  }

  ghost predicate Rotated(before: seq<Slot>, after: seq<Slot>, nu: Handle) {
    before != [] && after == before[1..] + [Slot(before[0].index, nu)]
  }

  /** What the driver holds after a turn: a new buffer, if one got that far, under the index of the filled one. */
  ghost predicate DriverAfter(exit: Exit, before: seq<Slot>, after: seq<Slot>) {
    match exit
    case NoFrame => after == before
    case GoesOn(nu) => Rotated(before, after, nu)
    case QueuedWithStatus(nu) => Rotated(before, after, nu)
    case StoppedAfterTurn(nu) => Rotated(before, after, nu)
    case StoppedWithFrame(dq) => before != [] && after == before[1..] && dq == before[0].handle
    case NotEnqueued(dq) => before != [] && after == before[1..] && dq == before[0].handle
    case StoppedWithoutBuffer => before != [] && after == before[1..]
    case NoNewBuffer => before != [] && after == before[1..]
    case NotQueued(_) => before != [] && after == before[1..]
  }

  /** What a turn returns: the filled buffer, enqueued or cancelled, or nothing if it did not get that far. */
  function Returns(exit: Exit, filled: Handle, skipping: bool): seq<Return> {
    match exit
    case NoFrame => []
    case StoppedWithFrame(_) => []
    case NotEnqueued(dq) => [Cancelled(dq)]
    case _ => [if skipping then Cancelled(filled) else Enqueued(filled)]
  }

  /** The frames of n that a turn's end has sent on, and the one it has cancelled instead. */
  function SentOf(exit: Exit, n: nat): (k: nat)
    ensures k <= n <= k + 1
  {
    if (exit.StoppedWithFrame? || exit.NotEnqueued?) && n > 0 then n - 1 else n
  }

  function CancelledBy(exit: Exit): seq<Handle> {
    if exit.NotEnqueued? then [exit.dq] else []
  }

  /** What has been returned after a turn, as frames sent on and a frame cancelled. */
  lemma TurnReturns(exit: Exit, before: seq<Return>, r0: seq<Return>, r1: seq<Return>,
                    f0: seq<Handle>, f1: seq<Handle>, h: Handle, skips: nat)
    requires r0 == before + Sent(f0, skips)
    requires if exit == NoFrame then r1 == r0 && f1 == f0 else r1 == r0 + Returns(exit, h, |f0| < skips) && f1 == f0 + [h]
    requires exit.StoppedWithFrame? || exit.NotEnqueued? ==> exit.dq == h
    ensures r1 == before + Sent(f1[..SentOf(exit, |f1|)], skips) + AllCancelled(CancelledBy(exit))
  {
    hide Sent;
    assert f1[..|f1|] == f1 && AllCancelled([]) == [];
    if exit != NoFrame {
      assert f1[..|f0|] == f0;
      SentAppend(f0, h, skips);
      CancelFirst(h, []);
      assert [h] + [] == [h];
    }
  }

  /** The first `skips` buffers of a session go back cancelled, the others are delivered. */
  function Sent(filled: seq<Handle>, skips: nat): (rs: seq<Return>)
    ensures |rs| == |filled|
  {
    seq(|filled|, i requires 0 <= i < |filled| => if i < skips then Cancelled(filled[i]) else Enqueued(filled[i]))
  }

  lemma SentInOrder(before: seq<Return>, filled: seq<Handle>, sent: nat, skips: nat, rest: seq<Return>)
    requires sent <= |filled|
    ensures forall i :: 0 <= i < sent ==>
              (before + Sent(filled[..sent], skips) + rest)[|before| + i]
              == if i < skips then Cancelled(filled[i]) else Enqueued(filled[i])
  {
  }

  lemma SentAppend(filled: seq<Handle>, h: Handle, skips: nat)
    ensures Sent(filled + [h], skips)
         == Sent(filled, skips) + [if |filled| < skips then Cancelled(h) else Enqueued(h)]
  {
  }

  lemma TailHandles(slots: seq<Slot>)
    requires slots != []
    ensures SlotHandles(slots)[1..] == SlotHandles(slots[1..]) && SlotHandles(slots)[0] == slots[0].handle
  {
  }

  lemma AppendHandles(slots: seq<Slot>, s: Slot)
    ensures SlotHandles(slots + [s]) == SlotHandles(slots) + [s.handle]
  {
  }

  lemma RotateIndices(slots: seq<Slot>, h: Handle)
    requires slots != [] && DistinctIndices(slots)
    ensures DistinctIndices(slots[1..] + [Slot(slots[0].index, h)])
  {
  }

  class StreamThread {
    const stream: NXStream
    const driver: Driver
    var initialSkipCount: nat
    /** What had been returned, and how many frames were to be skipped, when streaming began. */
    ghost var returnedBefore: seq<Return>
    ghost var skips: nat
    /** How often an exit check fired. */
    ghost var exits: nat

    constructor (s: NXStream, d: Driver)
      requires s.Valid() && d.queued == [] && d.filled == []
      ensures stream == s && driver == d && initialSkipCount == 0
    {
      stream, driver, initialSkipCount := s, d, 0;
      returnedBefore, skips := [], 0;
    }

    /** What the driver holds, oldest first. */
    ghost function InDriver(): seq<Handle>
      reads this, driver
    {
      SlotHandles(driver.queued)
    }

    /**
     The loop-head invariant: the driver and the HAL queue hold the same buffers in the same order,
     and the buffers returned since the start are exactly those the driver filled, in that order.
     */
    ghost predicate Lockstep()
      reads this, driver, stream, stream.queue, stream.streamOps
    {
      && stream.Valid()
      && stream.Held() == InDriver()
      && DistinctIndices(driver.queued)
      && stream.streamOps.returned == returnedBefore + Sent(driver.filled, skips)
      && initialSkipCount == (if |driver.filled| < skips then skips - |driver.filled| else 0)
    }

    /** The loop of readyToRun. */
    method QueueAll() returns (ok: bool)
      requires stream.Valid() && driver.queued == [] && driver.filled == []
      modifies driver
      ensures driver.filled == [] && driver.failed >= old(driver.failed)
      ensures !ok ==> driver.failed > old(driver.failed)
      ensures ok ==> |driver.queued| == |stream.Held()|
                     && forall i :: 0 <= i < |driver.queued| ==> driver.queued[i] == Slot(i, stream.Held()[i])
    {
      hide NXStream.Valid;
      var queuedSize := stream.queue.Size();
      var i := 0;
      while i < queuedSize
        invariant i <= queuedSize == |stream.Held()| && driver.filled == []
        invariant |driver.queued| == i && driver.failed >= old(driver.failed)
        invariant forall j :: 0 <= j < i ==> driver.queued[j] == Slot(j, stream.Held()[j])
      {
        var b := stream.queue.GetItem(queuedSize - i - 1);
        var ret := driver.QBuf(i, b);
        if ret < 0 {
          return false;
        }
        i := i + 1;
      }
      return true;
    }

    /** The buffer of start-up: index 0 of the driver gets the oldest buffer, the last item of the queue. */
    method ReadyToRun(skipFrames: nat) returns (ok: bool)
      requires stream.Valid() && driver.queued == [] && driver.filled == []
      modifies this, stream, stream.queue, stream.streamOps, driver
      ensures stream.Valid() && (ok ==> Lockstep() && skips == skipFrames)
      ensures driver.filled == [] && stream.streamOps.returned == old(stream.streamOps.returned)
      ensures ok ==> returnedBefore == old(stream.streamOps.returned)
      ensures exits == old(exits) && stream.streamOps.refused == old(stream.streamOps.refused)
      ensures driver.failed >= old(driver.failed) && stream.streamOps.withheld >= old(stream.streamOps.withheld)
      ensures !ok ==> driver.failed > old(driver.failed)
      ensures old(stream.Held()) <= stream.Held()
      ensures !old(stream.bufferInited) && stream.streamOps.withheld == old(stream.streamOps.withheld) ==>
                |stream.Held()| == |old(stream.Held())| + stream.maxBuffers || stream.streamOps.owned == {}
      ensures old(HasBuffers()) && Troubles() == old(Troubles()) ==> ok && stream.Held() != []
      ensures ok ==> |driver.queued| == |stream.Held()|
                     && forall i :: 0 <= i < |driver.queued| ==> driver.queued[i] == Slot(i, stream.Held()[i])
    {
      hide NXStream.Valid, Custody;
      var res := stream.InitBuffer();
      if res != NO_ERROR {
        return false;
      }
      ok := QueueAll();
      if !ok {
        return false;
      }
      var streamOn := driver.StreamOn();
      if streamOn < 0 {
        return false;
      }
      initialSkipCount, skips := skipFrames, skipFrames;
      returnedBefore := stream.streamOps.returned;
      assert SlotHandles(driver.queued) == stream.Held();
      assert returnedBefore + Sent([], skips) == returnedBefore;
      return true;
    }

    /** CHECK_AND_EXIT: another thread may have asked for the end at any time. */
    method ExitRequested() returns (r: bool)
      modifies this`exits
      ensures exits == old(exits) + if r then 1 else 0
    {
      r := *;
      exits := exits + if r then 1 else 0;
    }

    /** All that kept a session from going on: refusals, failures and exit requests. */
    ghost function Troubles(): nat
      reads this`exits, driver`failed, stream.streamOps
    {
      exits + driver.failed + stream.streamOps.refused + stream.streamOps.withheld
    }

    /** Start-up finds a buffer: the HAL holds one, or may take one. */
    ghost predicate HasBuffers()
      reads stream, stream.queue
    {
      stream.Held() != [] || (!stream.bufferInited && stream.maxBuffers > 0 && stream.buffers != [])
    }

    /** Each way a turn ends is the failure of its own call, or its exit check. */
    twostate predicate EndsFor(exit: Exit)
      reads this, driver, stream.streamOps
    {
      && exits == old(exits)
           + (if exit.StoppedWithFrame? || exit.StoppedWithoutBuffer? || exit.StoppedAfterTurn? then 1 else 0)
      && stream.streamOps.refused == old(stream.streamOps.refused) + (if exit.NotEnqueued? then 1 else 0)
      && stream.streamOps.withheld == old(stream.streamOps.withheld) + (if exit.NoNewBuffer? then 1 else 0)
      && driver.failed == old(driver.failed)
           + (if (exit.NoFrame? && old(driver.queued) != []) || exit.NotQueued? || exit.QueuedWithStatus? then 1 else 0)
    }

    /**
     PreviewThread::threadLoop. While it goes on, the buffer under the index just dequeued is the one
     that goes to the framework, cancelled during start-up and enqueued afterwards, and the new buffer
     takes over its index. However it ends, the HAL holds what the driver holds but for one buffer.
     */
    method PreviewLoop() returns (again: bool, ghost exit: Exit)
      requires Lockstep()
      modifies this`initialSkipCount, this`exits, stream`lastEnqueuedBuffer, stream.queue, stream.streamOps, driver
      ensures EndsFor(exit)
      ensures stream.Valid() && (again <==> exit.GoesOn?) && (again ==> Lockstep())
      ensures stream.Held() == HeldAt(exit, InDriver())
      ensures DriverAfter(exit, old(driver.queued), driver.queued)
      ensures exit != NoFrame ==> driver.filled == old(driver.filled) + [old(driver.queued)[0].handle]
      ensures exit != NoFrame ==> stream.streamOps.returned == old(stream.streamOps.returned)
                                  + Returns(exit, old(driver.queued)[0].handle, old(initialSkipCount) > 0)
      ensures exit == NoFrame ==> driver.filled == old(driver.filled)
                                  && stream.streamOps.returned == old(stream.streamOps.returned)
      ensures old(initialSkipCount) > 0 ==> !exit.StoppedWithFrame? && !exit.NotEnqueued?
      ensures exit.GoesOn? || exit.NotQueued? ==> exit.nu in stream.buffers
    {
      hide NXStream.Valid, DistinctIndices, Custody, Sent, SlotHandles, OldestFirst;
      var ret, dqIdx := driver.DqBuf();
      if ret < 0 {
        return false, NoFrame;
      }
      ghost var slots, filled := old(driver.queued), old(driver.filled);
      ghost var h := slots[0].handle;
      TailHandles(slots);
      SentAppend(filled, h, skips);
      assert stream.Held() == [h] + SlotHandles(slots[1..]);
      if initialSkipCount > 0 {
        initialSkipCount := initialSkipCount - 1;
        var _ := stream.CancelBuffer();
      } else {
        var stop := ExitRequested();
        if stop {
          return false, StoppedWithFrame(h);
        }
        var status := stream.EnqueueBuffer();
        if status != NO_ERROR {
          return false, NotEnqueued(h);
        }
      }
      assert stream.Held() == SlotHandles(slots[1..]);
      assert stream.streamOps.returned == returnedBefore + Sent(driver.filled, skips);
      again, exit := Requeue(dqIdx, true, slots);
    }

    /** RecordThread::threadLoop: nothing is skipped, and only a filled frame meets an exit check. */
    method RecordLoop() returns (again: bool, ghost exit: Exit)
      requires Lockstep() && skips == 0
      modifies this`exits, stream`lastEnqueuedBuffer, stream.queue, stream.streamOps, driver
      ensures EndsFor(exit)
      ensures stream.Valid() && (again <==> exit.GoesOn?) && (again ==> Lockstep())
      ensures stream.Held() == HeldAt(exit, InDriver())
      ensures DriverAfter(exit, old(driver.queued), driver.queued)
      ensures exit != NoFrame ==> driver.filled == old(driver.filled) + [old(driver.queued)[0].handle]
      ensures exit != NoFrame ==> stream.streamOps.returned == old(stream.streamOps.returned)
                                  + Returns(exit, old(driver.queued)[0].handle, false)
      ensures exit == NoFrame ==> driver.filled == old(driver.filled)
                                  && stream.streamOps.returned == old(stream.streamOps.returned)
      ensures !exit.StoppedWithoutBuffer? && !exit.StoppedAfterTurn?
      ensures exit.GoesOn? || exit.NotQueued? ==> exit.nu in stream.buffers
    {
      hide NXStream.Valid, DistinctIndices, Custody, Sent, SlotHandles, OldestFirst;
      var ret, dqIdx := driver.DqBuf();
      if ret < 0 {
        return false, NoFrame;
      }
      ghost var slots, filled := old(driver.queued), old(driver.filled);
      ghost var h := slots[0].handle;
      TailHandles(slots);
      SentAppend(filled, h, skips);
      assert stream.Held() == [h] + SlotHandles(slots[1..]);
      var stop := ExitRequested();
      if stop {
        return false, StoppedWithFrame(h);
      }
      var status := stream.EnqueueBuffer();
      if status != NO_ERROR {
        return false, NotEnqueued(h);
      }
      assert stream.Held() == SlotHandles(slots[1..]);
      again, exit := Requeue(dqIdx, false, slots);
    }

    /**
     The second half of both loops: a new buffer from the framework goes to the driver under the old index.
     The preview loop checks for an exit before and after; the record loop does not.
     */
    method Requeue(dqIdx: nat, checks: bool, ghost slots: seq<Slot>) returns (again: bool, ghost exit: Exit)
      requires stream.Valid() && slots != [] && driver.queued == slots[1..] && dqIdx == slots[0].index
      requires stream.Held() == InDriver() && DistinctIndices(slots) && slots[0].handle in stream.streamOps.owned
      requires stream.streamOps.returned == returnedBefore + Sent(driver.filled, skips)
      requires initialSkipCount == (if |driver.filled| < skips then skips - |driver.filled| else 0)
      modifies this`exits, stream.queue, stream.streamOps, driver
      ensures EndsFor(exit)
      ensures stream.Valid() && driver.filled == old(driver.filled)
      ensures stream.streamOps.returned == old(stream.streamOps.returned)
      ensures (again <==> exit.GoesOn?) && (again ==> Lockstep())
      ensures exit != NoFrame && !exit.StoppedWithFrame? && !exit.NotEnqueued?
      ensures DriverAfter(exit, slots, driver.queued) && stream.Held() == HeldAt(exit, InDriver())
      ensures !checks ==> !exit.StoppedWithoutBuffer? && !exit.StoppedAfterTurn?
      ensures exit.GoesOn? || exit.NotQueued? ==> exit.nu in stream.buffers
    {
      hide NXStream.Valid, DistinctIndices, Custody, Sent, SlotHandles, OldestFirst;
      if checks {
        var stop := ExitRequested();
        if stop {
          return false, StoppedWithoutBuffer;
        }
      }
      var status, buffer := stream.DequeueBuffer();
      if status != NO_ERROR || buffer == None {
        return false, NoNewBuffer;
      }
      var h := buffer.value;
      RotateIndices(slots, h);
      AppendHandles(driver.queued, Slot(dqIdx, h));
      var ret := driver.QBuf(dqIdx, h);
      if ret != 0 {
        return false, if ret < 0 then NotQueued(h) else QueuedWithStatus(h);
      }
      if checks {
        var stop := ExitRequested();
        if stop {
          return false, StoppedAfterTurn(h);
        }
      }
      return true, GoesOn(h);
    }

    /** A turn of the preview loop, and what has then been returned. */
    method PreviewTurn(ghost before: seq<Return>, ghost skipFrames: nat)
      returns (again: bool, ghost sent: nat, ghost lost: seq<Handle>)
      requires Lockstep() && skips == skipFrames && returnedBefore == before
      modifies this`initialSkipCount, this`exits, stream`lastEnqueuedBuffer, stream.queue, stream.streamOps, driver
      ensures stream.Valid() && Ended(before, lost, sent, skipFrames)
      ensures again ==> Lockstep() && sent == |driver.filled| && lost == []
      ensures Troubles() >= old(Troubles())
      ensures Troubles() == old(Troubles()) && old(driver.queued) != [] ==>
                again && driver.queued != [] && |driver.filled| == old(|driver.filled|) + 1
    {
      hide NXStream.Valid, Custody, DistinctIndices, Sent, AllCancelled;
      ghost var r0, f0, slots := stream.streamOps.returned, driver.filled, driver.queued;
      ghost var exit: Exit;
      again, exit := PreviewLoop();
      TurnReturns(exit, before, r0, stream.streamOps.returned, f0, driver.filled,
                  if slots == [] then 0 else slots[0].handle, skipFrames);
      sent, lost := SentOf(exit, |driver.filled|), CancelledBy(exit);
    }

    /**
     Any number of turns of the preview loop, and the flush when the thread is stopped. The frames filled
     go back in order, the first `skipFrames` cancelled and the others delivered; a last frame may be among
     the buffers that the end and the flush cancel.
     */
    method PreviewSession(skipFrames: nat, turns: nat) returns (done: nat, ghost sent: nat, ghost rest: seq<Handle>)
      requires stream.Valid() && driver.queued == [] && driver.filled == []
      modifies this, stream, stream.queue, stream.streamOps, driver
      ensures stream.Valid() && stream.Held() == [] && done <= turns
      ensures forall h :: h in stream.streamOps.owned <==> h in stream.buffers
      ensures Handles(stream.streamOps.returned) == stream.streamOps.given
      ensures sent <= |driver.filled| <= sent + 1
      ensures sent < |driver.filled| ==> rest != [] && rest[0] == driver.filled[sent]
      ensures stream.streamOps.returned
           == old(stream.streamOps.returned) + Sent(driver.filled[..sent], skipFrames) + AllCancelled(rest)
      ensures forall i :: 0 <= i < sent ==>
                stream.streamOps.returned[|old(stream.streamOps.returned)| + i]
                == if i < skipFrames then Cancelled(driver.filled[i]) else Enqueued(driver.filled[i])
      ensures Troubles() == old(Troubles()) && old(HasBuffers()) ==> done == turns == sent == |driver.filled|
    {
      hide NXStream.Valid, Sent, AllCancelled, Lockstep;
      ghost var before, lost: seq<Handle> := stream.streamOps.returned, [];
      ghost var troubles, have := Troubles(), HasBuffers();
      done, sent := 0, 0;
      NothingSent(before, skipFrames);
      var again := ReadyToRun(skipFrames);
      while again && done < turns
        invariant stream.Valid() && done <= turns
        invariant again ==> Lockstep() && skips == skipFrames && returnedBefore == before
                            && sent == |driver.filled| && lost == []
        invariant Ended(before, lost, sent, skipFrames) && Troubles() >= troubles
        invariant Troubles() == troubles && have ==> again && driver.queued != [] && done == |driver.filled|
      {
        again, sent, lost := PreviewTurn(before, skipFrames);
        done := done + 1;
      }
      rest := EndSession(before, lost, sent, skipFrames);
      SentInOrder(before, driver.filled, sent, skipFrames, AllCancelled(rest));
    }

    /** What has been returned, and where the last frame is if it was not sent on. */
    ghost predicate Ended(before: seq<Return>, lost: seq<Handle>, sent: nat, skipFrames: nat)
      reads this, driver, stream, stream.queue, stream.streamOps
    {
      && sent <= |driver.filled| <= sent + 1
      && stream.streamOps.returned == before + Sent(driver.filled[..sent], skipFrames) + AllCancelled(lost)
      && (sent < |driver.filled| ==>
            || lost == [driver.filled[sent]]
            || (lost == [] && stream.Held() != [] && stream.Held()[0] == driver.filled[sent]))
      && |lost| <= 1
    }

    /** The flush at the end. */
    method EndSession(ghost before: seq<Return>, ghost lost: seq<Handle>, ghost sent: nat, ghost skipFrames: nat)
      returns (ghost rest: seq<Handle>)
      requires stream.Valid() && Ended(before, lost, sent, skipFrames)
      modifies stream`bufferInited, stream.queue, stream.streamOps
      ensures stream.Valid() && stream.Held() == []
      ensures forall h :: h in stream.streamOps.owned <==> h in stream.buffers
      ensures Handles(stream.streamOps.returned) == stream.streamOps.given
      ensures sent <= |driver.filled| <= sent + 1
      ensures sent < |driver.filled| ==> rest != [] && rest[0] == driver.filled[sent]
      ensures stream.streamOps.returned == before + Sent(driver.filled[..sent], skipFrames) + AllCancelled(rest)
      ensures Troubles() == old(Troubles())
    {
      hide NXStream.Valid, Custody, Sent, AllCancelled;
      rest := lost + stream.Held();
      CancelledTogether(lost, stream.Held());
      stream.FlushBuffer();
      stream.NothingHeld();
    }

    /** A turn of the record loop, and what has then been returned. */
    method RecordTurn(ghost before: seq<Return>) returns (again: bool, ghost sent: nat, ghost lost: seq<Handle>)
      requires Lockstep() && skips == 0 && returnedBefore == before
      modifies this`exits, stream`lastEnqueuedBuffer, stream.queue, stream.streamOps, driver
      ensures stream.Valid() && Ended(before, lost, sent, 0)
      ensures again ==> Lockstep() && sent == |driver.filled| && lost == []
      ensures Troubles() >= old(Troubles())
      ensures Troubles() == old(Troubles()) && old(driver.queued) != [] ==>
                again && driver.queued != [] && |driver.filled| == old(|driver.filled|) + 1
    {
      hide NXStream.Valid, Custody, DistinctIndices, Sent, AllCancelled;
      ghost var r0, f0, slots := stream.streamOps.returned, driver.filled, driver.queued;
      ghost var exit: Exit;
      again, exit := RecordLoop();
      TurnReturns(exit, before, r0, stream.streamOps.returned, f0, driver.filled,
                  if slots == [] then 0 else slots[0].handle, 0);
      sent, lost := SentOf(exit, |driver.filled|), CancelledBy(exit);
    }

    /** The same for the record loop, which skips no frames. */
    method RecordSession(turns: nat) returns (done: nat, ghost sent: nat, ghost rest: seq<Handle>)
      requires stream.Valid() && driver.queued == [] && driver.filled == []
      modifies this, stream, stream.queue, stream.streamOps, driver
      ensures stream.Valid() && stream.Held() == [] && done <= turns
      ensures forall h :: h in stream.streamOps.owned <==> h in stream.buffers
      ensures Handles(stream.streamOps.returned) == stream.streamOps.given
      ensures sent <= |driver.filled| <= sent + 1
      ensures sent < |driver.filled| ==> rest != [] && rest[0] == driver.filled[sent]
      ensures stream.streamOps.returned
           == old(stream.streamOps.returned) + Sent(driver.filled[..sent], 0) + AllCancelled(rest)
      ensures forall i :: 0 <= i < sent ==>
                stream.streamOps.returned[|old(stream.streamOps.returned)| + i] == Enqueued(driver.filled[i])
      ensures Troubles() == old(Troubles()) && old(HasBuffers()) ==> done == turns == sent == |driver.filled|
    {
      hide NXStream.Valid, Sent, AllCancelled, Lockstep;
      ghost var before, lost: seq<Handle> := stream.streamOps.returned, [];
      ghost var troubles, have := Troubles(), HasBuffers();
      done, sent := 0, 0;
      NothingSent(before, 0);
      var again := ReadyToRun(0);
      while again && done < turns
        invariant stream.Valid() && done <= turns
        invariant again ==> Lockstep() && skips == 0 && returnedBefore == before && sent == |driver.filled| && lost == []
        invariant Ended(before, lost, sent, 0) && Troubles() >= troubles
        invariant Troubles() == troubles && have ==> again && driver.queued != [] && done == |driver.filled|
      {
        again, sent, lost := RecordTurn(before);
        done := done + 1;
      }
      rest := EndSession(before, lost, sent, 0);
      SentInOrder(before, driver.filled, sent, 0, AllCancelled(rest));
    }
  }

  lemma NothingSent(before: seq<Return>, skips: nat)
    ensures before == before + Sent([], skips) + AllCancelled([])
  {
  }

  lemma CancelledTogether(lost: seq<Handle>, held: seq<Handle>)
    requires |lost| <= 1
    ensures AllCancelled(lost + held) == AllCancelled(lost) + AllCancelled(held)
  {
    if lost == [] {
      assert lost + held == held && AllCancelled(lost) + AllCancelled(held) == AllCancelled(held);
    } else {
      assert lost == [lost[0]];
      CancelFirst(lost[0], held);
      CancelFirst(lost[0], []);
      assert [lost[0]] + [] == lost;
    }
  }
}
