/**
 The acceleration sensor: axis updates are gathered in a pending event, and each EV_SYN sends it.
 Acceleration is a real number here; the rounding of float is not modelled.
 */
module Acceleration {
  import opened InputEvents

  const EV_SYN: int := 0
  const EV_ABS: int := 3
  const EVENT_TYPE_ACCEL_X: int := 0
  const EVENT_TYPE_ACCEL_Y: int := 1
  const EVENT_TYPE_ACCEL_Z: int := 2

  datatype SensorEvent = SensorEvent(x: real, y: real, z: real, timestamp: int)

  const INITIAL_EVENT: SensorEvent := SensorEvent(0.0, 0.0, 0.0, 0)

  /** The effect of one input event on the pending event. */
  function Update(p: SensorEvent, e: InputEvent, resolution: real): SensorEvent {
    if e.typ == EV_ABS then
      var a := (e.value as real) * resolution;
      if e.code == EVENT_TYPE_ACCEL_X then p.(x := a)
      else if e.code == EVENT_TYPE_ACCEL_Y then p.(y := a)
      else if e.code == EVENT_TYPE_ACCEL_Z then p.(z := a)
      else p
    else if e.typ == EV_SYN then p.(timestamp := e.time)
    else p
  }

  /** The pending event after a stream of input events. */
  function PendingAfter(p: SensorEvent, es: seq<InputEvent>, resolution: real): SensorEvent {
    if es == [] then p else Update(PendingAfter(p, es[..|es| - 1], resolution), es[|es| - 1], resolution)
  }

  /** The events sent for a stream of input events by an enabled sensor: one per EV_SYN. */
  function Sent(p: SensorEvent, es: seq<InputEvent>, resolution: real): seq<SensorEvent> {
    if es == [] then []
    else
      var n := |es| - 1;
      Sent(p, es[..n], resolution) + if es[n].typ == EV_SYN then [PendingAfter(p, es, resolution)] else []
  }

  function SynCount(es: seq<InputEvent>): nat {
    if es == [] then 0 else SynCount(es[..|es| - 1]) + if es[|es| - 1].typ == EV_SYN then 1 else 0
  }

  lemma {:induction false} OneEventPerSyn(p: SensorEvent, es: seq<InputEvent>, resolution: real)
    ensures |Sent(p, es, resolution)| == SynCount(es)
  {
    if es != [] {
      OneEventPerSyn(p, es[..|es| - 1], resolution);
    }
  }

  /** A stream can be processed in two parts, the second from the state the first leaves. */
  lemma {:induction false} InTwoParts(p: SensorEvent, a: seq<InputEvent>, b: seq<InputEvent>, resolution: real)
    ensures PendingAfter(p, a + b, resolution) == PendingAfter(PendingAfter(p, a, resolution), b, resolution)
    ensures Sent(p, a + b, resolution)
         == Sent(p, a, resolution) + Sent(PendingAfter(p, a, resolution), b, resolution)
  {
    if b == [] {
      assert a + b == a;
    } else {
      var n := |b| - 1;
      InTwoParts(p, a, b[..n], resolution);
      assert (a + b)[..|a + b| - 1] == a + b[..n];
    }
  }

  lemma OneMore(p: SensorEvent, es: seq<InputEvent>, e: InputEvent, resolution: real)
    ensures PendingAfter(p, es + [e], resolution) == Update(PendingAfter(p, es, resolution), e, resolution)
    ensures Sent(p, es + [e], resolution)
         == Sent(p, es, resolution) + if e.typ == EV_SYN then [PendingAfter(p, es + [e], resolution)] else []
  {
    assert (es + [e])[..|es|] == es;
  }

  // What the sent events are, by positions in the stream: event types 0 and 3 are EV_SYN and EV_ABS, codes
  // 0, 1 and 2 the three axes.

  /** The position of the last update of an axis, or -1. */
  function LastUpdate(es: seq<InputEvent>, code: int): (j: int)
    ensures -1 <= j < |es|
    ensures j >= 0 ==> es[j].typ == 3 && es[j].code == code
    ensures forall i :: j < i < |es| ==> !(es[i].typ == 3 && es[i].code == code)
  {
    if es == [] then -1
    else
      var n := |es| - 1;
      if es[n].typ == 3 && es[n].code == code then n else LastUpdate(es[..n], code)
  }

  function AxisValue(initial: real, es: seq<InputEvent>, code: int, resolution: real): real {
    var j := LastUpdate(es, code);
    if j < 0 then initial else es[j].value as real * resolution
  }

  lemma {:induction false} PendingAxes(p: SensorEvent, es: seq<InputEvent>, resolution: real)
    ensures PendingAfter(p, es, resolution).x == AxisValue(p.x, es, 0, resolution)
    ensures PendingAfter(p, es, resolution).y == AxisValue(p.y, es, 1, resolution)
    ensures PendingAfter(p, es, resolution).z == AxisValue(p.z, es, 2, resolution)
  {
    if es != [] {
      PendingAxes(p, es[..|es| - 1], resolution);
    }
  }

  /** Which event an EV_SYN sends: the one after as many as there are EV_SYNs before it. */
  lemma {:induction false} SentForSyn(p: SensorEvent, es: seq<InputEvent>, i: nat, resolution: real)
    requires i < |es| && es[i].typ == 0
    ensures SynCount(es[..i]) < |Sent(p, es, resolution)|
    ensures Sent(p, es, resolution)[SynCount(es[..i])] == PendingAfter(p, es[..i + 1], resolution)
  {
    var n := |es| - 1;
    OneEventPerSyn(p, es[..n], resolution);
    if i < n {
      SentForSyn(p, es[..n], i, resolution);
      assert es[..n][..i] == es[..i] && es[..n][..i + 1] == es[..i + 1];
    } else {
      assert es[..i + 1] == es;
    }
  }

  /**
   The k-th EV_SYN of any stream sends the k-th event: each axis has the last value reported for it before,
   times the resolution, or its initial value, and the time is that of the EV_SYN.
   */
  lemma SentEvent(p: SensorEvent, es: seq<InputEvent>, i: nat, resolution: real)
    requires i < |es| && es[i].typ == 0
    ensures var k := SynCount(es[..i]);
            && k < |Sent(p, es, resolution)|
            && Sent(p, es, resolution)[k]
               == SensorEvent(AxisValue(p.x, es[..i], 0, resolution), AxisValue(p.y, es[..i], 1, resolution),
                              AxisValue(p.z, es[..i], 2, resolution), es[i].time)
  {
    SentForSyn(p, es, i, resolution);
    PendingAxes(p, es[..i], resolution);
    assert es[..i + 1][..i] == es[..i];
  }

  /** And every sent event is that of an EV_SYN. */
  lemma {:induction false} SynOfSent(p: SensorEvent, es: seq<InputEvent>, k: nat, resolution: real) returns (i: nat)
    requires k < |Sent(p, es, resolution)|
    ensures i < |es| && es[i].typ == 0 && SynCount(es[..i]) == k
  {
    var n := |es| - 1;
    OneEventPerSyn(p, es, resolution);
    OneEventPerSyn(p, es[..n], resolution);
    if k < |Sent(p, es[..n], resolution)| {
      i := SynOfSent(p, es[..n], k, resolution);
      assert es[..n][..i] == es[..i];
    } else {
      i := n;
    }
  }

  class AccelerationSensor {
    const resolution: real
    const inputReader: InputEventCircularReader
    var enabled: bool
    var pendingEvent: SensorEvent
    /** The events taken from the reader and those sent, and whether any was taken while disabled. */
    ghost var consumed: seq<InputEvent>
    ghost var emitted: seq<SensorEvent>
    ghost var missed: bool

    constructor (res: real, zero: InputEvent)
      ensures Valid() && fresh(inputReader) && fresh(inputReader.buffer) && resolution == res
      ensures Received() == [] && emitted == [] && !missed
    {
      resolution := res;
      inputReader := new InputEventCircularReader(4, zero);
      enabled, pendingEvent := false, INITIAL_EVENT;
      consumed, emitted, missed := [], [], false;
    }

    /** Every whole event the reader has delivered. */
    ghost function Received(): seq<InputEvent>
      reads this, inputReader, inputReader.buffer
      requires inputReader.Valid()
    {
      consumed + inputReader.Contents()
    }

    /** The pending event and what was sent are those of one fold over the events taken so far. */
    ghost predicate Valid()
      reads this, inputReader, inputReader.buffer
    {
      && inputReader.Valid()
      && pendingEvent == PendingAfter(INITIAL_EVENT, consumed, resolution)
      && (!missed ==> emitted == Sent(INITIAL_EVENT, consumed, resolution))
    }

    /** The oldest unread event. */
    method PeekEvent() returns (event: InputEvent)
      requires inputReader.Valid() && inputReader.Contents() != []
      ensures event == inputReader.Contents()[0]
    {
      hide InputEventCircularReader.Valid, InputEventCircularReader.Contents;
      var at, _ := inputReader.ReadEvent();
      event := inputReader.buffer[at];
    }

    /** The branches of the loop in readEvents. */
    method HandleEvent(event: InputEvent) returns (sent: seq<SensorEvent>)
      modifies this`pendingEvent
      ensures pendingEvent == Update(old(pendingEvent), event, resolution)
      ensures sent == if enabled && event.typ == EV_SYN then [pendingEvent] else []
    {
      sent := [];
      if event.typ == EV_ABS {
        var value := event.value as real;
        if event.code == EVENT_TYPE_ACCEL_X {
          pendingEvent := pendingEvent.(x := value * resolution);
        } else if event.code == EVENT_TYPE_ACCEL_Y {
          pendingEvent := pendingEvent.(y := value * resolution);
        } else if event.code == EVENT_TYPE_ACCEL_Z {
          pendingEvent := pendingEvent.(z := value * resolution);
        }
      } else if event.typ == EV_SYN {
        pendingEvent := pendingEvent.(timestamp := event.time);
        if enabled {
          sent := [pendingEvent];
        }
      }
    }

    /** One turn of the loop, for the oldest unread event. */
    method Process() returns (sent: seq<SensorEvent>)
      requires Valid() && inputReader.Contents() != []
      modifies this`pendingEvent, this`consumed, this`emitted, this`missed, inputReader`curr, inputReader`freeSpace
      ensures Valid() && |sent| <= 1 && emitted == old(emitted) + sent
      ensures Received() == old(Received()) && |inputReader.Contents()| == |old(inputReader.Contents())| - 1
      ensures missed <==> old(missed) || !enabled
    {
      hide Sent, PendingAfter, InputEventCircularReader.Valid, InputEventCircularReader.Contents, Update;
      var event := PeekEvent();
      sent := HandleEvent(event);
      OneMore(INITIAL_EVENT, consumed, event, resolution);
      inputReader.Next();
      assert consumed + old(inputReader.Contents()) == consumed + [event] + inputReader.Contents();
      consumed, emitted := consumed + [event], emitted + sent;
      missed := missed || !enabled;
    }

    /**
     readEvents: at most `count` events are sent, and fewer only when nothing is left unread. However
     the stream was cut into reads and calls, what was sent is what one fold over it sends.
     */
    method ReadEvents(read: ReadResult, scratch: seq<InputEvent>, count: int) returns (r: int, data: seq<SensorEvent>)
      requires Valid() && |scratch| <= inputReader.freeSpace
      requires read.Events? ==> |read.events| <= inputReader.freeSpace
      modifies this`pendingEvent, this`consumed, this`emitted, this`missed, inputReader, inputReader.buffer
      ensures Valid() && emitted == old(emitted) + data
      ensures r < 0 <==> count < 1
                         || (old(inputReader.freeSpace) > 0 && (read.Partial? || (read.Failed? && read.errno > 0)))
      ensures r < 0 ==> data == [] && Received() == old(Received())
      ensures r >= 0 ==> && r == |data| <= count && (|data| < count ==> inputReader.Contents() == [])
                         && Received() == old(Received())
                              + (if old(inputReader.freeSpace) > 0 && read.Events? then read.events else [])
      ensures enabled && !old(missed) ==> !missed
    {
      hide Sent, PendingAfter, InputEventCircularReader.Valid;
      data := [];
      if count < 1 {
        return -EINVAL, data;
      }
      ghost var unread := inputReader.Contents();
      var n := inputReader.Fill(read, scratch);
      if n < 0 {
        return n, data;
      }
      ghost var received := Received();
      assert received == old(Received()) + (if old(inputReader.freeSpace) > 0 && read.Events? then read.events else []);
      var left := count;
      while left > 0
        invariant Valid() && Received() == received && emitted == old(emitted) + data
        invariant 0 <= left && |data| == count - left
        invariant enabled && !old(missed) ==> !missed
        decreases |inputReader.Contents()|
      {
        var _, available := inputReader.ReadEvent();
        if available == 0 {
          break;
        }
        var sent := Process();
        data := data + sent;
        left := left - |sent|;
      }
      return |data|, data;
    }

    /** Everything received, sent or not yet: the split into reads and calls does not show. */
    lemma SplitDoesNotMatter()
      requires Valid() && !missed
      ensures emitted + Sent(pendingEvent, inputReader.Contents(), resolution)
           == Sent(INITIAL_EVENT, Received(), resolution)
      ensures |emitted| == SynCount(consumed)
    {
      InTwoParts(INITIAL_EVENT, consumed, inputReader.Contents(), resolution);
      OneEventPerSyn(INITIAL_EVENT, consumed, resolution);
    }
  }
}
