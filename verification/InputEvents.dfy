/**
 The circular reader of kernel input events: a ring of N events followed by an overrun area of the
 same length, so that one read can run past the ring's end and is then folded back.
 */
module InputEvents {
  datatype InputEvent = InputEvent(typ: int, code: int, value: int, time: int)

  /** What read() may return: whole events, a partial event, or an error number. */
  datatype ReadResult = Events(events: seq<InputEvent>) | Partial | Failed(errno: nat)

  const EINVAL: int := 22

  /** n events of a ring of the given size, from index `from` on. */
  function Window(b: seq<InputEvent>, ring: nat, from: nat, n: nat): (w: seq<InputEvent>)
    requires ring <= |b| && n <= ring && (n > 0 ==> from < ring)
    ensures |w| == n
  {
    seq(n, i requires 0 <= i < n => b[if from + i < ring then from + i else from + i - ring])
  }

  /** Events stored at the head, in the ring and past its end, extend the window once folded back. */
  lemma FoldBack(b: seq<InputEvent>, b': seq<InputEvent>, ring: nat, curr: nat, avail: nat, head: nat,
                 events: seq<InputEvent>)
    requires |b| == |b'| == 2 * ring && avail + |events| <= ring && curr < ring && head <= ring
    requires head == curr + avail || head == curr + avail - ring || head == curr + avail + ring
    requires forall i :: 0 <= i < |events| ==> b[head + i] == events[i]
    requires forall i {:trigger b'[i]} :: 0 <= i < ring && i < head + |events| - ring ==> b'[i] == b[ring + i]
    requires forall i {:trigger b'[i]} :: 0 <= i < ring && i >= head + |events| - ring ==> b'[i] == b[i]
    ensures Window(b', ring, curr, avail + |events|) == Window(b, ring, curr, avail) + events
  {
    var w, w' := Window(b, ring, curr, avail), Window(b', ring, curr, avail + |events|);
    forall i | 0 <= i < |w'|
      ensures w'[i] == (w + events)[i]
    {
      var at := if curr + i < ring then curr + i else curr + i - ring;
      assert w'[i] == b'[at];
      if i >= avail {
        var j := i - avail;
        assert b[head + j] == events[j];
        assert head + j == at || head + j == at + ring;
        if head + j == at + ring {
          assert b'[at] == b[ring + at];
        } else {
          assert b'[at] == b[at];
        }
        assert (w + events)[i] == events[j];
      } else {
        assert w[i] == b[at];
        assert at >= head + |events| - ring;
      }
    }
  }

  class InputEventCircularReader {
    const buffer: array<InputEvent>
    const bufferEnd: nat
    var head: nat
    var curr: nat
    var freeSpace: nat

    constructor (numEvents: nat, zero: InputEvent)
      ensures Valid() && fresh(buffer) && Contents() == [] && bufferEnd == numEvents && freeSpace == numEvents
    {
      buffer := new InputEvent[numEvents * 2](_ => zero);
      bufferEnd := numEvents;
      head, curr, freeSpace := 0, 0, numEvents;
    }

    /** Where the i-th unread event is. */
    function Slot(i: nat): int
      reads this
    {
      if curr + i < bufferEnd then curr + i else curr + i - bufferEnd
    }

    /** The head is where the next event goes: just behind the unread ones, at most at the ring's end. */
    ghost predicate Valid()
      reads this
    {
      && buffer.Length == 2 * bufferEnd
      && freeSpace <= bufferEnd
      && (bufferEnd > 0 ==> curr < bufferEnd) && (bufferEnd == 0 ==> curr == 0)
      && head <= bufferEnd
      && (|| head == curr + Available()
          || head == curr + Available() - bufferEnd
          || head == curr + Available() + bufferEnd)
    }

    function Available(): nat
      reads this
      requires freeSpace <= bufferEnd
    {
      bufferEnd - freeSpace
    }

    /** The unread events, oldest first. */
    ghost function Contents(): (c: seq<InputEvent>)
      reads this, buffer
      requires Valid()
      ensures |c| == Available()
    {
      Window(buffer[..], bufferEnd, curr, Available())
    }

    /**
     fill: whatever whole events a read delivers, up to the free space, are behind the unread ones;
     a failed read or a partial event adds none, even if it left bytes in the free space.
     */
    method Fill(read: ReadResult, scratch: seq<InputEvent>) returns (r: int)
      requires Valid()
      requires read.Events? ==> |read.events| <= freeSpace
      requires |scratch| <= freeSpace
      modifies this`head, this`freeSpace, buffer
      ensures Valid()
      ensures old(freeSpace) == 0 ==> r == 0 && Contents() == old(Contents())
      ensures old(freeSpace) > 0 && read.Events? ==>
                r == |read.events| && Contents() == old(Contents()) + read.events
      ensures old(freeSpace) > 0 && read.Partial? ==> r == -EINVAL && Contents() == old(Contents())
      ensures old(freeSpace) > 0 && read.Failed? ==> r == 0 - read.errno && Contents() == old(Contents())
    {
      if freeSpace == 0 {
        return 0;
      }
      if !read.Events? {
        Store(scratch);
        return if read.Failed? then 0 - read.errno else -EINVAL;
      }
      var n := |read.events|;
      Store(read.events);
      if n > 0 {
        Advance(n, read.events);
      }
      return n;
    }

    /** The bytes a read leaves at the head: beyond every unread event and within the array. */
    method Store(events: seq<InputEvent>)
      requires Valid() && |events| <= freeSpace
      modifies buffer
      ensures Valid() && Contents() == old(Contents())
      ensures forall i :: 0 <= i < |events| ==> buffer[head + i] == events[i]
    {
      forall i | 0 <= i < |events| {
        buffer[head + i] := events[i];
      }
      forall i | 0 <= i < Available()
        ensures Contents()[i] == old(Contents())[i]
      {
        assert !(head <= Slot(i) < head + |events|);
      }
    }

    /** The head moves over the events just stored; what lies in the overrun area is folded back. */
    method Advance(n: nat, ghost events: seq<InputEvent>)
      requires Valid() && 0 < n == |events| <= freeSpace
      requires forall i :: 0 <= i < n ==> buffer[head + i] == events[i]
      modifies this`head, this`freeSpace, buffer
      ensures Valid() && Contents() == old(Contents()) + events
    {
      ghost var before, at := Contents(), head;
      head := head + n;
      freeSpace := freeSpace - n;
      if head > bufferEnd {
        var s := head - bufferEnd;
        forall i | 0 <= i < s {
          buffer[i] := buffer[bufferEnd + i];
        }
        head := s;
      }
      FoldBack(old(buffer[..]), buffer[..], bufferEnd, curr, |before|, at, events);
    }

    method ReadEvent() returns (event: int, available: int)
      requires Valid()
      ensures event == curr
      ensures available == if Contents() == [] then 0 else 1
      ensures Contents() != [] ==> event < buffer.Length && buffer[event] == Contents()[0]
    {
      event := curr;
      available := if bufferEnd - freeSpace != 0 then 1 else 0;
    }

    /** next, called only when there is an event. */
    method Next()
      requires Valid() && Contents() != []
      modifies this`curr, this`freeSpace
      ensures Valid() && Contents() == old(Contents())[1..]
    {
      curr := curr + 1;
      freeSpace := freeSpace + 1;
      if curr >= bufferEnd {
        curr := 0;
      }
    }
  }
}
