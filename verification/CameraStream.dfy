/**
 Camera buffer custody: the queue of buffers the HAL holds, the framework's side of a stream
 and the stream operations that move buffers between them.
 */
module CameraStream {
  import opened Options

  /** The oldest element first; the vector keeps the newest at index 0. */
  function OldestFirst<T>(vector: seq<T>): (fifo: seq<T>)
    ensures |fifo| == |vector|
  {
    seq(|vector|, i requires 0 <= i < |vector| => vector[|vector| - 1 - i])
  }

  class NXQueue<T> {
    var vector: seq<T>

    constructor ()
      ensures Fifo() == []
    {
      vector := [];
    }

    ghost function Fifo(): (fifo: seq<T>)
      reads this
      ensures |fifo| == |vector|
    {
      OldestFirst(vector)
    }

    method Queue(item: T)
      modifies this
      ensures Fifo() == old(Fifo()) + [item]
    {
      vector := [item] + vector;
    }

    method Dequeue() returns (item: T)
      requires vector != []
      modifies this
      ensures item == old(Fifo()[0]) && Fifo() == old(Fifo()[1..])
    {
      item := vector[|vector| - 1];
      vector := vector[..|vector| - 1];
    }

    method GetHead() returns (item: T)
      requires vector != []
      ensures item == Fifo()[0]
    {
      item := vector[|vector| - 1];
    }

    /** Index 0 is the newest item. */
    method GetItem(index: nat) returns (item: T)
      requires index < |vector|
      ensures item == Fifo()[|Fifo()| - 1 - index]
    {
      item := vector[index];
    }

    method IsEmpty() returns (r: bool)
      ensures r <==> Fifo() == []
    {
      r := |vector| == 0;
    }

    method Size() returns (n: nat)
      ensures n == |Fifo()|
    {
      n := |vector|;
    }

    method Clear()
      modifies this
      ensures Fifo() == []
    {
      vector := [];
    }
  }

  type Handle = nat

  const NO_ERROR: int := 0
  const BAD_VALUE: int := -22

  /** How a buffer went back to the framework. */
  datatype Return = Enqueued(handle: Handle) | Cancelled(handle: Handle)

  function Handles(rs: seq<Return>): (hs: seq<Handle>)
    ensures |hs| == |rs|
  {
    seq(|rs|, i requires 0 <= i < |rs| => rs[i].handle)
  }

  lemma HandlesAppend(rs: seq<Return>, r: Return)
    ensures Handles(rs + [r]) == Handles(rs) + [r.handle]
  {
  }

  /**
   The framework's side of a stream. It hands over any buffer it owns, or none; enqueueing may
   fail and then leaves the buffer with the HAL. `given` and `returned` record what passed, `withheld` and
   `refused` how often it handed over nothing though it had a buffer, and how often it refused one.
   */
  class StreamOps {
    var owned: set<Handle>
    ghost var given: seq<Handle>
    ghost var returned: seq<Return>
    ghost var withheld: nat
    ghost var refused: nat

    constructor (buffers: set<Handle>)
      ensures owned == buffers && given == [] && returned == []
    {
      owned, given, returned := buffers, [], [];
    }

    method DequeueBuffer() returns (r: Option<Handle>)
      modifies this
      ensures returned == old(returned) && refused == old(refused)
      ensures withheld == old(withheld) + if r.None? && owned != {} then 1 else 0
      ensures r.None? ==> owned == old(owned) && given == old(given)
      ensures r.Some? ==> r.value in old(owned) && owned == old(owned) - {r.value} && given == old(given) + [r.value]
    {
      var willing: bool := *;
      if !willing || owned == {} {
        withheld := withheld + if owned != {} then 1 else 0;
        return None;
      }
      var h :| h in owned;
      owned, given := owned - {h}, given + [h];
      return Some(h);
    }

    method EnqueueBuffer(h: Handle) returns (status: int)
      modifies this
      ensures given == old(given) && withheld == old(withheld)
      ensures refused == old(refused) + if status != NO_ERROR then 1 else 0
      ensures status == NO_ERROR ==> owned == old(owned) + {h} && returned == old(returned) + [Enqueued(h)]
      ensures status != NO_ERROR ==> owned == old(owned) && returned == old(returned)
    {
      status := *;
      if status == NO_ERROR {
        owned, returned := owned + {h}, returned + [Enqueued(h)];
      } else {
        refused := refused + 1;
      }
    }

    method CancelBuffer(h: Handle) returns (status: int)
      modifies this
      ensures given == old(given) && withheld == old(withheld) && refused == old(refused)
      ensures owned == old(owned) + {h} && returned == old(returned) + [Cancelled(h)]
    {
      status := *;
      owned, returned := owned + {h}, returned + [Cancelled(h)];
    }
  }

  /** Buffers given back unused, in order. */
  function AllCancelled(hs: seq<Handle>): seq<Return> {
    if hs == [] then [] else AllCancelled(hs[..|hs| - 1]) + [Cancelled(hs[|hs| - 1])]
  }

  lemma CancelOneMore(hs: seq<Handle>, n: nat)
    requires n < |hs|
    ensures AllCancelled(hs[..n + 1]) == AllCancelled(hs[..n]) + [Cancelled(hs[n])]
  {
    assert hs[..n + 1][..n] == hs[..n];
  }

  lemma {:induction false} CancelFirst(h: Handle, hs: seq<Handle>)
    ensures AllCancelled([h] + hs) == [Cancelled(h)] + AllCancelled(hs)
  {
    if hs == [] {
      assert [h] + hs == [h] && [h][..0] == [];
    } else {
      var n := |hs| - 1;
      CancelFirst(h, hs[..n]);
      assert ([h] + hs)[..n + 1] == [h] + hs[..n];
    }
  }

  ghost predicate NoDuplicates(s: seq<Handle>) {
    forall i, j :: 0 <= i < j < |s| ==> s[i] != s[j]
  }

  /**
   Every registered buffer is either with the framework or exactly once with the HAL, and the
   buffers given to the HAL are those it returned followed by those it holds, in that order.
   */
  ghost predicate Custody(held: seq<Handle>, owned: set<Handle>, buffers: seq<Handle>,
                          given: seq<Handle>, returned: seq<Return>) {
    && NoDuplicates(held)
    && (forall h :: h in held ==> h !in owned)
    && (forall h :: h in buffers <==> h in owned || h in held)
    && given == Handles(returned) + held
  }

  /** Returning the oldest buffer, either way, keeps the custody. */
  lemma ReturnOldest(held: seq<Handle>, owned: set<Handle>, buffers: seq<Handle>,
                     given: seq<Handle>, returned: seq<Return>, r: Return)
    requires Custody(held, owned, buffers, given, returned) && held != [] && r.handle == held[0]
    ensures Custody(held[1..], owned + {held[0]}, buffers, given, returned + [r])
    ensures held[0] in buffers
  {
    HandlesAppend(returned, r);
    assert held == [held[0]] + held[1..];
    assert held[0] in held;
    forall h
      ensures h in buffers <==> h in owned + {held[0]} || h in held[1..]
    {
      assert h in held <==> h == held[0] || h in held[1..];
    }
    forall h | h in held[1..]
      ensures h !in owned + {held[0]}
    {
      var i :| 0 <= i < |held[1..]| && held[1..][i] == h;
      assert held[i + 1] == h && held[0] != held[i + 1];
    }
  }

  class NXStream {
    const streamOps: StreamOps
    const maxBuffers: nat
    var buffers: seq<Handle>
    var lastEnqueuedBuffer: Option<Handle>
    var bufferInited: bool
    const queue: NXQueue<Handle>

    /** A stream whose buffers are registered: all of them are with the framework. */
    constructor (ops: StreamOps, max: nat, registered: seq<Handle>)
      requires ops.owned == (set h | h in registered) && ops.given == [] && ops.returned == []
      ensures Valid() && fresh(queue) && streamOps == ops && maxBuffers == max && buffers == registered
      ensures Held() == [] && !bufferInited
    {
      streamOps, maxBuffers, buffers := ops, max, registered;
      lastEnqueuedBuffer, bufferInited := None, false;
      queue := new NXQueue<Handle>();
    }

    /** The buffers the HAL holds, oldest first. */
    ghost function Held(): seq<Handle>
      reads this, queue
    {
      queue.Fifo()
    }

    ghost predicate Valid()
      reads this, queue, streamOps
    {
      Custody(Held(), streamOps.owned, buffers, streamOps.given, streamOps.returned)
    }

    /** registerBuffer: custody goes on just when the new buffers are those that the framework and the HAL have. */
    method RegisterBuffer(registered: seq<Handle>)
      requires Valid()
      modifies this`buffers, this`lastEnqueuedBuffer
      ensures buffers == registered && lastEnqueuedBuffer == None && Held() == old(Held())
      ensures Valid() <==> forall h :: h in registered <==> h in streamOps.owned || h in Held()
    {
      buffers, lastEnqueuedBuffer := registered, None;
    }

    method FindBufferIndex(h: Handle) returns (index: int)
      ensures h in buffers ==> 0 <= index < |buffers| && buffers[index] == h
      ensures h !in buffers ==> index == BAD_VALUE
    {
      for i := 0 to |buffers|
        invariant h !in buffers[..i]
      {
        if buffers[i] == h {
          return i;
        }
      }
      return BAD_VALUE;
    }

    method DequeueBuffer() returns (status: int, buffer: Option<Handle>)
      requires Valid()
      modifies queue, streamOps
      ensures Valid() && streamOps.returned == old(streamOps.returned)
      ensures status == NO_ERROR || status == BAD_VALUE
      ensures streamOps.refused == old(streamOps.refused)
      ensures streamOps.withheld == old(streamOps.withheld) + if status != NO_ERROR && streamOps.owned != {} then 1 else 0
      ensures status == NO_ERROR <==> buffer.Some?
      ensures status == NO_ERROR ==> buffer.Some? && Held() == old(Held()) + [buffer.value]
                                     && buffer.value in buffers && buffer.value !in old(Held())
      ensures status != NO_ERROR ==> Held() == old(Held()) && streamOps.owned == old(streamOps.owned)
    {
      buffer := streamOps.DequeueBuffer();
      if buffer.Some? {
        var index := FindBufferIndex(buffer.value);
        if index >= 0 {
          queue.Queue(buffer.value);
          return NO_ERROR, buffer;
        }
      }
      return BAD_VALUE, buffer;
    }

    /** Takes what the framework hands over, at most maxBuffers, once per initialisation. */
    method InitBuffer() returns (status: int)
      requires Valid()
      modifies this`bufferInited, queue, streamOps
      ensures Valid() && bufferInited && status == NO_ERROR && streamOps.returned == old(streamOps.returned)
      ensures old(bufferInited) ==> Held() == old(Held()) && streamOps.withheld == old(streamOps.withheld)
      ensures streamOps.refused == old(streamOps.refused)
      ensures old(streamOps.withheld) <= streamOps.withheld <= old(streamOps.withheld) + 1
      ensures !old(bufferInited) && streamOps.withheld == old(streamOps.withheld) ==>
                |Held()| == |old(Held())| + maxBuffers || streamOps.owned == {}
      ensures streamOps.owned == {} && buffers != [] ==> Held() != []
      ensures old(Held()) <= Held() && |Held()| <= |old(Held())| + maxBuffers
    {
      if !bufferInited {
        var i := 0;
        while i < maxBuffers
          invariant Valid() && i <= maxBuffers && streamOps.returned == old(streamOps.returned)
          invariant streamOps.refused == old(streamOps.refused) && streamOps.withheld == old(streamOps.withheld)
          invariant old(Held()) <= Held() && |Held()| == |old(Held())| + i
        {
          var res, buffer := DequeueBuffer();
          if res != NO_ERROR || buffer == None {
            break;
          }
          i := i + 1;
        }
        bufferInited := true;
      }
      if streamOps.owned == {} && buffers != [] {
        HeldIfNotOwned();
      }
      return NO_ERROR;
    }

    /** Sends the oldest buffer on; if that fails the buffer is cancelled instead, in the same place. */
    method EnqueueBuffer() returns (status: int)
      requires Valid()
      modifies this`lastEnqueuedBuffer, queue, streamOps
      ensures Valid()
      ensures streamOps.withheld == old(streamOps.withheld)
      ensures streamOps.refused == old(streamOps.refused) + if status != NO_ERROR then 1 else 0
      ensures old(Held()) == [] ==> status == NO_ERROR && Held() == [] && streamOps.returned == old(streamOps.returned)
      ensures old(Held()) != [] ==>
                && old(Held())[0] in streamOps.owned
                && Held() == old(Held())[1..] && lastEnqueuedBuffer == Some(old(Held())[0])
                && streamOps.returned == old(streamOps.returned)
                     + [if status == NO_ERROR then Enqueued(old(Held())[0]) else Cancelled(old(Held())[0])]
    {
      hide Custody;
      ghost var held, owned := Held(), streamOps.owned;
      var empty := queue.IsEmpty();
      if !empty {
        var buffer := queue.Dequeue();
        ReturnOldest(held, owned, buffers, streamOps.given, streamOps.returned, Enqueued(buffer));
        ReturnOldest(held, owned, buffers, streamOps.given, streamOps.returned, Cancelled(buffer));
        var index := FindBufferIndex(buffer);
        if index >= 0 {
          lastEnqueuedBuffer := Some(buffer);
          status := streamOps.EnqueueBuffer(buffer);
          if status != NO_ERROR {
            var _ := streamOps.CancelBuffer(buffer);
          }
        } else {
          status := BAD_VALUE;
        }
      } else {
        status := NO_ERROR;
      }
    }

    /** Gives the oldest buffer back unused. */
    method CancelBuffer() returns (status: int)
      requires Valid()
      modifies queue, streamOps
      ensures Valid() && streamOps.withheld == old(streamOps.withheld) && streamOps.refused == old(streamOps.refused)
      ensures old(Held()) == [] ==> Held() == [] && streamOps.returned == old(streamOps.returned)
      ensures old(Held()) != [] ==>
                && old(Held())[0] in streamOps.owned
                && Held() == old(Held())[1..]
                && streamOps.returned == old(streamOps.returned) + [Cancelled(old(Held())[0])]
    {
      hide Custody;
      ghost var held, owned := Held(), streamOps.owned;
      var empty := queue.IsEmpty();
      if !empty {
        var buffer := queue.Dequeue();
        ReturnOldest(held, owned, buffers, streamOps.given, streamOps.returned, Cancelled(buffer));
        var index := FindBufferIndex(buffer);
        if index >= 0 {
          status := streamOps.CancelBuffer(buffer);
        } else {
          status := NO_ERROR;
        }
      } else {
        status := NO_ERROR;
      }
    }

    /** Gives everything back, oldest first; the stream can then be initialised again. */
    method FlushBuffer()
      requires Valid()
      modifies this`bufferInited, queue, streamOps
      ensures Valid() && Held() == [] && !bufferInited
      ensures streamOps.withheld == old(streamOps.withheld) && streamOps.refused == old(streamOps.refused)
      ensures forall h :: h in streamOps.owned <==> h in buffers
      ensures Handles(streamOps.returned) == old(streamOps.given)
      ensures streamOps.returned == old(streamOps.returned) + AllCancelled(old(Held()))
    {
      hide AllCancelled, Custody;
      var empty := queue.IsEmpty();
      ghost var all, n, before := Held(), 0, streamOps.returned;
      NothingCancelled(before, all);
      while !empty
        invariant Valid() && (empty <==> Held() == []) && streamOps.given == old(streamOps.given)
        invariant streamOps.withheld == old(streamOps.withheld) && streamOps.refused == old(streamOps.refused)
        invariant n <= |all| && Held() == all[n..] && streamOps.returned == before + AllCancelled(all[..n])
        decreases |queue.vector|
      {
        CancelOneMore(all, n);
        n := n + 1;
        FlushOne();
        empty := queue.IsEmpty();
      }
      bufferInited := false;
      NothingHeld();
      assert all[..n] == all;
    }

    /** The body of the flush's loop. */
    method FlushOne()
      requires Valid() && Held() != []
      modifies queue, streamOps
      ensures Valid() && Held() == old(Held())[1..] && streamOps.given == old(streamOps.given)
      ensures streamOps.withheld == old(streamOps.withheld) && streamOps.refused == old(streamOps.refused)
      ensures streamOps.returned == old(streamOps.returned) + [Cancelled(old(Held())[0])]
      ensures |queue.vector| < old(|queue.vector|)
    {
      hide Custody;
      ReturnOldest(Held(), streamOps.owned, buffers, streamOps.given, streamOps.returned, Cancelled(Held()[0]));
      var buffer := queue.Dequeue();
      var _ := streamOps.CancelBuffer(buffer);
    }

    lemma NothingCancelled(before: seq<Return>, all: seq<Handle>)
      ensures before == before + AllCancelled(all[..0])
    {
    }

    lemma HeldIfNotOwned()
      requires Valid() && streamOps.owned == {} && buffers != []
      ensures Held() != []
    {
      assert buffers[0] in buffers;
    }

    lemma NothingHeld()
      requires Valid() && Held() == []
      ensures forall h :: h in streamOps.owned <==> h in buffers
      ensures Handles(streamOps.returned) == streamOps.given
    {
      assert Handles(streamOps.returned) + [] == Handles(streamOps.returned);
    }
  }
}
