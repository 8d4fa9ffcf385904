/**
 The bounded queue between the media callback and the pipeline: it never grows past its bound, and what it loses
 are always the oldest frames, which it clears.
 */
module LatestQueue {
  /** A byte buffer that whoever holds it shares. */
  class ByteBuffer {
    const storage: array<int>
    var size: nat

    constructor (bytes: seq<int>)
      ensures fresh(storage) && storage[..] == bytes && size == |bytes|
    {
      storage := new int[|bytes|](i requires 0 <= i < |bytes| => bytes[i]);
      size := |bytes|;
    }

    /** Empty, and nothing of it is left in memory. */
    ghost predicate Wiped()
      reads this, storage
    {
      size == 0 && forall i :: 0 <= i < storage.Length ==> storage[i] == 0
    }

    method Wipe()
      modifies this, storage
      ensures Wiped()
    {
      for i := 0 to storage.Length
        invariant forall j :: 0 <= j < i ==> storage[j] == 0
      {
        storage[i] := 0;
      }
      size := 0;
    }
  }

  /** One media frame; clearing it zeroes its payload in place and empties it, for every holder. */
  class MediaFrame {
    const payload: ByteBuffer
    const sequence: nat

    constructor (payload: ByteBuffer, sequence: nat)
      ensures this.payload == payload && this.sequence == sequence
    {
      this.payload := payload;
      this.sequence := sequence;
    }

    /** What clearing the frame writes. */
    ghost function Footprint(): set<object> {
      {payload, payload.storage}
    }

    method Clear()
      modifies Footprint()
      ensures payload.Wiped()
    {
      payload.Wipe();
    }
  }

  /** A queue without a positive bound is never full. */
  predicate Full<T>(maximum: int, queue: seq<T>) {
    maximum > 0 && |queue| >= maximum
  }

  function Put<T>(maximum: int, queue: seq<T>, item: T): seq<T> {
    (if Full(maximum, queue) then queue[1..] else queue) + [item]
  }

  class BoundedLatestQueue {
    const maximum: int
    var queue: seq<MediaFrame>
    var droppedItems: nat

    constructor (maximum: int)
      ensures this.maximum == maximum && queue == [] && droppedItems == 0
    {
      this.maximum := maximum;
      queue := [];
      droppedItems := 0;
    }

    /** The dropped frame, if any, is cleared; no other frame is touched. */
    method PutLatest(item: MediaFrame)
      modifies this, if Full(maximum, queue) then queue[0].Footprint() else {}
      ensures queue == Put(maximum, old(queue), item)
      ensures droppedItems == old(droppedItems) + if Full(maximum, old(queue)) then 1 else 0
      ensures Full(maximum, old(queue)) ==> old(queue)[0].payload.Wiped()
    {
      if Full(maximum, queue) {
        var dropped := queue[0];
        queue := queue[1..];
        dropped.Clear();
        droppedItems := droppedItems + 1;
      }
      queue := queue + [item];
    }

    /** The wait for a first item is over when this is called. */
    method Get() returns (item: MediaFrame)
      requires queue != []
      modifies this
      ensures item == old(queue)[0] && queue == old(queue)[1..]
      ensures droppedItems == old(droppedItems)
    {
      item := queue[0];
      queue := queue[1..];
    }

    method Clear()
      modifies this, set frame, part | frame in queue && part in frame.Footprint() :: part
      ensures queue == [] && droppedItems == old(droppedItems)
      ensures forall frame :: frame in old(queue) ==> frame.payload.Wiped()
    {
      ghost var before := queue;
      while queue != []
        invariant |queue| <= |before| && queue == before[|before| - |queue|..]
        invariant forall i :: 0 <= i < |before| - |queue| ==> before[i].payload.Wiped()
        invariant droppedItems == old(droppedItems)
        decreases |queue|
      {
        var item := queue[0];
        queue := queue[1..];
        item.Clear();
      }
    }
  }

  // ---------------------------------------------------------------- any interleaving

  /** The callback delivers the next frame, or the pipeline takes one. */
  datatype QueueStep = Arrive | Take

  /** Frames are numbered 1, 2, ... in order of arrival; `next` is the number of the next one. */
  datatype QueueRun = QueueRun(next: nat, queue: seq<nat>, taken: seq<nat>, dropped: nat)

  function StepQueue(maximum: int, run: QueueRun, step: QueueStep): QueueRun {
    match step
    case Arrive =>
      QueueRun(run.next + 1, Put(maximum, run.queue, run.next), run.taken,
               run.dropped + if Full(maximum, run.queue) then 1 else 0)
    case Take =>
      if run.queue == [] then run
      else QueueRun(run.next, run.queue[1..], run.taken + [run.queue[0]], run.dropped)
  }

  function RunQueue(maximum: int, steps: seq<QueueStep>): QueueRun {
    if steps == [] then QueueRun(1, [], [], 0)
    else StepQueue(maximum, RunQueue(maximum, steps[..|steps| - 1]), steps[|steps| - 1])
  }

  ghost predicate Increasing(s: seq<nat>) {
    forall i, j :: 0 <= i < j < |s| ==> s[i] < s[j]
  }

  /** Along every interleaving the queue holds exactly the newest frames, within its bound; the frames taken are in
      order and older than the queued ones; and every frame that arrived was taken, is queued, or was dropped. */
  lemma {:induction false} QueueHoldsNewest(maximum: int, steps: seq<QueueStep>)
    ensures var run := RunQueue(maximum, steps);
      && run.next >= 1 + |run.queue|
      && (forall i :: 0 <= i < |run.queue| ==> run.queue[i] == run.next - |run.queue| + i)
      && (maximum > 0 ==> |run.queue| <= maximum)
      && Increasing(run.taken)
      && (forall i :: 0 <= i < |run.taken| ==> 1 <= run.taken[i] < run.next - |run.queue|)
      && |run.taken| + |run.queue| + run.dropped == run.next - 1
  {
    if steps != [] {
      QueueHoldsNewest(maximum, steps[..|steps| - 1]);
    }
  }
}
