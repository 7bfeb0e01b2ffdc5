/** The phone's backpressure queue: a bounded queue of snapshots and one replaceable live slot. */
module CaptureQueue {
  import opened Wrappers

  datatype EnqueueResult<Element> =
    | Accepted
    | ReplacedLive(replaced: Element)
    | SnapshotQueueFull

  function LiveAsSeq<Element>(live: Option<Element>): seq<Element> {
    if live.Some? then [live.value] else []
  }

  class CaptureBackpressureQueue<Element> {
    var snapshots: seq<Element>
    var live: Option<Element>
    const maximumSnapshots: nat

    constructor (maximumSnapshots: nat)
      requires maximumSnapshots > 0
      ensures this.maximumSnapshots == maximumSnapshots
      ensures snapshots == [] && live == None
    {
      this.maximumSnapshots := maximumSnapshots;
      snapshots := [];
      live := None;
    }

    function Count(): nat
      reads this
    {
      |snapshots| + (if live.None? then 0 else 1)
    }

    predicate IsEmpty()
      reads this
    {
      snapshots == [] && live.None?
    }

    /** Everything waiting, in the order it would be popped. */
    function Contents(): seq<Element>
      reads this
    {
      snapshots + LiveAsSeq(live)
    }

    method EnqueueSnapshot(value: Element) returns (r: EnqueueResult<Element>)
      modifies this
      ensures r == if old(|snapshots|) < maximumSnapshots then Accepted else SnapshotQueueFull
      ensures snapshots == if r.Accepted? then old(snapshots) + [value] else old(snapshots)
      ensures live == old(live)
    {
      if |snapshots| >= maximumSnapshots {
        return SnapshotQueueFull;
      }
      snapshots := snapshots + [value];
      return Accepted;
    }

    method EnqueueLive(value: Element) returns (r: EnqueueResult<Element>)
      modifies this
      ensures r == if old(live).Some? then ReplacedLive(old(live).value) else Accepted
      ensures live == Some(value) && snapshots == old(snapshots)
    {
      var replaced := live;
      live := Some(value);
      r := if replaced.Some? then ReplacedLive(replaced.value) else Accepted;
    }

    /** Snapshots first, oldest first; the live element only when no snapshot waits. */
    method PopFirst() returns (r: Option<Element>)
      modifies this
      ensures r.None? <==> old(IsEmpty())
      ensures r.Some? ==> [r.value] + Contents() == old(Contents())
      ensures r.Some? && old(snapshots) == [] ==> r == old(live) && live == None && snapshots == []
      ensures old(snapshots) != [] ==> r == Some(old(snapshots)[0]) && snapshots == old(snapshots)[1..] && live == old(live)
      ensures r.None? ==> snapshots == old(snapshots) && live == old(live)
    {
      if snapshots != [] {
        r := Some(snapshots[0]);
        snapshots := snapshots[1..];
        return;
      }
      r := live;
      live := None;
    }

    method RemoveAll() returns (removed: seq<Element>)
      modifies this
      ensures removed == old(Contents())
      ensures snapshots == [] && live == None
    {
      removed := snapshots + LiveAsSeq(live);
      snapshots := [];
      live := None;
    }
  }
}
