/** Bounded first-in first-out queues between threads, and the batched sends and receives on them. */
module Channels {
  import opened Base

  datatype Status = Done | Block | Gone

  /** How many of the items still fit. */
  function Fitting<T>(items: seq<T>, contents: seq<T>, capacity: nat): nat {
    if |contents| >= capacity then 0 else Min(|items|, capacity - |contents|)
  }

  class Channel<T> {
    const capacity: nat
    var contents: seq<T>
    var connected: bool

    constructor (capacity: nat)
      ensures this.capacity == capacity && contents == [] && connected
    {
      this.capacity := capacity;
      contents := [];
      connected := true;
    }

    ghost predicate Valid()
      reads this
    {
      |contents| <= capacity
    }

    /** `try_sends`: as many from the front as fit; the rest comes back in order. */
    method TrySends(items: seq<T>) returns (status: Status, left: seq<T>)
      requires Valid()
      modifies this
      ensures Valid() && connected == old(connected)
      ensures contents + left == old(contents) + items
      ensures status == Done <==> left == []
      ensures |items| - |left| == if connected then Fitting(items, old(contents), capacity) else 0
      ensures status == Gone <==> !connected && items != []
    {
      left := items;
      while left != []
        invariant Valid() && connected == old(connected)
        invariant |left| <= |items| && left == items[|items| - |left|..]
        invariant contents == old(contents) + items[..|items| - |left|]
        invariant !connected ==> left == items
      {
        if !connected {
          return Gone, left;
        }
        if |contents| == capacity {
          return Block, left;
        }
        contents := contents + [left[0]];
        left := left[1..];
      }
      return Done, [];
    }

    /** `try_recvs`: one more than the batch size, if there are that many. */
    method TryRecvs(batch: nat) returns (status: Status, items: seq<T>)
      requires Valid()
      modifies this
      ensures Valid() && connected == old(connected)
      ensures items + contents == old(contents)
      ensures |items| == Min(batch + 1, |old(contents)|)
      ensures status == Done <==> |items| == batch + 1
      ensures status == Gone ==> !connected
      ensures status == Block ==> connected
    {
      items := [];
      while |items| <= batch
        invariant Valid() && connected == old(connected)
        invariant |items| <= batch + 1 && items + contents == old(contents)
      {
        if contents == [] {
          return if connected then Block else Gone, items;
        }
        items := items + [contents[0]];
        contents := contents[1..];
      }
      return Done, items;
    }
  }
}
