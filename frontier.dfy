/** The `heapq` frontier both searches use, seen through what they rely on: entries
    `(f, g, tick, state)` are pushed, and a pop returns the least entry in tuple order.
    The tick comes from a counter and is unique, so two entries never tie and the states
    themselves are never compared. */
module Frontier {

  datatype Entry<S> = Entry(f: int, g: nat, tick: nat, state: S)

  /** Python's tuple order on `(f, g, tick)`. */
  predicate EntryLeq<S>(a: Entry<S>, b: Entry<S>)
  {
    a.f < b.f || (a.f == b.f && (a.g < b.g || (a.g == b.g && a.tick <= b.tick)))
  }

  /** heappop: the least entry, and the frontier without it. */
  method PopMin<S(==)>(heap: seq<Entry<S>>) returns (e: Entry<S>, rest: seq<Entry<S>>)
    requires heap != []
    ensures e in heap
    ensures forall x | x in heap :: EntryLeq(e, x)
    ensures multiset(rest) + multiset{e} == multiset(heap)
    ensures |rest| == |heap| - 1
  {
    var best := 0;
    for i := 1 to |heap|
      invariant 0 <= best < |heap|
      invariant forall k | 0 <= k < i :: EntryLeq(heap[best], heap[k])
    {
      if !EntryLeq(heap[best], heap[i]) {
        best := i;
      }
    }
    e := heap[best];
    rest := heap[..best] + heap[best + 1..];
    assert heap == heap[..best] + [e] + heap[best + 1..];
  }

  /** Every entry of `rest` was in the heap. */
  lemma RestInHeap<S>(heap: seq<Entry<S>>, e: Entry<S>, rest: seq<Entry<S>>)
    requires multiset(rest) + multiset{e} == multiset(heap)
    ensures forall x | x in rest :: x in heap
  {
    forall x | x in rest
      ensures x in heap
    {
      assert x in multiset(rest);
      assert x in multiset(heap);
    }
  }
}
