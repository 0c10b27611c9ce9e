// The operations of Go's container/heap that the engine uses (Init, Push,
// Pop and their helpers up and down), over an OrderPQ. The package is not
// part of the repository; these follow its published algorithm: a binary
// heap in a slice, repaired by sift-up after Push and sift-down after Pop.

module Heap {
  import opened Models
  import opened PriorityQueues

  /** The heap order holds for every slot below n whose parent is at or after lo. */
  ghost predicate HeapFrom(side: Side, s: seq<Order>, n: nat, lo: int)
    requires n <= |s|
  {
    forall k :: 0 < k < n && lo <= Parent(k) ==> !Precedes(side, s[k], s[Parent(k)])
  }

  /**
   * The state of down while the order that started at i0 sits at slot i:
   * the heap order holds from i0 on, except between i and its children, and
   * those children are no better than i's parent.
   */
  ghost predicate Sifting(side: Side, s: seq<Order>, i0: nat, n: nat, i: nat)
    requires n <= |s|
  {
    && (forall k :: 0 < k < n && i0 <= Parent(k) && Parent(k) != i ==>
          !Precedes(side, s[k], s[Parent(k)]))
    && (i > i0 ==> forall k :: 0 < k < n && Parent(k) == i ==>
          !Precedes(side, s[k], s[Parent(i)]))
  }

  /**
   * down(h, i0, n): sift the order at slot i0 down within the first n slots,
   * given that the subtrees below i0 are already in heap order. (Go's down
   * also reports whether the order moved; only heap.Fix and heap.Remove read
   * that, and the engine calls neither.)
   */
  method Down(h: OrderPQ, i0: nat, n: nat)
    requires i0 <= n <= |h.items|
    requires HeapFrom(h.side, h.items, n, i0 + 1)
    modifies h
    ensures |h.items| == |old(h.items)|
    ensures h.items[n..] == old(h.items)[n..]
    ensures multiset(h.items) == multiset(old(h.items))
    ensures HeapFrom(h.side, h.items, n, i0)
  {
    var i := i0;
    while true
      invariant i0 <= i && (i < n || i == i0)
      invariant |h.items| == |old(h.items)|
      invariant h.items[n..] == old(h.items)[n..]
      invariant multiset(h.items) == multiset(old(h.items))
      invariant Sifting(h.side, h.items, i0, n, i)
      decreases n - i
    {
      var j1 := 2 * i + 1;
      if j1 >= n {
        // Slot i has no children below n.
        DownSettled(h.side, h.items, i0, n, i);
        break;
      }
      var j := j1;
      var j2 := j1 + 1;
      if j2 < n && h.Less(j2, j1) {
        j := j2;
      }
      // j is the better child; the other one, if present, is no better.
      ghost var s, other := h.items, if j == j1 then j2 else j1;
      if j == j2 {
        PrecedesIsStrictWeakOrder(h.side, s[j2], s[j1], s[j1]);
      }
      if !h.Less(j, i) {
        // Neither child is better than slot i.
        if other < n {
          PrecedesIsStrictWeakOrder(h.side, s[other], s[j], s[i]);
        }
        DownSettled(h.side, s, i0, n, i);
        break;
      }
      DownStep(h.side, s, i0, n, i, j, other);
      h.Swap(i, j);
      i := j;
    }
  }

  /** Once slot i has no child below n, or none that comes before it, the whole range from i0 is in heap order. */
  lemma DownSettled(side: Side, s: seq<Order>, i0: nat, n: nat, i: nat)
    requires n <= |s| && i0 <= i
    requires Sifting(side, s, i0, n, i)
    requires 2 * i + 1 < n ==> forall k :: 0 < k < n && Parent(k) == i ==> !Precedes(side, s[k], s[i])
    ensures HeapFrom(side, s, n, i0)
  {
  }

  /** One step of down: swapping slot i with its better child j keeps the loop invariant. */
  lemma DownStep(side: Side, s: seq<Order>, i0: nat, n: nat, i: nat, j: nat, other: nat)
    requires n <= |s| && i0 <= i && j < n
    requires j == 2 * i + 1 || j == 2 * i + 2
    requires other == 4 * i + 3 - j
    requires Precedes(side, s[j], s[i])
    requires other < n ==> !Precedes(side, s[other], s[j])
    requires Sifting(side, s, i0, n, i)
    ensures Sifting(side, s[i := s[j]][j := s[i]], i0, n, j)
  {
    var t := s[i := s[j]][j := s[i]];
    assert Parent(j) == i;
    forall k | 0 < k < n && i0 <= Parent(k) && Parent(k) != j
      ensures !Precedes(side, t[k], t[Parent(k)])
    {
      if k == j {
        PrecedesIsStrictWeakOrder(side, s[j], s[i], s[i]);
      } else if k == i {
        assert i > i0;
      } else if k == other {
        PrecedesIsStrictWeakOrder(side, s[k], s[j], s[j]);
      }
    }
    forall k | 0 < k < n && Parent(k) == j
      ensures !Precedes(side, t[k], t[Parent(j)])
    {
      assert t[k] == s[k] && t[Parent(j)] == s[j];
    }
  }

  /**
   * up(h, j): sift the order at slot j up towards the root, given that the
   * heap order holds everywhere except between j and its parent.
   */
  method Up(h: OrderPQ, j0: nat)
    requires j0 < |h.items|
    requires forall k :: 0 < k < |h.items| && k != j0 ==>
               !Precedes(h.side, h.items[k], h.items[Parent(k)])
    requires j0 > 0 ==> forall k :: 0 < k < |h.items| && Parent(k) == j0 ==>
               !Precedes(h.side, h.items[k], h.items[Parent(j0)])
    modifies h
    ensures |h.items| == |old(h.items)|
    ensures multiset(h.items) == multiset(old(h.items))
    ensures IsHeap(h.side, h.items)
  {
    var j: nat := j0;
    while true
      invariant j < |h.items| == |old(h.items)|
      invariant multiset(h.items) == multiset(old(h.items))
      invariant forall k :: 0 < k < |h.items| && k != j ==>
                  !Precedes(h.side, h.items[k], h.items[Parent(k)])
      invariant j > 0 ==> forall k :: 0 < k < |h.items| && Parent(k) == j ==>
                  !Precedes(h.side, h.items[k], h.items[Parent(j)])
      decreases j
    {
      var i := Parent(j);
      if i == j || !h.Less(j, i) {
        break;
      }
      UpStep(h.side, h.items, j);
      h.Swap(i, j);
      j := i;
    }
  }

  /** One step of up: swapping slot j with its parent keeps the loop invariant. */
  lemma UpStep(side: Side, s: seq<Order>, j: nat)
    requires 0 < j < |s|
    requires Precedes(side, s[j], s[Parent(j)])
    requires forall k :: 0 < k < |s| && k != j ==> !Precedes(side, s[k], s[Parent(k)])
    requires forall k :: 0 < k < |s| && Parent(k) == j ==> !Precedes(side, s[k], s[Parent(j)])
    ensures var p := Parent(j); var t := s[p := s[j]][j := s[p]];
      && (forall k :: 0 < k < |t| && k != p ==> !Precedes(side, t[k], t[Parent(k)]))
      && (p > 0 ==> forall k :: 0 < k < |t| && Parent(k) == p ==>
            !Precedes(side, t[k], t[Parent(p)]))
  {
    var p := Parent(j);
    var t := s[p := s[j]][j := s[p]];
    forall k | 0 < k < |t| && k != p
      ensures !Precedes(side, t[k], t[Parent(k)])
    {
      if k == j {
        PrecedesIsStrictWeakOrder(side, s[j], s[p], s[p]);
      } else if Parent(k) == p {
        PrecedesIsStrictWeakOrder(side, s[k], s[j], s[p]);
      }
    }
    if p > 0 {
      forall k | 0 < k < |t| && Parent(k) == p
        ensures !Precedes(side, t[k], t[Parent(p)])
      {
        if k != j {
          PrecedesIsStrictWeakOrder(side, s[k], s[p], s[Parent(p)]);
        }
      }
    }
  }

  /** heap.Init: establish the heap order by sifting down every inner slot, last first. */
  method Init(h: OrderPQ)
    modifies h
    ensures multiset(h.items) == multiset(old(h.items))
    ensures IsHeap(h.side, h.items)
  {
    var n := h.Len();
    var i: int := n as int / 2 - 1;
    while i >= 0
      invariant -1 <= i < n
      invariant |h.items| == n
      invariant multiset(h.items) == multiset(old(h.items))
      invariant HeapFrom(h.side, h.items, n, i + 1)
    {
      Down(h, i, n);
      i := i - 1;
    }
  }

  /** heap.Push: append x and sift it up; the heap gains exactly x. */
  method Push(h: OrderPQ, x: Order)
    requires IsHeap(h.side, h.items)
    modifies h
    ensures IsHeap(h.side, h.items)
    ensures multiset(h.items) == multiset(old(h.items)) + multiset{x}
  {
    h.Push(x);
    Up(h, h.Len() - 1);
  }

  /**
   * heap.Pop: remove and return the top, a best order; the heap loses
   * exactly that order and stays in heap order.
   */
  method Pop(h: OrderPQ) returns (x: Order)
    requires IsHeap(h.side, h.items) && |h.items| > 0
    modifies h
    ensures IsHeap(h.side, h.items)
    ensures x == old(h.items)[0]
    ensures |h.items| == |old(h.items)| - 1
    ensures multiset(h.items) == multiset(old(h.items)) - multiset{x}
    ensures forall o :: o in old(h.items) ==> !Precedes(h.side, o, x)
  {
    HeapTopIsBest(h.side, h.items);
    var n := h.Len() - 1;
    h.Swap(0, n);
    Down(h, 0, n);
    ghost var s := h.items;
    assert s == s[..n] + [s[n]];
    assert s[n] == old(h.items)[0] by {
      assert s[n..][0] == s[n];
    }
    x := h.Pop();
  }
}
