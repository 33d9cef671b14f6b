/** The binary heap of merge candidates that the BPE loop pops from
    (jb.c:2023-2044 and jb.c:2085-2101). */
module BpeHeap {

  /** A candidate merge: its rank, the position of its left id, and the two ids it was made from. */
  datatype Cand = Cand(rank: nat, pos: nat, a: nat, b: nat)

  /** The heap's order: lower rank first, then the smaller position. */
  predicate Less(x: Cand, y: Cand) {
    if x.rank != y.rank then x.rank < y.rank else x.pos < y.pos
  }

  function Parent(i: nat): nat
    requires i > 0
  {
    (i - 1) / 2
  }

  ghost predicate Ordered(h: seq<Cand>) {
    forall i | 0 < i < |h| :: !Less(h[i], h[Parent(i)])
  }

  /** Ordered except that the item at `at` may be smaller than its ancestors. */
  ghost predicate OrderedUp(h: seq<Cand>, at: nat) {
    && (forall i | 0 < i < |h| && i != at :: !Less(h[i], h[Parent(i)]))
    && (forall i | 0 < i < |h| && 0 < at < |h| && Parent(i) == at :: !Less(h[i], h[Parent(at)]))
  }

  /** Ordered except that the item at `at` may be larger than its descendants. */
  ghost predicate OrderedDown(h: seq<Cand>, at: nat) {
    && (forall i | 0 < i < |h| && Parent(i) != at :: !Less(h[i], h[Parent(i)]))
    && (forall i | 0 < i < |h| && 0 < at < |h| && Parent(i) == at :: !Less(h[i], h[Parent(at)]))
  }

  /** The root of an ordered heap is a least element of it. */
  lemma {:induction false} RootIsLeast(h: seq<Cand>, i: nat)
    requires Ordered(h) && i < |h|
    ensures !Less(h[i], h[0])
  {
    if i > 0 {
      RootIsLeast(h, Parent(i));
    }
  }

  function Swapped(h: seq<Cand>, i: nat, j: nat): seq<Cand>
    requires i < |h| && j < |h|
  {
    h[i := h[j]][j := h[i]]
  }

  lemma SwapKeepsItems(h: seq<Cand>, i: nat, j: nat)
    requires i < |h| && j < |h|
    ensures multiset(Swapped(h, i, j)) == multiset(h)
  {
  }

  /** Bubbling the item at `at` up as far as it goes. */
  function SiftUp(h: seq<Cand>, at: nat): (r: seq<Cand>)
    requires at < |h|
    ensures |r| == |h|
    decreases at
  {
    if at > 0 && Less(h[at], h[Parent(at)]) then SiftUp(Swapped(h, at, Parent(at)), Parent(at)) else h
  }

  /** The smaller of an item and its two children, the left one on a tie. */
  function LeastOf(h: seq<Cand>, i: nat): (m: nat)
    requires i < |h|
    ensures m < |h| && (m == i || m == 2 * i + 1 || m == 2 * i + 2)
    ensures m != i ==> Less(h[m], h[i])
    ensures 2 * i + 1 < |h| ==> !Less(h[2 * i + 1], h[m])
    ensures 2 * i + 2 < |h| ==> !Less(h[2 * i + 2], h[m])
  {
    var m := if 2 * i + 1 < |h| && Less(h[2 * i + 1], h[i]) then 2 * i + 1 else i;
    if 2 * i + 2 < |h| && Less(h[2 * i + 2], h[m]) then 2 * i + 2 else m
  }

  /** Sinking the item at `i` as far as it goes. */
  function SiftDown(h: seq<Cand>, i: nat): (r: seq<Cand>)
    requires i < |h|
    ensures |r| == |h|
    decreases |h| - i
  {
    var m := LeastOf(h, i);
    if m == i then h else SiftDown(Swapped(h, i, m), m)
  }

  /** What is left of a heap once its root is taken: the last item takes its place and sinks. */
  function Rest(h: seq<Cand>): seq<Cand>
    requires |h| > 0
  {
    var n := |h| - 1;
    if n == 0 then [] else SiftDown(h[..n][0 := h[n]], 0)
  }

  lemma {:induction false} SiftUpRestores(h: seq<Cand>, at: nat)
    requires at < |h| && OrderedUp(h, at)
    ensures Ordered(SiftUp(h, at)) && multiset(SiftUp(h, at)) == multiset(h)
    decreases at
  {
    if at > 0 && Less(h[at], h[Parent(at)]) {
      SwapKeepsItems(h, at, Parent(at));
      BubbleKeepsOrder(h, at);
      SiftUpRestores(Swapped(h, at, Parent(at)), Parent(at));
    }
  }

  lemma BubbleKeepsOrder(h: seq<Cand>, at: nat)
    requires 0 < at < |h| && OrderedUp(h, at) && Less(h[at], h[Parent(at)])
    ensures OrderedUp(Swapped(h, at, Parent(at)), Parent(at))
  {
    var p := Parent(at);
    var g := Swapped(h, at, p);
    forall i | 0 < i < |g| && i != p
      ensures !Less(g[i], g[Parent(i)])
    {
      if i != at {
        assert g[i] == h[i] && !Less(h[i], h[Parent(i)]);
        if Parent(i) == at {
          assert !Less(h[i], h[p]);
        }
      }
    }
    forall i | 0 < i < |g| && 0 < p && Parent(i) == p
      ensures !Less(g[i], g[Parent(p)])
    {
      assert !Less(h[p], h[Parent(p)]);
      if i != at {
        assert !Less(h[i], h[p]);
      }
    }
  }

  lemma {:induction false} SiftDownRestores(h: seq<Cand>, i: nat)
    requires i < |h| && OrderedDown(h, i)
    ensures Ordered(SiftDown(h, i)) && multiset(SiftDown(h, i)) == multiset(h)
    decreases |h| - i
  {
    var m := LeastOf(h, i);
    if m == i {
      SettledIsOrdered(h, i);
    } else {
      SwapKeepsItems(h, i, m);
      SinkKeepsOrder(h, i, m);
      SiftDownRestores(Swapped(h, i, m), m);
    }
  }

  /** Pushing onto an ordered heap gives an ordered heap with exactly one more item. */
  lemma PushKeepsHeap(h: seq<Cand>, c: Cand)
    requires Ordered(h)
    ensures Ordered(SiftUp(h + [c], |h|))
    ensures multiset(SiftUp(h + [c], |h|)) == multiset(h) + multiset{c}
  {
    SiftUpRestores(h + [c], |h|);
  }

  /** Taking the root off an ordered heap leaves an ordered heap of the other items, none below it. */
  lemma RestKeepsHeap(h: seq<Cand>)
    requires |h| > 0 && Ordered(h)
    ensures Ordered(Rest(h))
    ensures multiset(Rest(h)) == multiset(h) - multiset{h[0]}
    ensures |Rest(h)| == |h| - 1
    ensures forall c :: c in h ==> !Less(c, h[0])
  {
    RemoveRoot(h);
    if |h| > 1 {
      SiftDownRestores(h[..|h| - 1][0 := h[|h| - 1]], 0);
    }
    forall c | c in h
      ensures !Less(c, h[0])
    {
      var i :| 0 <= i < |h| && h[i] == c;
      RootIsLeast(h, i);
    }
  }

  /** Adds a candidate to the heap's first `nh` items, bubbling it up. */
  method Push(heap: array<Cand>, nh: nat, c: Cand)
    requires nh < heap.Length
    modifies heap
    ensures heap[..nh + 1] == SiftUp(old(heap[..nh]) + [c], nh)
  {
    var at: nat := nh;
    heap[at] := c;
    assert heap[..nh + 1] == old(heap[..nh]) + [c];
    while at > 0 && Less(heap[at], heap[(at - 1) / 2])
      invariant at <= nh
      invariant SiftUp(heap[..nh + 1], at) == SiftUp(old(heap[..nh]) + [c], nh)
    {
      ghost var was := heap[..nh + 1];
      var z := heap[at];
      heap[at] := heap[(at - 1) / 2];
      heap[(at - 1) / 2] := z;
      assert heap[..nh + 1] == Swapped(was, at, Parent(at));
      at := (at - 1) / 2;
    }
  }

  /** Removes the root of the heap's first `nh` items; the others stay in the first `nh - 1`. */
  method Pop(heap: array<Cand>, nh: nat) returns (c: Cand)
    requires 0 < nh <= heap.Length
    modifies heap
    ensures c == old(heap[..nh])[0]
    ensures heap[..nh - 1] == Rest(old(heap[..nh]))
  {
    c := heap[0];
    var n := nh - 1;
    heap[0] := heap[n];
    if n == 0 {
      return;
    }
    var i: nat := 0;
    assert heap[..n] == old(heap[..nh])[..n][0 := old(heap[..nh])[n]];
    while true
      invariant i < n
      invariant SiftDown(heap[..n], i) == Rest(old(heap[..nh]))
      decreases n - i
    {
      var l, r, m := 2 * i + 1, 2 * i + 2, i;
      if l < n && Less(heap[l], heap[m]) {
        m := l;
      }
      if r < n && Less(heap[r], heap[m]) {
        m := r;
      }
      ghost var h := heap[..n];
      assert m == LeastOf(h, i);
      if m == i {
        break;
      }
      var z := heap[i];
      heap[i] := heap[m];
      heap[m] := z;
      assert heap[..n] == Swapped(h, i, m);
      i := m;
    }
  }

  lemma RemoveRoot(was: seq<Cand>)
    requires |was| > 0 && Ordered(was)
    ensures var n := |was| - 1;
            var h := if n == 0 then [] else was[..n][0 := was[n]];
            multiset(h) == multiset(was) - multiset{was[0]} && OrderedDown(h, 0)
  {
    var n := |was| - 1;
    assert was == was[..n] + [was[n]];
    if n > 0 {
      assert was[..n] == [was[0]] + was[1..n];
      assert was[..n][0 := was[n]] == [was[n]] + was[1..n];
    }
  }

  lemma SettledIsOrdered(h: seq<Cand>, i: nat)
    requires OrderedDown(h, i)
    requires i < |h| || |h| == 0
    requires 2 * i + 1 < |h| ==> !Less(h[2 * i + 1], h[i])
    requires 2 * i + 2 < |h| ==> !Less(h[2 * i + 2], h[i])
    ensures Ordered(h)
  {
    forall q | 0 < q < |h|
      ensures !Less(h[q], h[Parent(q)])
    {
      if Parent(q) == i {
        assert q == 2 * i + 1 || q == 2 * i + 2;
      }
    }
  }

  lemma SinkKeepsOrder(h: seq<Cand>, i: nat, m: nat)
    requires i < |h| && OrderedDown(h, i)
    requires m < |h| && (m == 2 * i + 1 || m == 2 * i + 2) && Less(h[m], h[i])
    requires 2 * i + 1 < |h| ==> !Less(h[2 * i + 1], h[m])
    requires 2 * i + 2 < |h| ==> !Less(h[2 * i + 2], h[m])
    ensures OrderedDown(Swapped(h, i, m), m)
  {
    var g := Swapped(h, i, m);
    forall q | 0 < q < |g| && Parent(q) != m
      ensures !Less(g[q], g[Parent(q)])
    {
      if Parent(q) == i {
        assert q == 2 * i + 1 || q == 2 * i + 2;
      } else if q == i {
        assert !Less(h[m], h[Parent(i)]);
      } else {
        assert g[q] == h[q] && g[Parent(q)] == h[Parent(q)];
      }
    }
    forall q | 0 < q < |g| && Parent(q) == m
      ensures !Less(g[q], g[Parent(m)])
    {
      assert Parent(m) == i && q != i && q != m;
      assert !Less(h[q], h[m]);
    }
  }
}
