/** The page-replacement heap (priorityQueue.c): a binary min-heap of (page index,
    priority) pairs kept in the first `size` cells of an array. */
module PriorityQueue {

  datatype HeapP = HeapP(index: int, priority: int)

  // ---------------------------------------------------------------- specification on sequences

  /** Node j is no larger than its children. */
  predicate Ok(t: seq<HeapP>, j: int) {
    && (0 <= j && 2 * j + 1 < |t| ==> t[j].priority <= t[2 * j + 1].priority)
    && (0 <= j && 2 * j + 2 < |t| ==> t[j].priority <= t[2 * j + 2].priority)
  }

  /** Every node from lo on is no larger than its children, except perhaps node x. */
  predicate HeapExcept(t: seq<HeapP>, lo: int, x: int) {
    forall j :: lo <= j < |t| && j != x ==> Ok(t, j)
  }

  predicate Heap(t: seq<HeapP>) {
    forall j :: 0 <= j < |t| ==> Ok(t, j)
  }

  function Swap(t: seq<HeapP>, i: nat, j: nat): (r: seq<HeapP>)
    requires i < |t| && j < |t|
    ensures |r| == |t| && multiset(r) == multiset(t)
  {
    t[i := t[j]][j := t[i]]
  }

  /** The position of the smallest of node i and its children, as heapify picks it. */
  function Smallest(t: seq<HeapP>, i: nat): (m: nat)
    requires i < |t|
    ensures m < |t| && (m == i || m == 2 * i + 1 || m == 2 * i + 2)
    ensures m == i <==> Ok(t, i)
    ensures t[m].priority <= t[i].priority
    ensures 2 * i + 1 < |t| ==> t[m].priority <= t[2 * i + 1].priority
    ensures 2 * i + 2 < |t| ==> t[m].priority <= t[2 * i + 2].priority
  {
    var l, r := 2 * i + 1, 2 * i + 2;
    var s := if l < |t| && t[l].priority < t[i].priority then l else i;
    if r < |t| && t[r].priority < t[s].priority then r else s
  }

  /** heapify on the whole sequence. */
  function SiftDown(t: seq<HeapP>, i: nat): (r: seq<HeapP>)
    requires i < |t|
    ensures |r| == |t| && multiset(r) == multiset(t)
    ensures forall k :: 0 <= k < i ==> r[k] == t[k]
    decreases |t| - i
  {
    var m := Smallest(t, i);
    if m == i then t else SiftDown(Swap(t, i, m), m)
  }

  /** The loop of insertHeap and deleteRoot: heapify nodes i, i-1, ..., 0. */
  function Rebuild(t: seq<HeapP>, i: int): (r: seq<HeapP>)
    requires i < |t|
    ensures |r| == |t| && multiset(r) == multiset(t)
    decreases i + 1
  {
    if i < 0 then t else Rebuild(SiftDown(t, i), i - 1)
  }

  /** Sifting node i down repairs it, if the nodes above it (from lo) are already no
      larger than anything that may move up. */
  lemma {:induction false} SiftDownHeap(t: seq<HeapP>, lo: nat, i: nat)
    requires lo <= i < |t| && HeapExcept(t, lo, i)
    requires i > lo && (i - 1) / 2 >= lo ==> t[(i - 1) / 2].priority <= t[i].priority
    requires i > lo && (i - 1) / 2 >= lo && 2 * i + 1 < |t| ==> t[(i - 1) / 2].priority <= t[2 * i + 1].priority
    requires i > lo && (i - 1) / 2 >= lo && 2 * i + 2 < |t| ==> t[(i - 1) / 2].priority <= t[2 * i + 2].priority
    ensures HeapExcept(SiftDown(t, i), lo, -1)
    decreases |t| - i
  {
    var m := Smallest(t, i);
    if m != i {
      var u := Swap(t, i, m);
      forall j | lo <= j < |u| && j != m
        ensures Ok(u, j)
      {
        assert Ok(t, j) || j == i;
      }
      assert Ok(t, m) && (m - 1) / 2 == i;
      SiftDownHeap(u, lo, m);
    }
  }

  lemma {:induction false} RebuildHeap(t: seq<HeapP>, i: int)
    requires -1 <= i < |t| && HeapExcept(t, i + 1, -1)
    ensures Heap(Rebuild(t, i))
    decreases i + 1
  {
    if i >= 0 {
      SiftDownHeap(t, i, i);
      RebuildHeap(SiftDown(t, i), i - 1);
    } else {
      assert forall j :: 0 <= j < |t| ==> Ok(t, j);
    }
  }

  /** The leaves need no repair: rebuilding from the last inner node makes a heap of
      an arbitrary sequence. */
  lemma BuildHeap(t: seq<HeapP>)
    ensures Heap(Rebuild(t, |t| / 2 - 1))
  {
    RebuildHeap(t, |t| / 2 - 1);
  }

  /** The root of a heap is a minimum. */
  lemma {:induction false} RootIsMin(t: seq<HeapP>, k: nat)
    requires Heap(t) && k < |t|
    ensures t[0].priority <= t[k].priority
    decreases k
  {
    if k == 0 {
    } else {
      RootIsMin(t, (k - 1) / 2);
      assert Ok(t, (k - 1) / 2);
    }
  }

  /** Every node of a heap is no larger than some leaf. */
  lemma {:induction false} LeafAbove(t: seq<HeapP>, k: nat) returns (leaf: nat)
    requires Heap(t) && k < |t|
    ensures |t| / 2 <= leaf < |t| && t[k].priority <= t[leaf].priority
    decreases |t| - k
  {
    if k >= |t| / 2 {
      leaf := k;
    } else {
      assert Ok(t, k);
      leaf := LeafAbove(t, 2 * k + 1);
    }
  }

  /** `t` with element i replaced by the last one, and one shorter. */
  function Without(t: seq<HeapP>, i: nat): (r: seq<HeapP>)
    requires i < |t|
    ensures |r| == |t| - 1 && forall k :: 0 <= k < |r| ==> r[k] == if k == i then t[|t| - 1] else t[k]
  {
    t[i := t[|t| - 1]][..|t| - 1]
  }

  lemma WithoutMultiset(t: seq<HeapP>, i: nat)
    requires i < |t|
    ensures multiset(Without(t, i)) == multiset(t) - multiset{t[i]}
  {
    var last := t[|t| - 1];
    var u := t[i := last];
    assert u == Without(t, i) + [last];
    var m, r := multiset(t) - multiset{t[i]}, multiset(Without(t, i));
    assert multiset(u) == m + multiset{last} == r + multiset{last};
    forall x
      ensures m[x] == r[x]
    {
      assert (m + multiset{last})[x] == (r + multiset{last})[x];
    }
  }

  /** What extractMin leaves: a heap without the root, which was a minimum. */
  lemma ExtractHeap(t: seq<HeapP>)
    requires Heap(t) && |t| >= 2
    ensures var u := SiftDown(Without(t, 0), 0); Heap(u) && multiset(u) == multiset(t) - multiset{t[0]}
  {
    var w := Without(t, 0);
    forall j | 0 < j < |w|
      ensures Ok(w, j)
    {
      assert Ok(t, j);
    }
    SiftDownHeap(w, 0, 0);
    WithoutMultiset(t, 0);
    var u := SiftDown(w, 0);
    assert forall j :: 0 <= j < |u| ==> Ok(u, j);
  }

  lemma SiftStep(t: seq<HeapP>, i: nat)
    requires i < |t|
    ensures SiftDown(t, i) == var s := Smallest(t, i); if s == i then t else SiftDown(Swap(t, i, s), s)
  {
  }

  /** p is at most every priority in m. */
  predicate AtMost(p: int, m: multiset<HeapP>) {
    forall x :: x in m ==> p <= x.priority
  }

  lemma RootAtMost(t: seq<HeapP>)
    requires Heap(t) && t != []
    ensures AtMost(t[0].priority, multiset(t)) && t[0] in multiset(t)
  {
    forall k | 0 <= k < |t|
      ensures t[0].priority <= t[k].priority
    {
      RootIsMin(t, k);
    }
    forall x | x in multiset(t)
      ensures t[0].priority <= x.priority
    {
      assert x in t;
    }
  }

  predicate Sorted(out: seq<HeapP>) {
    forall i, j :: 0 <= i < j < |out| ==> out[i].priority <= out[j].priority
  }

  predicate Bounded(out: seq<HeapP>, m: multiset<HeapP>) {
    forall i :: 0 <= i < |out| ==> AtMost(out[i].priority, m)
  }

  lemma DrainStep(out: seq<HeapP>, m: multiset<HeapP>, root: HeapP)
    requires Sorted(out) && Bounded(out, m) && root in m && AtMost(root.priority, m)
    ensures Sorted(out + [root]) && Bounded(out + [root], m - multiset{root})
    ensures multiset(out + [root]) + (m - multiset{root}) == multiset(out) + m
  {
    forall i | 0 <= i < |out|
      ensures out[i].priority <= root.priority
    {
      assert AtMost(out[i].priority, m);
    }
    assert multiset(out + [root]) == multiset(out) + multiset{root};
  }

  // ---------------------------------------------------------------- the array version

  method SwapHeapNode(a: array<HeapP>, i: nat, j: nat)
    requires i < a.Length && j < a.Length
    modifies a
    ensures a[i] == old(a[j]) && a[j] == old(a[i])
    ensures forall k :: 0 <= k < a.Length && k != i && k != j ==> a[k] == old(a[k])
  {
    var temp := a[j];
    a[j] := a[i];
    a[i] := temp;
  }

  lemma SwapSlice(t: seq<HeapP>, u: seq<HeapP>, i: nat, j: nat)
    requires |u| == |t| && i < |t| && j < |t| && u[i] == t[j] && u[j] == t[i]
    requires forall k :: 0 <= k < |t| && k != i && k != j ==> u[k] == t[k]
    ensures u == Swap(t, i, j)
  {
  }

  /** heapify: in place on the first `size` cells. */
  method Heapify(a: array<HeapP>, size: nat, i: nat)
    requires i < size <= a.Length
    modifies a
    ensures a[..size] == SiftDown(old(a[..size]), i) && forall k :: size <= k < a.Length ==> a[k] == old(a[k])
    decreases size - i
  {
    hide SiftDown, Smallest;
    ghost var t := a[..size];
    SiftStep(t, i);
    if size == 1 {
      OnlyNode(t);
      return;
    }
    var smallest := PickSmallest(a, size, i);
    if smallest != i {
      SwapHeapNode(a, i, smallest);
      SwapSlice(t, a[..size], i, smallest);
      Heapify(a, size, smallest);
    }
  }

  lemma OnlyNode(t: seq<HeapP>)
    requires |t| == 1
    ensures Smallest(t, 0) == 0
  {
  }

  /** heapify's choice between node i and its children. */
  method PickSmallest(a: array<HeapP>, size: nat, i: nat) returns (smallest: nat)
    requires i < size <= a.Length
    ensures smallest == Smallest(a[..size], i)
  {
    var l, r := 2 * i + 1, 2 * i + 2;
    smallest := i;
    if l < size && a[l].priority < a[smallest].priority {
      smallest := l;
    }
    if r < size && a[r].priority < a[smallest].priority {
      smallest := r;
    }
  }

  /** The rebuilding loop shared by insertHeap and deleteRoot. */
  method RebuildArray(a: array<HeapP>, size: nat)
    requires size <= a.Length
    modifies a
    ensures Heap(a[..size]) && multiset(a[..size]) == multiset(old(a[..size]))
    ensures forall k :: size <= k < a.Length ==> a[k] == old(a[k])
  {
    ghost var t := a[..size];
    BuildHeap(t);
    var i := size / 2 - 1;
    while i >= 0
      invariant -1 <= i < size || i == -1
      invariant Rebuild(a[..size], i) == Rebuild(t, size / 2 - 1)
      invariant forall k :: size <= k < a.Length ==> a[k] == old(a[k])
    {
      Heapify(a, size, i);
      i := i - 1;
    }
  }

  /** insertHeap: whatever order the array was in, the result is a heap with exactly
      one element more. */
  method InsertHeap(a: array<HeapP>, size: nat, x: HeapP) returns (newSize: nat)
    requires size < a.Length
    modifies a
    ensures newSize == size + 1 && Heap(a[..newSize])
    ensures multiset(a[..newSize]) == multiset(old(a[..size])) + multiset{x}
    ensures forall k :: newSize <= k < a.Length ==> a[k] == old(a[k])
  {
    a[size] := x;
    newSize := size + 1;
    assert a[..newSize] == old(a[..size]) + [x];
    if size > 0 {
      RebuildArray(a, newSize);
    }
  }

  const NONE := HeapP(-1, -1)

  /** The search of deleteRoot; `size` if no element has the index. */
  method FindIndex(a: array<HeapP>, size: nat, index: int) returns (i: nat)
    requires size <= a.Length
    ensures i <= size && (i < size ==> a[i].index == index)
    ensures forall k :: 0 <= k < i ==> a[k].index != index
  {
    i := 0;
    while i < size && a[i].index != index
      invariant 0 <= i <= size && forall k :: 0 <= k < i ==> a[k].index != index
    {
      i := i + 1;
    }
  }

  /** The rest of deleteRoot: swap element i to the end, shrink, rebuild. */
  method RemoveAt(a: array<HeapP>, size: nat, i: nat)
    requires i < size <= a.Length
    modifies a
    ensures Heap(a[..size - 1]) && multiset(a[..size - 1]) == multiset(old(a[..size])) - multiset{old(a[i])}
    ensures a[size - 1] == old(a[i]) && forall k :: size <= k < a.Length ==> a[k] == old(a[k])
  {
    ghost var t := a[..size];
    WithoutMultiset(t, i);
    SwapHeapNode(a, i, size - 1);
    assert a[..size - 1] == Without(t, i);
    RebuildArray(a, size - 1);
  }

  /** deleteRoot: removes the first element with the given index; when there is none
      the array is left alone and (-1, -1) is returned. */
  method DeleteRoot(a: array<HeapP>, size: nat, index: int) returns (out: HeapP, newSize: nat)
    requires size <= a.Length
    modifies a
    ensures !HasIndex(old(a[..size]), index) ==> out == NONE && newSize == size && a[..] == old(a[..])
    ensures HasIndex(old(a[..size]), index) ==>
      && newSize == size - 1 && out.index == index && out in multiset(old(a[..size])) && Heap(a[..newSize])
      && multiset(a[..newSize]) == multiset(old(a[..size])) - multiset{out}
      && a[newSize] == out && forall k :: size <= k < a.Length ==> a[k] == old(a[k])
  {
    ghost var t := a[..size];
    var i := FindIndex(a, size, index);
    if i == size {
      assert !HasIndex(t, index);
      return NONE, size;
    }
    out, newSize := a[i], size - 1;
    assert t[i] == out && HasIndex(t, index);
    RemoveAt(a, size, i);
  }

  /** Some element has the index. */
  predicate HasIndex(t: seq<HeapP>, index: int) {
    exists k :: 0 <= k < |t| && t[k].index == index
  }

  lemma PutBack(m: multiset<HeapP>, x: HeapP)
    ensures x in m ==> m - multiset{x} + multiset{x} == m
  {
  }

  /** findInHeap takes the element out and puts it back, unless the index is -1, which
      the code takes for "not found": then an element with that index is lost. */
  method FindInHeap(a: array<HeapP>, size: nat, index: int) returns (out: HeapP, newSize: nat)
    requires size <= a.Length
    modifies a
    ensures !HasIndex(old(a[..size]), index) ==> out == NONE && newSize == size && a[..] == old(a[..])
    ensures HasIndex(old(a[..size]), index) ==>
      && out in multiset(old(a[..size])) && out.index == index && newSize <= size && Heap(a[..newSize])
      && (index != -1 ==> newSize == size && multiset(a[..size]) == multiset(old(a[..size])))
      && (index == -1 ==> newSize == size - 1 && multiset(a[..newSize]) == multiset(old(a[..size])) - multiset{out})
    ensures forall k :: size <= k < a.Length ==> a[k] == old(a[k])
  {
    hide Heap, HasIndex;
    ghost var before := multiset(a[..size]);
    out, newSize := DeleteRoot(a, size, index);
    if out.index != -1 {
      PutBack(before, out);
      newSize := InsertHeap(a, newSize, out);
    }
  }

  /** extractMin on a nonempty heap: a minimum comes out, the rest stays a heap. */
  method ExtractMin(a: array<HeapP>, size: nat) returns (root: HeapP, newSize: nat)
    requires 1 <= size <= a.Length && Heap(a[..size])
    modifies a
    ensures newSize == size - 1 && Heap(a[..newSize])
    ensures root in multiset(old(a[..size])) && AtMost(root.priority, multiset(old(a[..size])))
    ensures multiset(a[..newSize]) == multiset(old(a[..size])) - multiset{root}
  {
    hide Heap, SiftDown, AtMost;
    ghost var t := a[..size];
    RootAtMost(t);
    WithoutMultiset(t, 0);
    root := a[0];
    newSize := size - 1;
    if size == 1 {
      assert a[..newSize] == Without(t, 0) == [];
      EmptyHeap();
      return;
    }
    ExtractHeap(t);
    a[0] := a[size - 1];
    assert a[..newSize] == Without(t, 0);
    Heapify(a, newSize, 0);
    assert a[..newSize] == SiftDown(Without(t, 0), 0);
  }

  lemma EmptyHeap()
    ensures Heap([])
  {
  }

  /** findMaxElementIndex: scanning only the leaves finds a maximum of the whole array
      when it is a heap; on an empty one the answer is cell 0. */
  method FindMaxElementIndex(a: array<HeapP>, size: nat) returns (maxIndex: nat)
    requires size <= a.Length && 1 <= a.Length
    ensures if size == 0 then maxIndex == 0 else maxIndex < size
    ensures size > 0 && Heap(a[..size]) ==> forall k :: 0 <= k < size ==> a[k].priority <= a[maxIndex].priority
  {
    if size == 0 {
      return 0;
    }
    var maxPrio := a[size / 2].priority;
    maxIndex := size / 2;
    for i := 1 + size / 2 to size
      invariant size / 2 <= maxIndex < size && maxPrio == a[maxIndex].priority
      invariant forall k :: size / 2 <= k < i ==> a[k].priority <= maxPrio
    {
      if a[i].priority > maxPrio {
        maxIndex, maxPrio := i, a[i].priority;
      }
    }
    if Heap(a[..size]) {
      forall k | 0 <= k < size
        ensures a[k].priority <= a[maxIndex].priority
      {
        var leaf := LeafAbove(a[..size], k);
      }
    }
  }

  /** Repeated extractMin empties the heap in sorted order. */
  method Drain(a: array<HeapP>, size: nat) returns (out: seq<HeapP>)
    requires size <= a.Length && Heap(a[..size])
    modifies a
    ensures multiset(out) == multiset(old(a[..size]))
    ensures forall i, j :: 0 <= i < j < |out| ==> out[i].priority <= out[j].priority
  {
    var n := size;
    out := [];
    ghost var all := multiset(a[..size]);
    while n > 0
      invariant 0 <= n <= size && Heap(a[..n]) && multiset(out) + multiset(a[..n]) == all
      invariant Sorted(out) && Bounded(out, multiset(a[..n]))
    {
      hide Heap, Sorted, Bounded, AtMost;
      var root: HeapP;
      ghost var before := multiset(a[..n]);
      root, n := ExtractMin(a, n);
      DrainStep(out, before, root);
      out := out + [root];
    }
  }
}
